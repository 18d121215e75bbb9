/**
 * The IDBA-Tran backend (lib/assemblotron/assemblers/idba_tran.rb): reads
 * are merged once into one FASTA file, the command line is built by
 * appending fixed tuning flags, and the result is the contig file unless it
 * is empty. The file system is an input: the set of files that exist and
 * their sizes.
 */
module IdbaTran {
  import opened Wrappers
  import opened Strings
  import opened RubyValues
  import Paths

  /** The merged read file prepare_reads produces in the working directory. */
  const MergedReads := "idba_merged_reads.fa"

  /** `"#{x}"` of the first hit of a binary lookup: nil (not found) renders empty. */
  function Render(found: Option<string>): string
  {
    if found.Some? then found.value else ""
  }

  /**
   * The words of build_cmd, piece by piece: binary, output directory, reads,
   * threads and the fixed tuning flags.
   */
  function IdbaArgv(idba: string, readFile: string, threads: string): seq<string>
  {
    [idba] + ["-o", "."] + ["-r", readFile] + ["--num_threads", threads]
    + ["--mink", "21"] + ["--maxk", "77"] + ["--step", "4"] + ["--min_count", "1"]
    + ["--no_correct"] + ["--max_isoforms", "6"] + ["--similar", "0.98"]
  }

  /** The fixed tuning flags that follow the thread count. */
  function TuningFlags(): seq<string>
  {
    ["--mink", "21", "--maxk", "77", "--step", "4", "--min_count", "1",
     "--no_correct", "--max_isoforms", "6", "--similar", "0.98"]
  }

  /** The merge command of prepare_reads. */
  function MergeCommand(fq2fa: string, left: Value, right: Value): seq<string>
  {
    [fq2fa] + ["--merge"] + [Show(left)] + [Show(right)] + [MergedReads]
  }

  /**
   * A command that so far holds `words`, each followed by a space, extended
   * by a piece of text that is `more` written out the same way.
   */
  lemma AppendWords(cmd: string, words: seq<string>, piece: string, more: seq<string>)
    requires |words| >= 1 && |more| >= 1
    requires cmd == JoinWith(words, ' ') + " "
    requires piece == JoinWith(more, ' ') + " "
    ensures cmd + piece == JoinWith(words + more, ' ') + " "
  {
    JoinAppend(words, more, ' ');
  }

  /** Each fixed piece build_cmd appends is its words joined by spaces, plus a trailing space. */
  lemma FixedPieces()
    ensures "-o . " == JoinWith(["-o", "."], ' ') + " "
    ensures "--mink 21 " == JoinWith(["--mink", "21"], ' ') + " "
    ensures "--maxk 77 " == JoinWith(["--maxk", "77"], ' ') + " "
    ensures "--step 4 " == JoinWith(["--step", "4"], ' ') + " "
    ensures "--min_count 1 " == JoinWith(["--min_count", "1"], ' ') + " "
    ensures "--no_correct " == JoinWith(["--no_correct"], ' ') + " "
    ensures "--max_isoforms 6 " == JoinWith(["--max_isoforms", "6"], ' ') + " "
    ensures "--similar 0.98" == JoinWith(["--similar", "0.98"], ' ')
  {
    PairPiece("-o", ".");
    PairPiece("--mink", "21");
    PairPiece("--maxk", "77");
    PairPiece("--step", "4");
    PairPiece("--min_count", "1");
    PairPiece("--max_isoforms", "6");
    PairPiece("--similar", "0.98");
  }

  /** A flag and its value as one piece. */
  lemma PairPiece(flag: string, value: string)
    ensures flag + " " + value + " " == JoinWith([flag, value], ' ') + " "
  {
    assert [flag, value][1..] == [value];
  }

  /** Five words joined by spaces. */
  lemma JoinFive(a: string, b: string, c: string, d: string, e: string)
    ensures JoinWith([a] + [b] + [c] + [d] + [e], ' ') == a + " " + b + " " + c + " " + d + " " + e
  {
    JoinAppend([a], [b], ' ');
    JoinAppend([a] + [b], [c], ' ');
    JoinAppend([a] + [b] + [c], [d], ' ');
    JoinAppend([a] + [b] + [c] + [d], [e], ' ');
  }

  /** An IdbaTran instance: the binaries found on the PATH when it was created. */
  class Assembler {
    const idba: Option<string>
    const fq2fa: Option<string>

    /** initialize: the first hit of each binary lookup, nil when there is none. */
    constructor (idbaHits: seq<string>, fq2faHits: seq<string>)
      ensures idba == (if idbaHits == [] then None else Some(idbaHits[0]))
      ensures fq2fa == (if fq2faHits == [] then None else Some(fq2faHits[0]))
    {
      idba := if idbaHits == [] then None else Some(idbaHits[0]);
      fq2fa := if fq2faHits == [] then None else Some(fq2faHits[0]);
    }

    /**
     * prepare_reads: the merged read file, merged with fq2fa only when it
     * does not exist yet.
     */
    method PrepareReads(left: Value, right: Value, existing: set<string>)
      returns (output: string, merge: Option<string>)
      ensures output == MergedReads
      ensures merge.None? <==> MergedReads in existing
      ensures merge.Some? ==> merge.value == JoinWith(MergeCommand(Render(fq2fa), left, right), ' ')
    {
      output := MergedReads;
      if output in existing {
        merge := None;
      } else {
        var cmd := Render(fq2fa) + " " + "--merge" + " " + Show(left) + " " + Show(right) + " " + output;
        JoinFive(Render(fq2fa), "--merge", Show(left), Show(right), output);
        merge := Some(cmd);
      }
    }

    /**
     * build_cmd: the command built by appending each flag with a trailing
     * space, the last one without.
     */
    method BuildCmd(params: Options, existing: set<string>)
      returns (merge: Option<string>, cmd: string)
      ensures merge.None? <==> MergedReads in existing
      ensures merge.Some? ==>
        merge.value == JoinWith(MergeCommand(Render(fq2fa), Lookup(params, "left"), Lookup(params, "right")), ' ')
      ensures cmd == JoinWith(IdbaArgv(Render(idba), MergedReads, Show(Lookup(params, "threads"))), ' ')
    {
      var readFile;
      readFile, merge := PrepareReads(Lookup(params, "left"), Lookup(params, "right"), existing);
      var threads := Show(Lookup(params, "threads"));
      FixedPieces();
      PairPiece("-r", readFile);
      PairPiece("--num_threads", threads);
      cmd := Render(idba) + " ";
      ghost var words := [Render(idba)];
      AppendWords(cmd, words, "-o . ", ["-o", "."]);
      cmd, words := cmd + "-o . ", words + ["-o", "."];
      AppendWords(cmd, words, ("-r " + readFile + " "), ["-r", readFile]);
      cmd, words := cmd + ("-r " + readFile + " "), words + ["-r", readFile];
      AppendWords(cmd, words, ("--num_threads " + threads + " "), ["--num_threads", threads]);
      cmd, words := cmd + ("--num_threads " + threads + " "), words + ["--num_threads", threads];
      AppendWords(cmd, words, "--mink 21 ", ["--mink", "21"]);
      cmd, words := cmd + "--mink 21 ", words + ["--mink", "21"];
      AppendWords(cmd, words, "--maxk 77 ", ["--maxk", "77"]);
      cmd, words := cmd + "--maxk 77 ", words + ["--maxk", "77"];
      AppendWords(cmd, words, "--step 4 ", ["--step", "4"]);
      cmd, words := cmd + "--step 4 ", words + ["--step", "4"];
      AppendWords(cmd, words, "--min_count 1 ", ["--min_count", "1"]);
      cmd, words := cmd + "--min_count 1 ", words + ["--min_count", "1"];
      AppendWords(cmd, words, "--no_correct ", ["--no_correct"]);
      cmd, words := cmd + "--no_correct ", words + ["--no_correct"];
      AppendWords(cmd, words, "--max_isoforms 6 ", ["--max_isoforms", "6"]);
      cmd, words := cmd + "--max_isoforms 6 ", words + ["--max_isoforms", "6"];
      JoinAppend(words, ["--similar", "0.98"], ' ');
      cmd := cmd + "--similar 0.98";
    }

    /**
     * run_idba: the command is run and the absolute path of contig.fa in the
     * working directory is returned whether or not it succeeded.
     */
    method RunIdba(options: Options, cwd: string, existing: set<string>)
      returns (merge: Option<string>, cmd: string, contigs: string)
      ensures merge.None? <==> MergedReads in existing
      ensures cmd == JoinWith(IdbaArgv(Render(idba), MergedReads, Show(Lookup(options, "threads"))), ' ')
      ensures contigs == Paths.Join(cwd, "contig.fa")
    {
      merge, cmd := BuildCmd(options, existing);
      contigs := Paths.Join(cwd, "contig.fa");
    }

    /**
     * run: nil when the contig file is empty, the contig file otherwise;
     * File.size raises when the file is missing.
     */
    method Run(params: Options, cwd: string, existing: set<string>, sizes: map<string, nat>)
      returns (merge: Option<string>, cmd: string, result: Result<Option<string>, string>)
      ensures cmd == JoinWith(IdbaArgv(Render(idba), MergedReads, Show(Lookup(params, "threads"))), ' ')
      ensures var contigs := Paths.Join(cwd, "contig.fa");
        && (result.Err? <==> contigs !in sizes)
        && (result == Ok(None) <==> contigs in sizes && sizes[contigs] == 0)
        && (result.Ok? && result.value.Some? ==> result.value.value == contigs && sizes[contigs] > 0)
    {
      var contigs;
      merge, cmd, contigs := RunIdba(params, cwd, existing);
      if contigs !in sizes {
        result := Err("No such file or directory @ rb_file_s_size - " + contigs);
      } else if sizes[contigs] == 0 {
        result := Ok(None);
      } else {
        result := Ok(Some(contigs));
      }
    }
  }

  /** The words of the command in order; the tuning flags take the last thirteen places. */
  lemma ArgvLayout(idba: string, readFile: string, threads: string)
    ensures IdbaArgv(idba, readFile, threads) ==
      [idba, "-o", ".", "-r", readFile, "--num_threads", threads] + TuningFlags()
  {
  }

  /** The command line splits back into its words when the binary path and thread count are single words. */
  lemma CommandWords(idba: string, threads: string)
    requires |idba| >= 1 && ' ' !in idba
    requires |threads| >= 1 && ' ' !in threads
    ensures SplitOn(JoinWith(IdbaArgv(idba, MergedReads, threads), ' '), ' ') == IdbaArgv(idba, MergedReads, threads)
  {
    var argv := IdbaArgv(idba, MergedReads, threads);
    ArgvLayout(idba, MergedReads, threads);
    forall i | 0 <= i < |argv| ensures ' ' !in argv[i] {
    }
    SplitJoinRoundTrip(argv, ' ');
  }
}
