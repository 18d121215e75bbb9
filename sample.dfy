/**
 * Sample#subsample (lib/assemblotron/sample.rb): single-pass reservoir
 * sampling of read pairs from two FASTQ files read in lockstep.
 *
 * The two files are given by their text; the seeded generator is given as the
 * sequence of draws it would produce, one per read pair: whether rng.rand fell
 * below n/count, and the slot index rng.rand(n) selects.
 */
module Sample {
  import opened Wrappers
  import opened Seqs
  import opened Paths

  type Line = string

  /** One each_slice(4) slice of a FASTQ file: four lines, fewer at a truncated end. */
  type Record = seq<Line>

  /** One element of l.zip(r): a left record and the right record at the same position, nil when the right file ran out. */
  datatype ReadPair = ReadPair(left: Record, right: Option<Record>)

  /** The generator's draws for one read pair once the reservoir is full. */
  datatype Draw = Draw(accept: bool, slot: nat)

  // ---------------------------------------------------------------------------
  // Reading: File#each_line, each_slice(4), zip

  /** A line as IO#each_line yields it: non-empty, with a newline at most at its end. */
  ghost predicate IsLine(l: string)
  {
    |l| >= 1 && '\n' !in l[..|l| - 1]
  }

  /** IO#each_line: the text cut after every newline; a last line without newline is kept. */
  function EachLine(text: string): (lines: seq<Line>)
    ensures Flatten(lines) == text
    ensures forall i :: 0 <= i < |lines| ==> IsLine(lines[i])
  {
    if text == [] then []
    else
      var rest := EachLine(text[1..]);
      if text[0] == '\n' || rest == [] then
        assert [text[0]] + Flatten(rest) == text;
        [[text[0]]] + rest
      else
        var first := [text[0]] + rest[0];
        assert Flatten(rest) == rest[0] + Flatten(rest[1..]);
        assert first[..|first| - 1] == [text[0]] + rest[0][..|rest[0]| - 1];
        assert ([first] + rest[1..])[1..] == rest[1..];
        [first] + rest[1..]
  }

  /** The records of a FASTQ file. */
  function Records(text: string): seq<Record>
  {
    EachSlice(EachLine(text), 4)
  }

  /** Array#zip: each left record with the right record at the same ordinal, or nil. */
  function Zip(ls: seq<Record>, rs: seq<Record>): (ps: seq<ReadPair>)
    ensures |ps| == |ls|
    ensures forall i :: 0 <= i < |ps| ==>
      ps[i] == ReadPair(ls[i], if i < |rs| then Some(rs[i]) else None)
  {
    if ls == [] then []
    else if rs == [] then [ReadPair(ls[0], None)] + Zip(ls[1..], [])
    else [ReadPair(ls[0], Some(rs[0]))] + Zip(ls[1..], rs[1..])
  }

  /** The read pairs of two FASTQ files, in file order. */
  function Pairs(leftText: string, rightText: string): seq<ReadPair>
  {
    Zip(Records(leftText), Records(rightText))
  }

  // ---------------------------------------------------------------------------
  // The reservoir

  /** What the generator guarantees: rng.rand(n) is below n, and rng.rand < n/count is never true for n <= 0. */
  predicate ValidDraws(draws: seq<Draw>, n: int)
  {
    forall i :: 0 <= i < |draws| && draws[i].accept ==> draws[i].slot < n
  }

  /**
   * The input positions held in the reservoir after the first `k` pairs:
   * pair `count` (1-based) is appended while count <= n, and afterwards
   * overwrites slot draws[count - 1].slot when its draw accepts.
   */
  function SampleIndices(n: int, draws: seq<Draw>, k: nat): (idx: seq<nat>)
    requires k <= |draws| && ValidDraws(draws, n)
    ensures |idx| == if k <= n then k else if n < 0 then 0 else n
    decreases k
  {
    if k == 0 then []
    else
      var prev := SampleIndices(n, draws, k - 1);
      if k <= n then prev + [k - 1]
      else if draws[k - 1].accept then prev[draws[k - 1].slot := k - 1]
      else prev
  }

  /** The pairs found at the given positions. */
  function At(pairs: seq<ReadPair>, idx: seq<nat>): (r: seq<ReadPair>)
    requires forall j :: 0 <= j < |idx| ==> idx[j] < |pairs|
    ensures |r| == |idx|
    ensures forall j :: 0 <= j < |idx| ==> r[j] == pairs[idx[j]]
  {
    seq(|idx|, j requires 0 <= j < |idx| => pairs[idx[j]])
  }

  /** Every position held is one already read, and no position is held twice. */
  lemma {:induction false} SampleIndicesDistinct(n: int, draws: seq<Draw>, k: nat)
    requires k <= |draws| && ValidDraws(draws, n)
    ensures forall j :: 0 <= j < |SampleIndices(n, draws, k)| ==> SampleIndices(n, draws, k)[j] < k
    ensures forall i, j :: 0 <= i < j < |SampleIndices(n, draws, k)| ==>
      SampleIndices(n, draws, k)[i] != SampleIndices(n, draws, k)[j]
    decreases k
  {
    if k > 0 {
      SampleIndicesDistinct(n, draws, k - 1);
    }
  }

  /** The reservoir after all pairs have been read: it holds min(n, m) pairs, none when n <= 0. */
  function Reservoir(pairs: seq<ReadPair>, n: int, draws: seq<Draw>): (r: seq<ReadPair>)
    requires |pairs| <= |draws| && ValidDraws(draws, n)
    ensures |r| == if n <= 0 then 0 else Min(n, |pairs|)
  {
    SampleIndicesDistinct(n, draws, |pairs|);
    At(pairs, SampleIndices(n, draws, |pairs|))
  }

  /** While count <= n, the reservoir is exactly the pairs read so far, in input order. */
  lemma {:induction false} FillPhase(n: int, draws: seq<Draw>, k: nat)
    requires k <= |draws| && ValidDraws(draws, n) && k <= n
    ensures SampleIndices(n, draws, k) == seq(k, i => i)
    decreases k
  {
    if k > 0 {
      FillPhase(n, draws, k - 1);
    }
  }

  /** The first min(n, m) pairs enter the reservoir in input order, each at its own ordinal slot. */
  lemma FirstPairsFill(pairs: seq<ReadPair>, n: int, draws: seq<Draw>)
    requires |pairs| <= |draws| && ValidDraws(draws, n) && |pairs| <= n
    ensures Reservoir(pairs, n, draws) == pairs
  {
    FillPhase(n, draws, |pairs|);
  }

  /**
   * Once count > n the reservoir keeps its length; the pair replaces exactly
   * one slot, below n, when its draw accepts, and nothing changes otherwise.
   */
  lemma ReplacePhase(n: int, draws: seq<Draw>, k: nat)
    requires 0 < k <= |draws| && ValidDraws(draws, n) && k > n
    ensures |SampleIndices(n, draws, k)| == |SampleIndices(n, draws, k - 1)|
    ensures !draws[k - 1].accept ==> SampleIndices(n, draws, k) == SampleIndices(n, draws, k - 1)
    ensures draws[k - 1].accept ==>
      && 0 <= draws[k - 1].slot < n
      && SampleIndices(n, draws, k)[draws[k - 1].slot] == k - 1
      && forall j :: 0 <= j < |SampleIndices(n, draws, k)| && j != draws[k - 1].slot ==>
           SampleIndices(n, draws, k)[j] == SampleIndices(n, draws, k - 1)[j]
  {
  }

  /**
   * Mates stay together: every reservoir entry is the left record and the
   * right record of one and the same input position.
   */
  lemma MatesAligned(leftText: string, rightText: string, n: int, draws: seq<Draw>)
    requires |Pairs(leftText, rightText)| <= |draws| && ValidDraws(draws, n)
    ensures forall j :: 0 <= j < |Reservoir(Pairs(leftText, rightText), n, draws)| ==>
      exists i :: 0 <= i < |Records(leftText)| &&
        Reservoir(Pairs(leftText, rightText), n, draws)[j] ==
          ReadPair(Records(leftText)[i],
                   if i < |Records(rightText)| then Some(Records(rightText)[i]) else None)
  {
    var pairs := Pairs(leftText, rightText);
    var idx := SampleIndices(n, draws, |pairs|);
    SampleIndicesDistinct(n, draws, |pairs|);
    forall j | 0 <= j < |Reservoir(pairs, n, draws)|
      ensures (exists i :: 0 <= i < |Records(leftText)| &&
                Reservoir(pairs, n, draws)[j] ==
                  ReadPair(Records(leftText)[i],
                           if i < |Records(rightText)| then Some(Records(rightText)[i]) else None))
    {
      assert Reservoir(pairs, n, draws)[j] == pairs[idx[j]];
    }
  }

  /** The reservoir loop of Sample#subsample, filling and overwriting the reservoir in place. */
  method FillReservoir(pairs: seq<ReadPair>, n: int, draws: seq<Draw>) returns (reservoir: seq<ReadPair>)
    requires |pairs| <= |draws| && ValidDraws(draws, n)
    ensures reservoir == Reservoir(pairs, n, draws)
  {
    reservoir := [];
    var count := 1;
    SampleIndicesDistinct(n, draws, 0);
    for i := 0 to |pairs|
      invariant count == i + 1
      invariant forall j :: 0 <= j < |SampleIndices(n, draws, i)| ==> SampleIndices(n, draws, i)[j] < |pairs|
      invariant reservoir == At(pairs, SampleIndices(n, draws, i))
    {
      SampleIndicesDistinct(n, draws, i + 1);
      if count <= n {
        reservoir := reservoir + [pairs[i]];
      } else if draws[i].accept {
        reservoir := reservoir[draws[i].slot := pairs[i]];
      }
      count := count + 1;
    }
  }

  // ---------------------------------------------------------------------------
  // Writing: IO#puts of each record

  /** IO#puts of one line: a newline is added unless the line already ends in one. */
  function PutsLine(l: Line): string
  {
    if |l| >= 1 && l[|l| - 1] == '\n' then l else l + "\n"
  }

  /** IO#puts of a record (an array of lines); puts nil writes an empty line. */
  function PutsRecord(rec: Option<Record>): string
  {
    match rec
    case None => "\n"
    case Some(lines) => if lines == [] then "\n" else Flatten(seq(|lines|, i requires 0 <= i < |lines| => PutsLine(lines[i])))
  }

  /** What `lout.puts lrec` writes for every reservoir entry, in reservoir order. */
  function LeftOutput(reservoir: seq<ReadPair>): string
  {
    if reservoir == [] then ""
    else LeftOutput(reservoir[..|reservoir| - 1]) + PutsRecord(Some(reservoir[|reservoir| - 1].left))
  }

  /** What `rout.puts rrec` writes for every reservoir entry, in reservoir order. */
  function RightOutput(reservoir: seq<ReadPair>): string
  {
    if reservoir == [] then ""
    else RightOutput(reservoir[..|reservoir| - 1]) + PutsRecord(reservoir[|reservoir| - 1].right)
  }

  /** The number of lines of a text as `wc -l` counts them: its newline characters. */
  function NewlineCount(s: string): nat
  {
    if s == [] then 0 else NewlineCount(s[..|s| - 1]) + (if s[|s| - 1] == '\n' then 1 else 0)
  }

  lemma {:induction false} NewlineCountAppend(a: string, b: string)
    ensures NewlineCount(a + b) == NewlineCount(a) + NewlineCount(b)
    decreases |b|
  {
    if b != [] {
      NewlineCountAppend(a, b[..|b| - 1]);
      assert (a + b)[..|a + b| - 1] == a + b[..|b| - 1];
    } else {
      assert a + b == a;
    }
  }

  lemma {:induction false} NewlineFree(s: string)
    requires '\n' !in s
    ensures NewlineCount(s) == 0
    decreases |s|
  {
    if s != [] {
      NewlineFree(s[..|s| - 1]);
    }
  }

  /** Writing a line that each_line produced adds exactly one line to the output. */
  lemma PutsLineCount(l: Line)
    requires IsLine(l)
    ensures NewlineCount(PutsLine(l)) == 1
  {
    var body := l[..|l| - 1];
    NewlineFree(body);
    if l[|l| - 1] == '\n' {
      assert l == body + "\n";
      NewlineCountAppend(body, "\n");
    } else {
      assert '\n' !in l;
      NewlineFree(l);
      NewlineCountAppend(l, "\n");
    }
  }

  lemma {:induction false} PutsLinesCount(lines: seq<Line>)
    requires forall i :: 0 <= i < |lines| ==> IsLine(lines[i])
    ensures NewlineCount(Flatten(seq(|lines|, i requires 0 <= i < |lines| => PutsLine(lines[i])))) == |lines|
    decreases |lines|
  {
    if lines != [] {
      var written := seq(|lines|, i requires 0 <= i < |lines| => PutsLine(lines[i]));
      PutsLineCount(lines[0]);
      PutsLinesCount(lines[1..]);
      assert written[1..] == seq(|lines[1..]|, i requires 0 <= i < |lines[1..]| => PutsLine(lines[1..][i]));
      NewlineCountAppend(written[0], Flatten(written[1..]));
    }
  }

  /** A record of four lines read by each_line is written back as four lines. */
  lemma PutsRecordCount(rec: Record)
    requires |rec| == 4 && forall i :: 0 <= i < |rec| ==> IsLine(rec[i])
    ensures NewlineCount(PutsRecord(Some(rec))) == 4
  {
    PutsLinesCount(rec);
  }

  /** A record cut from a file by each_line and each_slice(4). */
  ghost predicate FullRecord(rec: Record)
  {
    |rec| == 4 && forall i :: 0 <= i < |rec| ==> IsLine(rec[i])
  }

  lemma {:induction false} LeftOutputCount(reservoir: seq<ReadPair>)
    requires forall j :: 0 <= j < |reservoir| ==> FullRecord(reservoir[j].left)
    ensures NewlineCount(LeftOutput(reservoir)) == 4 * |reservoir|
    decreases |reservoir|
  {
    if reservoir != [] {
      var last := reservoir[|reservoir| - 1];
      LeftOutputCount(reservoir[..|reservoir| - 1]);
      PutsRecordCount(last.left);
      NewlineCountAppend(LeftOutput(reservoir[..|reservoir| - 1]), PutsRecord(Some(last.left)));
    }
  }

  lemma {:induction false} RightOutputCount(reservoir: seq<ReadPair>)
    requires forall j :: 0 <= j < |reservoir| ==>
      reservoir[j].right.Some? && FullRecord(reservoir[j].right.value)
    ensures NewlineCount(RightOutput(reservoir)) == 4 * |reservoir|
    decreases |reservoir|
  {
    if reservoir != [] {
      var last := reservoir[|reservoir| - 1];
      RightOutputCount(reservoir[..|reservoir| - 1]);
      PutsRecordCount(last.right.value);
      NewlineCountAppend(RightOutput(reservoir[..|reservoir| - 1]), PutsRecord(last.right));
    }
  }

  /** The writing loop: one puts per reservoir entry into each output, in the same order. */
  method WriteReservoir(reservoir: seq<ReadPair>) returns (lout: string, rout: string)
    ensures lout == LeftOutput(reservoir)
    ensures rout == RightOutput(reservoir)
  {
    lout, rout := "", "";
    for i := 0 to |reservoir|
      invariant lout == LeftOutput(reservoir[..i])
      invariant rout == RightOutput(reservoir[..i])
    {
      assert reservoir[..i + 1][..i] == reservoir[..i];
      lout := lout + PutsRecord(Some(reservoir[i].left));
      rout := rout + PutsRecord(reservoir[i].right);
    }
    assert reservoir[..|reservoir|] == reservoir;
  }

  /** The outcome of Sample#subsample: the two output paths and the text written to each. */
  datatype Subset = Subset(leftPath: string, rightPath: string, leftText: string, rightText: string)

  /**
   * Sample#subsample: read both files in lockstep, keep a reservoir of at most
   * n pairs, write it to subset.<basename> beside each input.
   */
  method Subsample(leftPath: string, rightPath: string, leftText: string, rightText: string,
                   n: int, draws: seq<Draw>) returns (out: Subset)
    requires |Pairs(leftText, rightText)| <= |draws| && ValidDraws(draws, n)
    ensures out.leftPath == SubsetPath(leftPath) && out.rightPath == SubsetPath(rightPath)
    ensures out.leftText == LeftOutput(Reservoir(Pairs(leftText, rightText), n, draws))
    ensures out.rightText == RightOutput(Reservoir(Pairs(leftText, rightText), n, draws))
  {
    var pairs := Zip(Records(leftText), Records(rightText));
    var reservoir := FillReservoir(pairs, n, draws);
    var lout, rout := WriteReservoir(reservoir);
    out := Subset(SubsetPath(leftPath), SubsetPath(rightPath), lout, rout);
  }

  /**
   * When both files hold m complete four-line records and n > 0, each output
   * holds 4 * min(n, m) lines: min(n, m) records.
   */
  lemma SubsetLineCounts(leftText: string, rightText: string, n: int, draws: seq<Draw>)
    requires |Pairs(leftText, rightText)| <= |draws| && ValidDraws(draws, n)
    requires |Records(leftText)| == |Records(rightText)|
    requires forall i :: 0 <= i < |Records(leftText)| ==> |Records(leftText)[i]| == 4
    requires forall i :: 0 <= i < |Records(rightText)| ==> |Records(rightText)[i]| == 4
    ensures NewlineCount(LeftOutput(Reservoir(Pairs(leftText, rightText), n, draws)))
         == 4 * (if n <= 0 then 0 else Min(n, |Records(leftText)|))
    ensures NewlineCount(RightOutput(Reservoir(Pairs(leftText, rightText), n, draws)))
         == 4 * (if n <= 0 then 0 else Min(n, |Records(rightText)|))
  {
    var pairs := Pairs(leftText, rightText);
    var res := Reservoir(pairs, n, draws);
    var idx := SampleIndices(n, draws, |pairs|);
    SampleIndicesDistinct(n, draws, |pairs|);
    LinesOfRecords(leftText);
    LinesOfRecords(rightText);
    forall j | 0 <= j < |res|
      ensures FullRecord(res[j].left)
      ensures res[j].right.Some? && FullRecord(res[j].right.value)
    {
      assert res[j] == pairs[idx[j]];
    }
    LeftOutputCount(res);
    RightOutputCount(res);
  }

  /** Every line of every record is a line as each_line yields it. */
  lemma LinesOfRecords(text: string)
    ensures forall i, k :: 0 <= i < |Records(text)| && 0 <= k < |Records(text)[i]| ==>
      IsLine(Records(text)[i][k])
  {
    var lines := EachLine(text);
    forall i, k | 0 <= i < |Records(text)| && 0 <= k < |Records(text)[i]|
      ensures IsLine(Records(text)[i][k])
    {
      SliceElement(lines, 4, i, k);
    }
  }

  /** An element of a slice is an element of the sliced sequence. */
  lemma {:induction false} SliceElement<T>(xs: seq<T>, k: nat, i: nat, j: nat)
    requires k > 0 && i < |EachSlice(xs, k)| && j < |EachSlice(xs, k)[i]|
    ensures EachSlice(xs, k)[i][j] in xs
    decreases i
  {
    if |xs| > k {
      var rest := EachSlice(xs[k..], k);
      assert EachSlice(xs, k) == [xs[..k]] + rest;
      if i > 0 {
        SliceElement(xs[k..], k, i - 1, j);
      } else {
        assert xs[..k][j] == xs[j];
      }
    } else {
      assert EachSlice(xs, k) == [xs];
    }
  }
}
