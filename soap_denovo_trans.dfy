/**
 * The SOAPdenovo-Trans backend (lib/assemblotron/assemblers/soap_denovo_trans.rb):
 * default parameters merged under the caller's, the command line rendered in
 * a fixed order, and a run counter.
 */
module SoapDenovoTrans {
  import opened Wrappers
  import opened Strings
  import opened Seqs
  import opened RubyValues

  /** The default parameter map of include_defaults. */
  function Defaults(): Options
  {
    map["K" := Int(23), "p" := Int(8), "d" := Int(0), "e" := Int(2), "M" := Int(1),
        "F" := Bool(true), "L" := Int(100), "t" := Int(5), "G" := Int(50)]
  }

  /** include_defaults: `defaults.merge params`, the caller's value winning for every key it supplies. */
  function IncludeDefaults(params: Options): (merged: Options)
    ensures merged.Keys == Defaults().Keys + params.Keys
    ensures forall k :: k in params ==> merged[k] == params[k]
    ensures forall k :: k in Defaults() && k !in params ==> merged[k] == Defaults()[k]
  {
    Defaults() + params
  }

  /** The value a key has after the merge: the caller's when supplied, else the default, else nil. */
  function Merged(params: Options, k: string): Value
  {
    if k in params then params[k] else if k in Defaults() then Defaults()[k] else Nil
  }

  /** Reading the merged hash is reading Merged. */
  lemma MergedAgrees(params: Options, k: string)
    ensures Lookup(IncludeDefaults(params), k) == Merged(params, k)
  {
  }

  /** A setting as construct_command interpolates it. */
  function Setting(params: Options, k: string): string
  {
    Show(Merged(params, k))
  }

  /**
   * The pieces construct_command appends one after another, each written
   * with a leading space: mode, config file, memory, output, threads, then the
   * assembler-specific flags; -F only when the merged :F is truthy.
   */
  function Fragments(params: Options): seq<seq<string>>
  {
    [["all"],
     ["-s", "soapdt.config"],
     ["-a", Setting(params, "memory")],
     ["-o", Setting(params, "out")],
     ["-p", Setting(params, "threads")],
     ["-K", Setting(params, "K")],
     ["-d", Setting(params, "d")]]
    + (if Truthy(Merged(params, "F")) then [["-F"]] else [])
    + [["-M", Setting(params, "M")],
       ["-L", Setting(params, "L")],
       ["-e", Setting(params, "e")],
       ["-t", Setting(params, "t")],
       ["-G", Setting(params, "G")]]
  }

  /** `cmd += " ..."` for every fragment in turn. */
  function Appended(frags: seq<seq<string>>): string
  {
    if frags == [] then "" else " " + JoinWith(frags[0], ' ') + Appended(frags[1..])
  }

  /** construct_command: the tool path followed by every fragment. */
  function ConstructCommand(params: Options): string
  {
    Setting(params, "path") + Appended(Fragments(params))
  }

  /** The command as an argument vector: the words the shell sees. */
  function Argv(params: Options): seq<string>
  {
    [Setting(params, "path")] + Flatten(Fragments(params))
  }

  lemma {:induction false} AppendedIsJoin(prefix: seq<string>, frags: seq<seq<string>>)
    requires |prefix| >= 1
    requires forall i :: 0 <= i < |frags| ==> |frags[i]| >= 1
    ensures JoinWith(prefix, ' ') + Appended(frags) == JoinWith(prefix + Flatten(frags), ' ')
    decreases |frags|
  {
    if frags != [] {
      var next := prefix + frags[0];
      calc {
        JoinWith(prefix, ' ') + Appended(frags);
        JoinWith(prefix, ' ') + (" " + JoinWith(frags[0], ' ') + Appended(frags[1..]));
        (JoinWith(prefix, ' ') + [' '] + JoinWith(frags[0], ' ')) + Appended(frags[1..]);
        { JoinAppend(prefix, frags[0], ' '); }
        JoinWith(next, ' ') + Appended(frags[1..]);
        { AppendedIsJoin(next, frags[1..]); }
        JoinWith(next + Flatten(frags[1..]), ' ');
        { assert next + Flatten(frags[1..]) == prefix + Flatten(frags); }
        JoinWith(prefix + Flatten(frags), ' ');
      }
    } else {
      assert prefix + Flatten(frags) == prefix;
    }
  }

  /** The fixed layout of the fragments: seven always, -F when truthy, five more always. */
  lemma FragmentsLayout(params: Options)
    ensures var fs := Fragments(params);
      var withF := Truthy(Merged(params, "F"));
      && |fs| == (if withF then 13 else 12)
      && fs[..7] == [["all"], ["-s", "soapdt.config"], ["-a", Setting(params, "memory")],
                     ["-o", Setting(params, "out")], ["-p", Setting(params, "threads")],
                     ["-K", Setting(params, "K")], ["-d", Setting(params, "d")]]
      && (withF ==> fs[7] == ["-F"])
      && fs[|fs| - 5..] == [["-M", Setting(params, "M")], ["-L", Setting(params, "L")],
                            ["-e", Setting(params, "e")], ["-t", Setting(params, "t")],
                            ["-G", Setting(params, "G")]]
  {
  }

  /** -F is among the fragments exactly when the merged :F is truthy. */
  lemma FlagFIffTruthy(params: Options)
    ensures ["-F"] in Fragments(params) <==> Truthy(Merged(params, "F"))
  {
    var fs := Fragments(params);
    FragmentsLayout(params);
    if !Truthy(Merged(params, "F")) {
      forall i | 0 <= i < |fs| ensures fs[i] != ["-F"] {
        if i < 7 { assert fs[i] == fs[..7][i]; } else { assert fs[i] == fs[|fs| - 5..][i - 7]; }
      }
    }
  }

  /** Every fragment is one or two words. */
  lemma FragmentsNonEmpty(params: Options)
    ensures forall i :: 0 <= i < |Fragments(params)| ==> 1 <= |Fragments(params)[i]| <= 2
  {
  }

  /** The rendered command is the argument vector joined with single spaces. */
  lemma CommandIsJoinedArgv(params: Options)
    ensures ConstructCommand(params) == JoinWith(Argv(params), ' ')
  {
    FragmentsNonEmpty(params);
    AppendedIsJoin([Setting(params, "path")], Fragments(params));
  }

  /** The keys construct_command reads; any other key has no effect on the command. */
  function RenderedKeys(): set<string>
  {
    {"path", "memory", "out", "threads", "K", "d", "F", "M", "L", "e", "t", "G"}
  }

  /** Every value construct_command interpolates is one word. */
  predicate RendersAsWords(params: Options)
  {
    forall k :: k in RenderedKeys() ==> IsWord(Merged(params, k))
  }

  /**
   * When every interpolated value is one word, splitting the command line on
   * spaces recovers the argument vector exactly.
   */
  lemma CommandSplitsIntoArgv(params: Options)
    requires RendersAsWords(params)
    ensures SplitOn(ConstructCommand(params), ' ') == Argv(params)
  {
    CommandIsJoinedArgv(params);
    forall k | k in RenderedKeys() ensures |Setting(params, k)| >= 1 && ' ' !in Setting(params, k) {
      ShowWord(Merged(params, k));
    }
    var fs := Fragments(params);
    assert forall i :: 0 <= i < |fs| ==> forall w :: w in fs[i] ==> ' ' !in w;
    var argv := Argv(params);
    forall i | 0 <= i < |argv| ensures ' ' !in argv[i] {
      if i > 0 {
        assert argv[i] in Flatten(fs) by { assert argv[i] == Flatten(fs)[i - 1]; }
        FlattenMember(fs, argv[i]);
      }
    }
    SplitJoinRoundTrip(argv, ' ');
  }

  /** Keys outside RenderedKeys (:config, :p, :u, ...) never change the command. */
  lemma UnrenderedKeysIgnored(params: Options, k: string, v: Value)
    requires k !in RenderedKeys()
    ensures ConstructCommand(params[k := v]) == ConstructCommand(params)
  {
    forall j | j in RenderedKeys() ensures Merged(params[k := v], j) == Merged(params, j) {
    }
    assert Fragments(params[k := v]) == Fragments(params);
  }

  /** How each default renders. */
  lemma DefaultsRendered()
    ensures Show(Defaults()["K"]) == "23" && Show(Defaults()["d"]) == "0" && Show(Defaults()["M"]) == "1"
    ensures Show(Defaults()["L"]) == "100" && Show(Defaults()["e"]) == "2" && Show(Defaults()["t"]) == "5"
    ensures Show(Defaults()["G"]) == "50" && Defaults()["F"] == Bool(true)
  {
    assert IntToString(23) == "23" && IntToString(0) == "0" && IntToString(1) == "1";
    assert IntToString(100) == "100" && IntToString(2) == "2" && IntToString(5) == "5" && IntToString(50) == "50";
  }

  /**
   * With none of the defaulted keys supplied, the flags after the thread
   * count read -K 23 -d 0 -F -M 1 -L 100 -e 2 -t 5 -G 50.
   */
  lemma DefaultFlags(params: Options)
    requires forall k :: k in params ==> k !in Defaults()
    ensures Fragments(params)[5..] ==
      [["-K", "23"], ["-d", "0"], ["-F"], ["-M", "1"], ["-L", "100"], ["-e", "2"], ["-t", "5"], ["-G", "50"]]
  {
    DefaultsRendered();
    forall k | k in Defaults() ensures Merged(params, k) == Defaults()[k] {
    }
  }

  /** A SoapDenovoTrans instance: its only state is the number of runs so far. */
  class Assembler {
    var count: nat

    constructor ()
      ensures count == 0
    {
      count := 0;
    }

    /**
     * run: setup_soap (not defined in the repository) is called on the first
     * run only; the command is run with its output sent to <count>.log; the
     * counter rises by one; the result is the first *.scafSeq file, or nil.
     */
    method Run(params: Options, scaffolds: seq<string>)
      returns (setupCalled: bool, shellLine: string, result: Option<string>)
      modifies this
      ensures setupCalled <==> old(count) == 0
      ensures count == old(count) + 1
      ensures shellLine == ConstructCommand(params) + " > " + IntToString(old(count)) + ".log"
      ensures result.None? <==> scaffolds == []
      ensures result.Some? ==> result.value == scaffolds[0]
    {
      setupCalled := count == 0;
      shellLine := ConstructCommand(params) + " > " + IntToString(count) + ".log";
      count := count + 1;
      if scaffolds == [] {
        result := None;
      } else {
        result := Some(scaffolds[0]);
      }
    }
  }
}
