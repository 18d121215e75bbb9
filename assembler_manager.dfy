/**
 * The assembler registry (lib/assemblotron/assemblermanager.rb): discovering
 * assembler manifests and sorting them into available and uninstalled
 * lists, naming and finding assemblers, the help listing, choosing which
 * dependencies to install, and the options an optimisation run receives.
 * Manifest discovery, binary lookup on the PATH and the host are inputs.
 */
module AssemblerManager {
  import opened Wrappers
  import opened Seqs
  import opened Strings
  import opened RubyValues
  import System
  import OrderedHash

  /** A loaded assembler definition: its names, the platforms its binaries exist for, and the binaries it needs. */
  datatype Manifest = Manifest(name: string, shortname: Option<string>,
                               platforms: System.PlatformTable, binaries: seq<string>)

  /** What load_assemblers consults about the host: pointer width, host string, and the binaries found on the PATH. */
  datatype Env = Env(pointerBytes: nat, host: string, onPath: set<string>)

  datatype Placement = Skipped | Available | Uninstalled

  /** Every binary of the manifest resolves on the PATH. */
  predicate Resolves(m: Manifest, env: Env)
  {
    forall b :: b in m.binaries ==> b in env.onPath
  }

  /**
   * Where load_assemblers puts one manifest: skipped when its platform table
   * does not match the host, available when every binary resolves,
   * uninstalled otherwise; the platform check raises for an unknown host.
   */
  function Place(m: Manifest, env: Env): Result<Placement, string>
  {
    match System.Match(m.platforms, env.pointerBytes, env.host)
    case Err(e) => Err(e)
    case Ok(supported) =>
      if !supported then Ok(Skipped)
      else if Resolves(m, env) then Ok(Available)
      else Ok(Uninstalled)
  }

  /** Each placement in terms of the platform check and the PATH lookup. */
  lemma PlaceCases(m: Manifest, env: Env)
    ensures var matched := System.Match(m.platforms, env.pointerBytes, env.host);
      && (Place(m, env).Err? <==> matched.Err?)
      && (Place(m, env) == Ok(Skipped) <==> matched == Ok(false))
      && (Place(m, env) == Ok(Available) <==> matched == Ok(true) && Resolves(m, env))
      && (Place(m, env) == Ok(Uninstalled) <==> matched == Ok(true) && !Resolves(m, env))
  {
  }

  /** The lists load_assemblers appends, and the error that stopped it, if any. */
  datatype Loaded = Loaded(available: seq<Manifest>, uninstalled: seq<Manifest>, error: Option<string>)

  /**
   * The manifests processed in discovery order; the first error stops the
   * scan and keeps what was appended before it.
   */
  function Load(ms: seq<Manifest>, env: Env): Loaded
    decreases |ms|
  {
    if ms == [] then Loaded([], [], None)
    else
      var r := Load(ms[..|ms| - 1], env);
      if r.error.Some? then r else Admit(r, ms[|ms| - 1], env)
  }

  /**
   * Every manifest in the available list was placed Available, every one in
   * the uninstalled list Uninstalled, and no more are listed than were found.
   */
  lemma {:induction false} LoadPlaced(ms: seq<Manifest>, env: Env)
    ensures var r := Load(ms, env);
      && (forall m :: m in r.available ==> m in ms && Place(m, env) == Ok(Available))
      && (forall m :: m in r.uninstalled ==> m in ms && Place(m, env) == Ok(Uninstalled))
      && |r.available| + |r.uninstalled| <= |ms|
    decreases |ms|
  {
    if ms != [] {
      var front := ms[..|ms| - 1];
      LoadPlaced(front, env);
      assert forall x :: x in front ==> x in ms;
    }
  }

  /**
   * One manifest of a scan without error so far: appended to the list its
   * placement names, skipped, or the scan stops with its error.
   */
  function Admit(r: Loaded, m: Manifest, env: Env): Loaded
  {
    match Place(m, env)
    case Err(e) => r.(error := Some(e))
    case Ok(Skipped) => r
    case Ok(Available) => r.(available := r.available + [m])
    case Ok(Uninstalled) => r.(uninstalled := r.uninstalled + [m])
  }

  /** One more manifest, after a scan without error so far. */
  lemma LoadStep(ms: seq<Manifest>, i: nat, env: Env)
    requires i < |ms|
    ensures Load(ms[..i], env).error.None? ==> Load(ms[..i + 1], env) == Admit(Load(ms[..i], env), ms[i], env)
  {
    assert ms[..i + 1][..i] == ms[..i];
  }

  /** The two lists never share an assembler. */
  lemma LoadDisjoint(ms: seq<Manifest>, env: Env)
    ensures forall m :: m in Load(ms, env).available ==> m !in Load(ms, env).uninstalled
  {
    LoadPlaced(ms, env);
  }

  /** Once an error has stopped the scan, later manifests change nothing. */
  lemma {:induction false} LoadErrorSticks(ms: seq<Manifest>, i: nat, env: Env)
    requires i <= |ms|
    requires Load(ms[..i], env).error.Some?
    ensures Load(ms, env) == Load(ms[..i], env)
    decreases |ms| - i
  {
    if i < |ms| {
      var next := ms[..i + 1];
      assert next[..i] == ms[..i];
      assert Load(next, env) == Load(ms[..i], env);
      LoadErrorSticks(ms, i + 1, env);
    } else {
      assert ms[..i] == ms;
    }
  }

  /** The scan fails exactly when some manifest's platform check raises. */
  lemma {:induction false} LoadFailsIff(ms: seq<Manifest>, env: Env)
    ensures Load(ms, env).error.Some? <==> exists i :: 0 <= i < |ms| && Place(ms[i], env).Err?
    decreases |ms|
  {
    if ms != [] {
      var front := ms[..|ms| - 1];
      LoadFailsIff(front, env);
      if exists i :: 0 <= i < |front| && Place(front[i], env).Err? {
        var i :| 0 <= i < |front| && Place(front[i], env).Err?;
        assert ms[i] == front[i];
      }
      if exists i :: 0 <= i < |ms| && Place(ms[i], env).Err? {
        var i :| 0 <= i < |ms| && Place(ms[i], env).Err?;
        if i < |front| {
          assert front[i] == ms[i];
        }
      }
    }
  }

  /** On a recognised host the scan never fails. */
  lemma KnownHostLoads(ms: seq<Manifest>, env: Env)
    requires System.HostOs(env.host).Ok?
    ensures Load(ms, env).error.None?
  {
    LoadFailsIff(ms, env);
    forall i | 0 <= i < |ms| ensures Place(ms[i], env).Ok? {
      PlaceCases(ms[i], env);
    }
  }

  function IsAvailable(env: Env): Manifest -> bool
  {
    m => Place(m, env) == Ok(Available)
  }

  function IsUninstalled(env: Env): Manifest -> bool
  {
    m => Place(m, env) == Ok(Uninstalled)
  }

  /**
   * Without an error, the available list is exactly the manifests that
   * match and resolve, and the uninstalled list exactly those that match
   * but miss a binary, each in discovery order.
   */
  lemma {:induction false} LoadPartition(ms: seq<Manifest>, env: Env)
    requires Load(ms, env).error.None?
    ensures Load(ms, env).available == Filter(ms, IsAvailable(env))
    ensures Load(ms, env).uninstalled == Filter(ms, IsUninstalled(env))
    decreases |ms|
  {
    if ms != [] {
      var front, m := ms[..|ms| - 1], ms[|ms| - 1];
      assert front + [m] == ms;
      LoadPartition(front, env);
      FilterAppend(front, [m], IsAvailable(env));
      FilterAppend(front, [m], IsUninstalled(env));
    }
  }

  // ---------------------------------------------------------------------------
  // Names and lookup

  /** The assembler answers to `x`: its name or its shortname is `x`. */
  predicate Answers(a: Manifest, x: string)
  {
    a.name == x || a.shortname == Some(x)
  }

  /** The names one assembler contributes: its name, then its shortname when it has one. */
  function NamesFor(a: Manifest): seq<string>
  {
    [a.name] + (if a.shortname.Some? then [a.shortname.value] else [])
  }

  /** assembler_names as a specification: the names of each assembler in order. */
  function NamesOf(ts: seq<Manifest>): seq<string>
  {
    if ts == [] then [] else NamesOf(ts[..|ts| - 1]) + NamesFor(ts[|ts| - 1])
  }

  /** A string is among the names exactly when some assembler answers to it. */
  lemma {:induction false} NamesOfMember(ts: seq<Manifest>, x: string)
    ensures x in NamesOf(ts) <==> exists i :: 0 <= i < |ts| && Answers(ts[i], x)
    decreases |ts|
  {
    if ts != [] {
      var front := ts[..|ts| - 1];
      NamesOfMember(front, x);
      if exists i :: 0 <= i < |front| && Answers(front[i], x) {
        var i :| 0 <= i < |front| && Answers(front[i], x);
        assert ts[i] == front[i];
      }
      if exists i :: 0 <= i < |ts| && Answers(ts[i], x) {
        var i :| 0 <= i < |ts| && Answers(ts[i], x);
        if i < |front| {
          assert front[i] == ts[i];
        } else {
          assert x in NamesFor(ts[i]);
        }
      }
    }
  }

  /** `available[i]` is the first assembler that answers to `x`. */
  predicate FirstAnswering(available: seq<Manifest>, x: string, i: int)
  {
    0 <= i < |available| && Answers(available[i], x) && forall j :: 0 <= j < i ==> !Answers(available[j], x)
  }

  /**
   * get_assembler: the first available assembler answering to `x`; a
   * RuntimeError naming `x` when none does.
   */
  function GetAssembler(available: seq<Manifest>, x: string): (r: Result<Manifest, string>)
    ensures r.Ok? ==> exists i :: FirstAnswering(available, x, i) && available[i] == r.value
    ensures r.Err? <==> forall i :: 0 <= i < |available| ==> !Answers(available[i], x)
    ensures r.Err? ==> r.error == "couldn't find assembler " + x
  {
    if available == [] then Err("couldn't find assembler " + x)
    else if Answers(available[0], x) then
      assert FirstAnswering(available, x, 0);
      Ok(available[0])
    else
      var r := GetAssembler(available[1..], x);
      assert r.Ok? ==> exists i :: FirstAnswering(available, x, i) && available[i] == r.value by {
        if r.Ok? {
          var i :| FirstAnswering(available[1..], x, i) && available[1..][i] == r.value;
          forall j | 0 <= j < i + 1 ensures !Answers(available[j], x) {
            if j > 0 {
              assert available[j] == available[1..][j - 1];
            }
          }
          assert FirstAnswering(available, x, i + 1);
        }
      }
      assert r.Err? <==> forall i :: 0 <= i < |available| ==> !Answers(available[i], x) by {
        if r.Err? {
          forall i | 0 <= i < |available| ensures !Answers(available[i], x) {
            if i > 0 {
              assert available[i] == available[1..][i - 1];
            }
          }
        }
      }
      r
  }

  /** get_assembler succeeds exactly for the strings assembler_names lists. */
  lemma GetAssemblerIffNamed(available: seq<Manifest>, x: string)
    ensures GetAssembler(available, x).Ok? <==> x in NamesOf(available)
  {
    NamesOfMember(available, x);
  }

  /** The error raised for an unknown assembler mentions the requested identifier. */
  lemma GetAssemblerErrorNamesIt(available: seq<Manifest>, x: string)
    requires GetAssembler(available, x).Err?
    ensures Contains(GetAssembler(available, x).error, x)
  {
    ContainsInfix("couldn't find assembler ", x, "");
    assert "couldn't find assembler " + x + "" == "couldn't find assembler " + x;
  }

  /** An assembler found after loading is one whose platform matches and whose binaries resolve, never an uninstalled one. */
  lemma FoundIsAvailable(ms: seq<Manifest>, env: Env, x: string)
    requires GetAssembler(Load(ms, env).available, x).Ok?
    ensures Place(GetAssembler(Load(ms, env).available, x).value, env) == Ok(Available)
    ensures GetAssembler(Load(ms, env).available, x).value !in Load(ms, env).uninstalled
  {
    LoadPlaced(ms, env);
    LoadDisjoint(ms, env);
  }

  // ---------------------------------------------------------------------------
  // The help listing

  const NoneInstalledMessage := "No assemblers are currently installed!"
  const NoneInstalled := "\n" + NoneInstalledMessage + " Please install some.\n"
  const InstalledHeader :=
    "\nInstalled assemblers are listed below.\nShortnames are shown in brackets if available.\n\nAssemblers installed:\n"
  const AllInstalledMessage := "All available assemblers are already installed!"
  const AllInstalled := "\n" + AllInstalledMessage + "\n"
  const InstallableHeader :=
    "\nAssemblers that are available to be installed are listed below.\nTo install one, use:\n\n"
    + "atron --install-assemblers <name OR shortname>\n\nAssemblers installable:\n"

  /**
   * One line of the listing as the code writes it: the bracket is added
   * whenever the object responds to `shortname`, which every assembler
   * does, so a missing shortname renders as " ()".
   */
  function EntryLineAsWritten(a: Manifest): string
  {
    "  - " + a.name + " (" + (if a.shortname.Some? then a.shortname.value else "") + ")" + "\n"
  }

  /** One line of the listing as the header promises: the shortname in brackets only when there is one. */
  function EntryLine(a: Manifest): string
  {
    "  - " + a.name + (if a.shortname.Some? then " (" + a.shortname.value + ")" else "") + "\n"
  }

  /** The listing's lines for a list of assemblers, in order, each written by `line`. */
  function Entries(ts: seq<Manifest>, line: Manifest -> string): string
  {
    FlatMap(ts, line)
  }

  /** The installed section: its message when nothing is available, else its header and one line per assembler. */
  function InstalledSection(available: seq<Manifest>, line: Manifest -> string): string
  {
    if available == [] then NoneInstalled else InstalledHeader + Entries(available, line)
  }

  /** The listing's layout: the installed section, the installable section, a final newline. */
  function Listing(available: seq<Manifest>, uninstalled: seq<Manifest>, line: Manifest -> string): string
  {
    var head := InstalledSection(available, line);
    (if uninstalled == [] then head + AllInstalled else head + InstallableHeader + Entries(uninstalled, line)) + "\n"
  }

  /** list_assemblers as a specification: the layout with the lines the code writes. */
  function PrintedListing(available: seq<Manifest>, uninstalled: seq<Manifest>): string
  {
    Listing(available, uninstalled, EntryLineAsWritten)
  }

  /** The listing the header describes: the layout with brackets only for a shortname. */
  function IntendedListing(available: seq<Manifest>, uninstalled: seq<Manifest>): string
  {
    Listing(available, uninstalled, EntryLine)
  }

  /** One `str << line` per assembler, in list order, after `text`. */
  method AppendEntries(text: string, ts: seq<Manifest>) returns (s: string)
    ensures s == text + Entries(ts, EntryLineAsWritten)
  {
    s := text;
    for i := 0 to |ts|
      invariant s == text + Entries(ts[..i], EntryLineAsWritten)
    {
      FlatMapSnoc(ts, EntryLineAsWritten, i);
      s := s + EntryLineAsWritten(ts[i]);
    }
    assert ts[..|ts|] == ts;
  }

  /** For an assembler without a shortname, the code prints empty brackets the header does not promise. */
  lemma EmptyBracketsAsWritten(name: string, platforms: System.PlatformTable, binaries: seq<string>)
    ensures var a := Manifest(name, None, platforms, binaries);
      EntryLineAsWritten(a) == "  - " + name + " ()\n" && EntryLineAsWritten(a) != EntryLine(a)
  {
    var a := Manifest(name, None, platforms, binaries);
    assert |EntryLineAsWritten(a)| == |EntryLine(a)| + 3;
  }

  /** In the intended listing, a line shows brackets exactly when the assembler has a shortname. */
  lemma BracketsIffShortname(a: Manifest)
    requires '(' !in a.name
    ensures '(' in EntryLine(a) <==> a.shortname.Some?
  {
    var line := EntryLine(a);
    if a.shortname.Some? {
      assert line[4 + |a.name| + 1] == '(';
    } else {
      assert line == "  - " + a.name + "\n";
      forall i | 0 <= i < |line| ensures line[i] != '(' {
        if 4 <= i < 4 + |a.name| {
          assert line[i] == a.name[i - 4];
        }
      }
    }
  }

  /** The line of every listed assembler occurs in its section, in list order. */
  lemma EntriesHasLine(ts: seq<Manifest>, line: Manifest -> string, i: nat)
    requires i < |ts|
    ensures Entries(ts, line) == Entries(ts[..i], line) + line(ts[i]) + Entries(ts[i + 1..], line)
  {
    FlatMapAt(ts, line, i);
  }

  /** The listing always ends in a newline. */
  lemma ListingEndsInNewline(available: seq<Manifest>, uninstalled: seq<Manifest>, line: Manifest -> string)
    ensures var s := Listing(available, uninstalled, line); |s| >= 1 && s[|s| - 1] == '\n'
  {
  }

  lemma MessagesContained()
    ensures Contains(NoneInstalled, NoneInstalledMessage)
    ensures Contains(AllInstalled, AllInstalledMessage)
  {
    ContainsInfix("\n", NoneInstalledMessage, " Please install some.\n");
    ContainsInfix("\n", AllInstalledMessage, "\n");
  }

  /** With nothing available, the listing says that no assemblers are installed. */
  lemma ListingNoneInstalled(uninstalled: seq<Manifest>, line: Manifest -> string)
    ensures Contains(Listing([], uninstalled, line), NoneInstalledMessage)
  {
    MessagesContained();
    HeadInListing([], uninstalled, line, NoneInstalledMessage);
  }

  /** With nothing left to install, the listing says that everything available is installed. */
  lemma ListingAllInstalled(available: seq<Manifest>, line: Manifest -> string)
    ensures Contains(Listing(available, [], line), AllInstalledMessage)
  {
    MessagesContained();
    ContainsExtend(InstalledSection(available, line), AllInstalled, "\n", AllInstalledMessage);
  }

  /** A listed assembler's line occurs in its list's lines. */
  lemma EntriesContainLine(ts: seq<Manifest>, line: Manifest -> string, i: nat)
    requires i < |ts|
    ensures Contains(Entries(ts, line), line(ts[i]))
  {
    EntriesHasLine(ts, line, i);
    ContainsInfix(Entries(ts[..i], line), line(ts[i]), Entries(ts[i + 1..], line));
  }

  /** Text the installed section contains is in the listing. */
  lemma HeadInListing(available: seq<Manifest>, uninstalled: seq<Manifest>, line: Manifest -> string, sub: string)
    requires Contains(InstalledSection(available, line), sub)
    ensures Contains(Listing(available, uninstalled, line), sub)
  {
    var head := InstalledSection(available, line);
    if uninstalled == [] {
      ContainsExtend([], head + AllInstalled, "\n", sub) by {
        ContainsAppend(head, AllInstalled, sub);
      }
      assert [] + (head + AllInstalled) + "\n" == Listing(available, uninstalled, line);
    } else {
      var entries := Entries(uninstalled, line);
      ContainsAppend(head, InstallableHeader, sub);
      ContainsAppend(head + InstallableHeader, entries, sub);
      ContainsAppend(head + InstallableHeader + entries, "\n", sub);
    }
  }

  /** Every available assembler has its line in the listing. */
  lemma ListingHasAvailableLine(available: seq<Manifest>, uninstalled: seq<Manifest>, line: Manifest -> string, i: nat)
    requires i < |available|
    ensures Contains(Listing(available, uninstalled, line), line(available[i]))
  {
    EntriesContainLine(available, line, i);
    ContainsPrepend(InstalledHeader, Entries(available, line), line(available[i]));
    HeadInListing(available, uninstalled, line, line(available[i]));
  }

  /** Every uninstalled assembler has its line in the listing. */
  lemma ListingHasUninstalledLine(available: seq<Manifest>, uninstalled: seq<Manifest>, line: Manifest -> string, i: nat)
    requires i < |uninstalled|
    ensures Contains(Listing(available, uninstalled, line), line(uninstalled[i]))
  {
    var text := InstalledSection(available, line) + InstallableHeader;
    var entries := Entries(uninstalled, line);
    EntriesContainLine(uninstalled, line, i);
    ContainsPrepend(text, entries, line(uninstalled[i]));
    ContainsAppend(text + entries, "\n", line(uninstalled[i]));
  }

  /** An assembler's line mentions its name, as the code writes it and as the header describes it. */
  lemma EntryLineHasName(a: Manifest)
    ensures Contains(EntryLineAsWritten(a), a.name)
    ensures Contains(EntryLine(a), a.name)
  {
    var written := " (" + (if a.shortname.Some? then a.shortname.value else "") + ")" + "\n";
    assert EntryLineAsWritten(a) == "  - " + a.name + written;
    ContainsInfix("  - ", a.name, written);
    var rest := (if a.shortname.Some? then " (" + a.shortname.value + ")" else "") + "\n";
    assert EntryLine(a) == "  - " + a.name + rest;
    ContainsInfix("  - ", a.name, rest);
  }

  /** Each available assembler's name appears in the printed listing, as the listing test checks, and in the intended one. */
  lemma ListingMentionsName(available: seq<Manifest>, uninstalled: seq<Manifest>, i: nat)
    requires i < |available|
    ensures Contains(PrintedListing(available, uninstalled), available[i].name)
    ensures Contains(IntendedListing(available, uninstalled), available[i].name)
  {
    var a := available[i];
    EntryLineHasName(a);
    ListingHasAvailableLine(available, uninstalled, EntryLineAsWritten, i);
    ContainsTransitive(PrintedListing(available, uninstalled), EntryLineAsWritten(a), a.name);
    ListingHasAvailableLine(available, uninstalled, EntryLine, i);
    ContainsTransitive(IntendedListing(available, uninstalled), EntryLine(a), a.name);
  }

  /** The printed listing shows an available assembler without a shortname with empty brackets. */
  lemma ListingShowsEmptyBrackets(available: seq<Manifest>, uninstalled: seq<Manifest>, i: nat)
    requires i < |available| && available[i].shortname.None?
    ensures Contains(PrintedListing(available, uninstalled), "  - " + available[i].name + " ()\n")
  {
    var a := available[i];
    EmptyBracketsAsWritten(a.name, a.platforms, a.binaries);
    ListingHasAvailableLine(available, uninstalled, EntryLineAsWritten, i);
  }

  // ---------------------------------------------------------------------------
  // Choosing what to install

  /** The `bindeps` section of a manifest file; `unpack` and `libraries` may be absent. */
  datatype BinDeps = BinDeps(binaries: seq<string>, version: string, url: System.PlatformTable,
                             unpack: Option<bool>, libraries: Option<seq<string>>)

  /** A manifest file as install_assemblers reads it. */
  datatype DepSpec = DepSpec(name: string, shortname: Option<string>, bindeps: BinDeps)

  /** The arguments of one Bindeps::Dependency.new call. */
  datatype Dependency = Dependency(name: Option<string>, binaries: seq<string>, version: string,
                                   url: System.PlatformTable, unpack: bool, libraries: seq<string>)

  /**
   * The dependency table: each manifest's bindeps stored under its name and
   * under its shortname (nil when it has none), later files overwriting
   * earlier ones.
   */
  function DepsTable(specs: seq<DepSpec>): OrderedHash.Hash<Option<string>, BinDeps>
    decreases |specs|
  {
    if specs == [] then []
    else
      var s := specs[|specs| - 1];
      OrderedHash.Put(OrderedHash.Put(DepsTable(specs[..|specs| - 1]), Some(s.name), s.bindeps), s.shortname, s.bindeps)
  }

  /** Hash assignment never repeats a key, so the table's keys are distinct, as selecting one key relies on. */
  lemma {:induction false} DepsTableKeysDistinct(specs: seq<DepSpec>)
    ensures Distinct(OrderedHash.Keys(DepsTable(specs)))
  {
    DepsTableUnique(specs);
  }

  lemma {:induction false} DepsTableUnique(specs: seq<DepSpec>)
    ensures OrderedHash.UniqueKeys(DepsTable(specs))
    decreases |specs|
  {
    if specs != [] {
      var s := specs[|specs| - 1];
      var front := DepsTable(specs[..|specs| - 1]);
      DepsTableUnique(specs[..|specs| - 1]);
      OrderedHash.PutUnique(front, Some(s.name), s.bindeps);
      OrderedHash.PutUnique(OrderedHash.Put(front, Some(s.name), s.bindeps), s.shortname, s.bindeps);
    }
  }

  /** Reading one more manifest keeps every key already in the table. */
  lemma DepsTableGrows(specs: seq<DepSpec>, x: Option<string>)
    requires specs != [] && x in OrderedHash.Keys(DepsTable(specs[..|specs| - 1]))
    ensures x in OrderedHash.Keys(DepsTable(specs))
  {
    var s := specs[|specs| - 1];
    var front := DepsTable(specs[..|specs| - 1]);
    OrderedHash.PutKeepsKeys(front, Some(s.name), s.bindeps, x);
    OrderedHash.PutKeepsKeys(OrderedHash.Put(front, Some(s.name), s.bindeps), s.shortname, s.bindeps, x);
  }

  /** The last manifest read has its name and its shortname in the table. */
  lemma DepsTableHasLast(specs: seq<DepSpec>)
    requires specs != []
    ensures Some(specs[|specs| - 1].name) in OrderedHash.Keys(DepsTable(specs))
    ensures specs[|specs| - 1].shortname in OrderedHash.Keys(DepsTable(specs))
  {
    var s := specs[|specs| - 1];
    var front := DepsTable(specs[..|specs| - 1]);
    var middle := OrderedHash.Put(front, Some(s.name), s.bindeps);
    OrderedHash.PutKeepsKeys(front, Some(s.name), s.bindeps, Some(s.name));
    OrderedHash.PutKeepsKeys(middle, s.shortname, s.bindeps, Some(s.name));
    OrderedHash.PutKeepsKeys(middle, s.shortname, s.bindeps, s.shortname);
  }

  /** Every manifest's name and shortname is a key of the table. */
  lemma {:induction false} DepsTableKeys(specs: seq<DepSpec>, i: nat)
    requires i < |specs|
    ensures Some(specs[i].name) in OrderedHash.Keys(DepsTable(specs))
    ensures specs[i].shortname in OrderedHash.Keys(DepsTable(specs))
    decreases |specs|
  {
    var last := |specs| - 1;
    if i < last {
      assert specs[..last][i] == specs[i];
      DepsTableKeys(specs[..last], i);
      DepsTableGrows(specs, Some(specs[i].name));
      DepsTableGrows(specs, specs[i].shortname);
    } else {
      assert i == last;
      DepsTableHasLast(specs);
    }
  }

  /** The keys a request names: every key for "all", otherwise the requested one. */
  function Requested(keys: seq<Option<string>>, which: string): seq<Option<string>>
  {
    if which == "all" then keys else [Some(which)]
  }

  function InRequest(requested: seq<Option<string>>): Option<string> -> bool
  {
    a => a in requested
  }

  /** The keys to install: the table keys among the requested ones, in table order. */
  function Selection(keys: seq<Option<string>>, which: string): seq<Option<string>>
  {
    Filter(keys, InRequest(Requested(keys, which)))
  }

  lemma {:induction false} FilterAll<T>(xs: seq<T>, p: T -> bool)
    requires forall i :: 0 <= i < |xs| ==> p(xs[i])
    ensures Filter(xs, p) == xs
    decreases |xs|
  {
    if xs != [] {
      FilterAll(xs[1..], p);
    }
  }

  /** "all" selects every name and shortname key of the table. */
  lemma SelectAll(keys: seq<Option<string>>)
    ensures Selection(keys, "all") == keys
  {
    FilterAll(keys, InRequest(Requested(keys, "all")));
  }

  /** Any other request selects the key equal to it, if the table has one, and nothing else. */
  lemma {:induction false} SelectOne(keys: seq<Option<string>>, which: string)
    requires which != "all"
    requires Distinct(keys)
    ensures Selection(keys, which) == if Some(which) in keys then [Some(which)] else []
  {
    SelectOneFrom(keys, Some(which));
  }

  /** Asking for one assembler by name or shortname installs at most that one. */
  lemma SelectOneFromTable(specs: seq<DepSpec>, which: string)
    requires which != "all"
    ensures var keys := OrderedHash.Keys(DepsTable(specs));
      Selection(keys, which) == if Some(which) in keys then [Some(which)] else []
  {
    DepsTableKeysDistinct(specs);
    SelectOne(OrderedHash.Keys(DepsTable(specs)), which);
  }

  lemma {:induction false} SelectOneFrom(keys: seq<Option<string>>, key: Option<string>)
    requires Distinct(keys)
    ensures Filter(keys, InRequest([key])) == if key in keys then [key] else []
    decreases |keys|
  {
    if keys != [] {
      SelectOneFrom(keys[1..], key);
      if keys[0] == key {
        assert key !in keys[1..] by {
          forall i | 0 <= i < |keys[1..]| ensures keys[1..][i] != key {
            assert keys[1..][i] == keys[i + 1];
          }
        }
      } else {
        assert key in keys <==> key in keys[1..];
      }
    }
  }

  /** One Dependency.new call: unpack defaults to true and libraries to the empty list. */
  function ToDependency(key: Option<string>, b: BinDeps): (d: Dependency)
    ensures d.unpack == (b.unpack != Some(false))
    ensures d.libraries == (if b.libraries.Some? then b.libraries.value else [])
    ensures d.name == key && d.binaries == b.binaries && d.version == b.version && d.url == b.url
  {
    Dependency(key, b.binaries, b.version, b.url,
               if b.unpack.Some? then b.unpack.value else true,
               if b.libraries.Some? then b.libraries.value else [])
  }

  /** The dependency built for each key in turn, its bindeps looked up in the table. */
  function DependencyList(table: OrderedHash.Hash<Option<string>, BinDeps>, keys: seq<Option<string>>): (deps: seq<Dependency>)
    requires forall i :: 0 <= i < |keys| ==> keys[i] in OrderedHash.Keys(table)
    ensures |deps| == |keys|
  {
    if keys == [] then []
    else
      var key := keys[|keys| - 1];
      assert OrderedHash.Get(table, key).Some?;
      DependencyList(table, keys[..|keys| - 1]) + [ToDependency(key, OrderedHash.Get(table, key).value)]
  }

  /** Taking one more key appends that key's dependency. */
  lemma DependencyListSnoc(table: OrderedHash.Hash<Option<string>, BinDeps>, keys: seq<Option<string>>, i: nat)
    requires forall j :: 0 <= j < |keys| ==> keys[j] in OrderedHash.Keys(table)
    requires i < |keys|
    ensures OrderedHash.Get(table, keys[i]).Some?
    ensures DependencyList(table, keys[..i + 1]) ==
      DependencyList(table, keys[..i]) + [ToDependency(keys[i], OrderedHash.Get(table, keys[i]).value)]
  {
    var prefix := keys[..i + 1];
    assert prefix[..i] == keys[..i];
  }

  /** The i-th dependency is built from the i-th key and the bindeps stored under it. */
  lemma {:induction false} DependencyListAt(table: OrderedHash.Hash<Option<string>, BinDeps>, keys: seq<Option<string>>, i: nat)
    requires forall j :: 0 <= j < |keys| ==> keys[j] in OrderedHash.Keys(table)
    requires i < |keys|
    ensures OrderedHash.Get(table, keys[i]).Some?
    ensures DependencyList(table, keys)[i] == ToDependency(keys[i], OrderedHash.Get(table, keys[i]).value)
    decreases |keys|
  {
    var front, last := keys[..|keys| - 1], keys[|keys| - 1];
    var deps := DependencyList(table, front);
    assert OrderedHash.Get(table, last).Some?;
    assert DependencyList(table, keys) == deps + [ToDependency(last, OrderedHash.Get(table, last).value)];
    if i < |front| {
      assert front[i] == keys[i];
      DependencyListAt(table, front, i);
      assert DependencyList(table, keys)[i] == deps[i];
    } else {
      assert i == |keys| - 1;
      assert |deps| == i;
    }
  }

  /**
   * install_assemblers: the dependencies to install, one per selected key in
   * table order; an empty selection is the "wasn't available" error that
   * exits with status 1.
   */
  method InstallAssemblers(which: string, specs: seq<DepSpec>) returns (r: Result<seq<Dependency>, string>)
    ensures var table := DepsTable(specs);
      var sel := Selection(OrderedHash.Keys(table), which);
      && (r.Err? <==> sel == [])
      && (r.Err? ==> r.error == "Tried to install " + which + ", but it wasn't available")
      && (r.Ok? ==> r.value == DependencyList(table, sel))
  {
    var table := DepsTable(specs);
    var keys := OrderedHash.Keys(table);
    var toInstall := Filter(keys, InRequest(Requested(keys, which)));
    if toInstall == [] {
      return Err("Tried to install " + which + ", but it wasn't available");
    }
    var deps: seq<Dependency> := [];
    for i := 0 to |toInstall|
      invariant deps == DependencyList(table, toInstall[..i])
    {
      DependencyListSnoc(table, toInstall, i);
      var key := toInstall[i];
      var bindeps := OrderedHash.Get(table, key);
      deps := deps + [ToDependency(key, bindeps.value)];
    }
    assert toInstall[..|toInstall|] == toInstall;
    r := Ok(deps);
  }

  // ---------------------------------------------------------------------------
  // Options for an optimisation run

  /**
   * The options run_assembler hands to the experiment: a copy of the
   * manager's options whose :left and :right are the subsampled reads.
   */
  function SubsetOptions(options: Options): (opts: Options)
    ensures opts.Keys == options.Keys + {"left", "right"}
    ensures opts["left"] == Lookup(options, "left_subset")
    ensures opts["right"] == Lookup(options, "right_subset")
    ensures forall k :: k in options && k != "left" && k != "right" ==> opts[k] == options[k]
  {
    options["left" := Lookup(options, "left_subset")]["right" := Lookup(options, "right_subset")]
  }

  /** What Biopsy::Experiment.new receives. */
  datatype Experiment = Experiment(target: Manifest, options: Options, threads: Value, timelimit: Value)

  /** An AssemblerManager: its two lists and the options it was created with. */
  class Registry {
    var assemblers: seq<Manifest>
    var uninstalled: seq<Manifest>
    var options: Options

    /** initialize, up to the load_assemblers call that follows it (see Create). */
    constructor (options: Options)
      ensures assemblers == [] && uninstalled == [] && this.options == options
    {
      assemblers := [];
      uninstalled := [];
      this.options := options;
    }

    /**
     * load_assemblers: each manifest in discovery order is appended to the
     * available or the uninstalled list, or skipped; a raised error stops
     * the scan. The lists are appended to, never reset.
     */
    method LoadAssemblers(ms: seq<Manifest>, env: Env) returns (error: Option<string>)
      modifies this
      ensures error == Load(ms, env).error
      ensures assemblers == old(assemblers) + Load(ms, env).available
      ensures uninstalled == old(uninstalled) + Load(ms, env).uninstalled
      ensures options == old(options)
    {
      error := None;
      var i := 0;
      ghost var r := Load([], env);
      while i < |ms|
        invariant 0 <= i <= |ms|
        invariant r == Load(ms[..i], env)
        invariant r.error == None
        invariant assemblers == old(assemblers) + r.available
        invariant uninstalled == old(uninstalled) + r.uninstalled
        invariant options == old(options)
        decreases |ms| - i
      {
        var m := ms[i];
        LoadStep(ms, i, env);
        r := Admit(r, m, env);
        assert r == Load(ms[..i + 1], env);
        var placed := Place(m, env);
        if placed.Err? {
          error := Some(placed.error);
          LoadErrorSticks(ms, i + 1, env);
          return;
        } else if placed.value == Available {
          assemblers := assemblers + [m];
        } else if placed.value == Uninstalled {
          uninstalled := uninstalled + [m];
        }
        i := i + 1;
      }
      assert ms[..i] == ms;
    }

    /** assembler_names: each available assembler's name, then its shortname when it has one. */
    method AssemblerNames() returns (names: seq<string>)
      ensures names == NamesOf(assemblers)
    {
      names := [];
      for i := 0 to |assemblers|
        invariant names == NamesOf(assemblers[..i])
      {
        var t := assemblers[i];
        assert assemblers[..i + 1][..i] == assemblers[..i];
        names := names + [t.name];
        if t.shortname.Some? {
          names := names + [t.shortname.value];
        }
      }
      assert assemblers[..|assemblers|] == assemblers;
    }

    /** list_assemblers: both sections built line by line, then a final newline. */
    method ListAssemblers() returns (s: string)
      ensures s == PrintedListing(assemblers, uninstalled)
    {
      if assemblers == [] {
        s := NoneInstalled;
      } else {
        s := AppendEntries(InstalledHeader, assemblers);
      }
      if uninstalled == [] {
        s := s + AllInstalled;
      } else {
        s := AppendEntries(s + InstallableHeader, uninstalled);
      }
      s := s + "\n";
    }

    /** get_assembler on the available list. */
    function Get(x: string): (r: Result<Manifest, string>)
      reads this
      ensures r.Ok? ==> r.value in assemblers && Answers(r.value, x)
      ensures r.Err? <==> x !in NamesOf(assemblers)
    {
      GetAssemblerIffNamed(assemblers, x);
      GetAssembler(assemblers, x)
    }

    /**
     * run_assembler: the experiment gets the subsampled-read options, the
     * thread count and the time limit; the manager itself is left unchanged.
     */
    method RunAssembler(target: Manifest) returns (e: Experiment)
      ensures e == Experiment(target, SubsetOptions(options), Lookup(options, "threads"), Lookup(options, "timelimit"))
    {
      var opts := options;
      opts := opts["left" := Lookup(opts, "left_subset")];
      opts := opts["right" := Lookup(opts, "right_subset")];
      e := Experiment(target, opts, Lookup(options, "threads"), Lookup(options, "timelimit"));
    }
  }

  /** AssemblerManager.new: a fresh registry, then load_assemblers. */
  method Create(options: Options, ms: seq<Manifest>, env: Env) returns (r: Registry, error: Option<string>)
    ensures fresh(r)
    ensures error == Load(ms, env).error
    ensures r.assemblers == Load(ms, env).available && r.uninstalled == Load(ms, env).uninstalled
    ensures r.options == options
  {
    r := new Registry(options);
    error := r.LoadAssemblers(ms, env);
  }
}
