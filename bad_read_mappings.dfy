/**
 * The BadReadMappings objective: after the read pairs have been aligned
 * back to an assembly, the alignment file is read two lines at a time and
 * each pair is sorted into categories by the left read's FLAG bits, its
 * contig and its position. The objective's score is the number of pairs
 * judged bad.
 *
 * The FLAG bits are those of section 1.4 of the Sequence Alignment/Map
 * Format Specification. Parsing an alignment line is done by an external
 * library, so the parser is a parameter of the model.
 */
module BadReadMappings {
  import opened Wrappers
  import opened Seqs

  /** The fields of a parsed alignment line that the classifier reads. */
  datatype SamRecord = SamRecord(flag: bv16, chrom: string, pos: int, seqLen: nat)

  // FLAG bits, section 1.4 of the Sequence Alignment/Map Format Specification.
  const Paired: bv16 := 0x1
  const ProperPair: bv16 := 0x2
  const Unmapped: bv16 := 0x4
  const MateUnmapped: bv16 := 0x8
  const Reverse: bv16 := 0x10
  const MateReverse: bv16 := 0x20
  const FirstInPair: bv16 := 0x40
  const SecondInPair: bv16 := 0x80

  predicate Has(r: SamRecord, bit: bv16)
  {
    r.flag & bit != 0
  }

  /**
   * Mates face each other: the first read with its mate on the reverse
   * strand, or the second read on the reverse strand itself.
   */
  predicate ProperOrientation(ls: SamRecord)
  {
    (Has(ls, FirstInPair) && Has(ls, MateReverse)) || (Has(ls, SecondInPair) && Has(ls, Reverse))
  }

  /** A read on a different contig from its mate could still pair if it lies near an end. */
  predicate CouldPair(r: SamRecord, realisticDist: int)
  {
    r.seqLen - r.pos < realisticDist || r.pos < realisticDist
  }

  function Abs(x: int): nat
  {
    if x < 0 then -x else x
  }

  /** The diagnostics hash: thirteen counters and, once a file was read, the result. */
  datatype Diagnostics = Diagnostics(
    total: nat, good: nat, bad: nat, paired: nat, unpaired: nat,
    properPair: nat, improperPair: nat,
    properOrientation: nat, improperOrientation: nat,
    bothMapped: nat, sameContig: nat, realistic: nat, unrealistic: nat,
    result: Option<nat>)

  const Zero := Diagnostics(0, 0, 0, 0, 0, 0, 0, 0, 0, 0, 0, 0, 0, None)

  /**
   * The outcome of the orientation test on a realistic same-contig pair. The
   * test reads a global `$flags` that the repository never defines and runs
   * inside a rescue, so its outcome is a parameter: None when it raises and
   * the rescue swallows the error, Some(true) for a good pair, Some(false)
   * for a bad one. Some(false) over-approximates: the test is a conjunction
   * of Integer `&` Integer, which Ruby always treats as true, so the source
   * only ever raises or counts the pair good (NeverBad, TallyBadExact).
   */
  type FlagsTest = SamRecord -> Option<bool>

  /** The parser of one alignment line: None where parsing fails. */
  type Parser = string -> Option<SamRecord>

  /** How a pair whose two lines both parsed changes the counters. */
  function Classify(d: Diagnostics, ls: SamRecord, rs: SamRecord, realisticDist: int, flagsTest: FlagsTest): Diagnostics
  {
    if !Has(ls, Paired) then d
    else
      var d := d.(paired := d.paired + 1);
      if Has(ls, ProperPair) then
        var d := d.(properPair := d.properPair + 1);
        if ProperOrientation(ls) then
          d.(properOrientation := d.properOrientation + 1, good := d.good + 1)
        else
          d.(improperOrientation := d.improperOrientation + 1, bad := d.bad + 1)
      else
        var d := d.(improperPair := d.improperPair + 1);
        if Has(ls, Unmapped) || Has(ls, MateUnmapped) then d
        else
          var d := d.(bothMapped := d.bothMapped + 1);
          if ls.chrom == rs.chrom then
            var d := d.(sameContig := d.sameContig + 1);
            if Abs(ls.pos - rs.pos) < ls.seqLen then
              var d := d.(realistic := d.realistic + 1);
              match flagsTest(ls)
              case None => d
              case Some(true) => d.(good := d.good + 1)
              case Some(false) => d.(bad := d.bad + 1)
            else
              d.(unrealistic := d.unrealistic + 1, bad := d.bad + 1)
          else if CouldPair(ls, realisticDist) && CouldPair(rs, realisticDist) then
            d.(realistic := d.realistic + 1, good := d.good + 1)
          else
            d.(unrealistic := d.unrealistic + 1, bad := d.bad + 1)
  }

  /** The right line of a slice, nil when the slice holds only a left line. */
  function RightLine(slice: seq<string>): Option<string>
  {
    if |slice| >= 2 then Some(slice[1]) else None
  }

  /** How one slice of (at most) two lines changes the counters. */
  function Step(d: Diagnostics, slice: seq<string>, parse: Parser, realisticDist: int, flagsTest: FlagsTest): Diagnostics
    requires |slice| >= 1
  {
    match parse(slice[0])
    case None => d
    case Some(ls) =>
      var d := d.(total := d.total + 1);
      match RightLine(slice)
      case None => d
      case Some(r) =>
        match parse(r)
        case None => d
        case Some(rs) => Classify(d, ls, rs, realisticDist, flagsTest)
  }

  /** The counters after the slices in order, starting from zero. */
  function Tally(slices: seq<seq<string>>, parse: Parser, realisticDist: int, flagsTest: FlagsTest): Diagnostics
    requires forall i :: 0 <= i < |slices| ==> |slices[i]| >= 1
  {
    if slices == [] then Zero
    else
      var last := |slices| - 1;
      Step(Tally(slices[..last], parse, realisticDist, flagsTest), slices[last], parse, realisticDist, flagsTest)
  }

  /** A header line is one whose first character is '@'. */
  predicate IsHeader(line: string)
  {
    |line| > 0 && line[0] == '@'
  }

  /**
   * The non-header lines, two at a time in file order: laid end to end the
   * slices are exactly the non-header lines, and only the last slice may hold
   * a lone line.
   */
  function Slices(lines: seq<string>): (slices: seq<seq<string>>)
    ensures Flatten(slices) == Filter(lines, (l: string) => !IsHeader(l))
    ensures forall i :: 0 <= i < |slices| ==> 1 <= |slices[i]| <= 2
    ensures forall i :: 0 <= i < |slices| - 1 ==> |slices[i]| == 2
  {
    EachSlice(Filter(lines, (l: string) => !IsHeader(l)), 2)
  }

  /** What `wc -l` reports: the number of lines ending in a newline. */
  function NewlineCount(lines: seq<string>): nat
  {
    if lines == [] then 0
    else NewlineCount(lines[..|lines| - 1]) + (if EndsLine(lines[|lines| - 1]) then 1 else 0)
  }

  predicate EndsLine(line: string)
  {
    |line| > 0 && line[|line| - 1] == '\n'
  }

  /** The file is read only when it exists and `wc -l` counts at least one line. */
  predicate Readable(sam: Option<seq<string>>)
  {
    sam.Some? && NewlineCount(sam.value) > 0
  }

  /**
   * The diagnostics parse_sam returns for the alignment file `sam` (None when
   * it does not exist, otherwise its lines as read, each with its newline).
   */
  function Diagnose(sam: Option<seq<string>>, parse: Parser, realisticDist: int, flagsTest: FlagsTest): Diagnostics
  {
    if Readable(sam) then
      var t := Tally(Slices(sam.value), parse, realisticDist, flagsTest);
      t.(result := Some(t.bad))
    else Zero
  }

  /** The objective, with the insert-size statistics of the reads. */
  class Objective {
    /** The largest realistic insert: three standard deviations above the mean. */
    const realisticDist: int

    constructor(insertSize: int, insertSd: int)
      ensures realisticDist == insertSize + 3 * insertSd
    {
      realisticDist := insertSize + 3 * insertSd;
    }

    /** The counter-updating loop over the slices of the alignment file. */
    method ParseSam(sam: Option<seq<string>>, parse: Parser, flagsTest: FlagsTest) returns (d: Diagnostics)
      ensures d == Diagnose(sam, parse, realisticDist, flagsTest)
    {
      d := Zero;
      if sam.Some? && NewlineCount(sam.value) > 0 {
        var slices := EachSlice(Filter(sam.value, (l: string) => !IsHeader(l)), 2);
        var i := 0;
        while i < |slices|
          invariant 0 <= i <= |slices|
          invariant d == Tally(slices[..i], parse, realisticDist, flagsTest)
        {
          var slice := slices[i];
          ghost var before := d;
          var left := parse(slice[0]);
          if left.Some? {
            d := d.(total := d.total + 1);
            var right := if |slice| >= 2 then parse(slice[1]) else None;
            if right.Some? {
              d := ClassifyPair(d, left.value, right.value, flagsTest);
            }
          }
          assert d == Step(before, slice, parse, realisticDist, flagsTest);
          assert slices[..i + 1][..i] == slices[..i];
          assert Tally(slices[..i + 1], parse, realisticDist, flagsTest) == Step(before, slice, parse, realisticDist, flagsTest);
          i := i + 1;
        }
        assert slices[..i] == slices;
        d := d.(result := Some(d.bad));
      }
    }

    /** The counters a pair of parsed lines raises, by the left read's flags. */
    method ClassifyPair(d0: Diagnostics, ls: SamRecord, rs: SamRecord, flagsTest: FlagsTest) returns (d: Diagnostics)
      ensures d == Classify(d0, ls, rs, realisticDist, flagsTest)
    {
      d := d0;
      if Has(ls, Paired) {
        d := d.(paired := d.paired + 1);
        if Has(ls, ProperPair) {
          d := d.(properPair := d.properPair + 1);
          if ProperOrientation(ls) {
            d := d.(properOrientation := d.properOrientation + 1);
            d := d.(good := d.good + 1);
          } else {
            d := d.(improperOrientation := d.improperOrientation + 1);
            d := d.(bad := d.bad + 1);
          }
        } else {
          d := d.(improperPair := d.improperPair + 1);
          if !(Has(ls, Unmapped) || Has(ls, MateUnmapped)) {
            d := d.(bothMapped := d.bothMapped + 1);
            if ls.chrom == rs.chrom {
              d := d.(sameContig := d.sameContig + 1);
              if Abs(ls.pos - rs.pos) < ls.seqLen {
                d := d.(realistic := d.realistic + 1);
                var verdict := flagsTest(ls);
                if verdict == Some(true) {
                  d := d.(good := d.good + 1);
                } else if verdict == Some(false) {
                  d := d.(bad := d.bad + 1);
                }
              } else {
                d := d.(unrealistic := d.unrealistic + 1);
                d := d.(bad := d.bad + 1);
              }
            } else {
              var lCouldPair := ls.seqLen - ls.pos < realisticDist;
              lCouldPair := lCouldPair || ls.pos < realisticDist;
              var rCouldPair := rs.seqLen - rs.pos < realisticDist;
              rCouldPair := rCouldPair || rs.pos < realisticDist;
              if lCouldPair && rCouldPair {
                d := d.(realistic := d.realistic + 1);
                d := d.(good := d.good + 1);
              } else {
                d := d.(unrealistic := d.unrealistic + 1);
                d := d.(bad := d.bad + 1);
              }
            }
          }
        }
      }
    }
  }

  // ---------------------------------------------------------------------------
  // Properties of one slice

  /** A slice whose left line parses raises total by one; any other slice changes nothing. */
  lemma StepTotal(d: Diagnostics, slice: seq<string>, parse: Parser, realisticDist: int, flagsTest: FlagsTest)
    requires |slice| >= 1
    ensures parse(slice[0]).None? ==> Step(d, slice, parse, realisticDist, flagsTest) == d
    ensures Step(d, slice, parse, realisticDist, flagsTest).total == d.total + (if parse(slice[0]).Some? then 1 else 0)
  {
  }

  /** A slice whose left line parses but whose right line is missing or does not parse counts only towards total. */
  lemma LoneLeftOnlyTotal(d: Diagnostics, slice: seq<string>, parse: Parser, realisticDist: int, flagsTest: FlagsTest)
    requires |slice| >= 1 && parse(slice[0]).Some?
    requires |slice| == 1 || parse(slice[1]).None?
    ensures Step(d, slice, parse, realisticDist, flagsTest) == d.(total := d.total + 1)
  {
  }

  /**
   * A pair of parsed lines with the left read paired raises `paired` and
   * exactly one of proper_pair and improper_pair; an unpaired left read
   * changes nothing.
   */
  lemma ClassifyPairKind(d: Diagnostics, ls: SamRecord, rs: SamRecord, realisticDist: int, flagsTest: FlagsTest)
    ensures var e := Classify(d, ls, rs, realisticDist, flagsTest);
      && (!Has(ls, Paired) ==> e == d)
      && (Has(ls, Paired) ==> e.paired == d.paired + 1)
      && (Has(ls, Paired) ==> (e.properPair == d.properPair + 1 <==> Has(ls, ProperPair)))
      && (Has(ls, Paired) ==> (e.improperPair == d.improperPair + 1 <==> !Has(ls, ProperPair)))
      && e.properPair + e.improperPair == d.properPair + d.improperPair + (e.paired - d.paired)
  {
  }

  /** On a proper pair, good and proper_orientation rise iff the mates face each other; otherwise bad and improper_orientation do. */
  lemma ClassifyProperPair(d: Diagnostics, ls: SamRecord, rs: SamRecord, realisticDist: int, flagsTest: FlagsTest)
    requires Has(ls, Paired) && Has(ls, ProperPair)
    ensures var e := Classify(d, ls, rs, realisticDist, flagsTest);
      && (ProperOrientation(ls) <==> e.good == d.good + 1 && e.properOrientation == d.properOrientation + 1)
      && (!ProperOrientation(ls) <==> e.bad == d.bad + 1 && e.improperOrientation == d.improperOrientation + 1)
      && e.bothMapped == d.bothMapped && e.realistic == d.realistic && e.unrealistic == d.unrealistic
  {
  }

  /**
   * On an improper pair with both reads mapped to one contig: same_contig
   * rises, and realistic rises iff the positions are closer than the read
   * length, otherwise unrealistic and bad rise.
   */
  lemma ClassifySameContig(d: Diagnostics, ls: SamRecord, rs: SamRecord, realisticDist: int, flagsTest: FlagsTest)
    requires Has(ls, Paired) && !Has(ls, ProperPair)
    requires !Has(ls, Unmapped) && !Has(ls, MateUnmapped)
    requires ls.chrom == rs.chrom
    ensures var e := Classify(d, ls, rs, realisticDist, flagsTest);
      && e.bothMapped == d.bothMapped + 1 && e.sameContig == d.sameContig + 1
      && (e.realistic == d.realistic + 1 <==> Abs(ls.pos - rs.pos) < ls.seqLen)
      && (e.unrealistic == d.unrealistic + 1 <==> Abs(ls.pos - rs.pos) >= ls.seqLen)
      && (Abs(ls.pos - rs.pos) >= ls.seqLen ==> e.bad == d.bad + 1 && e.good == d.good)
      && e.properOrientation == d.properOrientation && e.improperOrientation == d.improperOrientation
  {
  }

  /**
   * On an improper pair with both reads mapped to different contigs:
   * realistic and good rise iff both reads lie within the realistic distance
   * of an end, otherwise unrealistic and bad rise.
   */
  lemma ClassifyDifferentContigs(d: Diagnostics, ls: SamRecord, rs: SamRecord, realisticDist: int, flagsTest: FlagsTest)
    requires Has(ls, Paired) && !Has(ls, ProperPair)
    requires !Has(ls, Unmapped) && !Has(ls, MateUnmapped)
    requires ls.chrom != rs.chrom
    ensures var e := Classify(d, ls, rs, realisticDist, flagsTest);
      && e.bothMapped == d.bothMapped + 1 && e.sameContig == d.sameContig
      && (CouldPair(ls, realisticDist) && CouldPair(rs, realisticDist) <==> e.realistic == d.realistic + 1 && e.good == d.good + 1)
      && (!(CouldPair(ls, realisticDist) && CouldPair(rs, realisticDist)) <==> e.unrealistic == d.unrealistic + 1 && e.bad == d.bad + 1)
  {
  }

  /** An improper pair with the read or its mate unmapped raises only paired and improper_pair. */
  lemma ClassifyUnmapped(d: Diagnostics, ls: SamRecord, rs: SamRecord, realisticDist: int, flagsTest: FlagsTest)
    requires Has(ls, Paired) && !Has(ls, ProperPair)
    requires Has(ls, Unmapped) || Has(ls, MateUnmapped)
    ensures Classify(d, ls, rs, realisticDist, flagsTest) == d.(paired := d.paired + 1, improperPair := d.improperPair + 1)
  {
  }

  /** Only the left read's flags classify a pair: the right read's flags never matter. */
  lemma ClassifyIgnoresRightFlags(d: Diagnostics, ls: SamRecord, rs: SamRecord, flag: bv16, realisticDist: int, flagsTest: FlagsTest)
    ensures Classify(d, ls, rs, realisticDist, flagsTest) == Classify(d, ls, rs.(flag := flag), realisticDist, flagsTest)
  {
  }

  // ---------------------------------------------------------------------------
  // Properties of the whole tally

  /** How the pair counters relate, slice after slice. */
  ghost predicate PairCounts(t: Diagnostics)
  {
    && t.unpaired == 0
    && t.result == None
    && t.paired <= t.total
    && t.paired == t.properPair + t.improperPair
    && t.properPair == t.properOrientation + t.improperOrientation
    && t.bothMapped <= t.improperPair
    && t.sameContig <= t.bothMapped
    && t.realistic + t.unrealistic == t.bothMapped
  }

  /** How the verdicts relate to the categories that raise them. */
  ghost predicate VerdictCounts(t: Diagnostics)
  {
    && t.good >= t.properOrientation
    && t.bad >= t.improperOrientation + t.unrealistic
    && t.good + t.bad <= t.properPair + t.bothMapped
  }

  ghost predicate Consistent(t: Diagnostics)
  {
    PairCounts(t) && VerdictCounts(t)
  }

  lemma ClassifyPairCounts(d: Diagnostics, ls: SamRecord, rs: SamRecord, realisticDist: int, flagsTest: FlagsTest)
    requires PairCounts(d) && d.paired < d.total
    ensures PairCounts(Classify(d, ls, rs, realisticDist, flagsTest))
    ensures Classify(d, ls, rs, realisticDist, flagsTest).total == d.total
  {
  }

  lemma ClassifyVerdictCounts(d: Diagnostics, ls: SamRecord, rs: SamRecord, realisticDist: int, flagsTest: FlagsTest)
    requires VerdictCounts(d)
    ensures VerdictCounts(Classify(d, ls, rs, realisticDist, flagsTest))
  {
  }

  lemma StepConsistent(d: Diagnostics, slice: seq<string>, parse: Parser, realisticDist: int, flagsTest: FlagsTest)
    requires |slice| >= 1 && Consistent(d)
    ensures Consistent(Step(d, slice, parse, realisticDist, flagsTest))
    ensures Step(d, slice, parse, realisticDist, flagsTest).total <= d.total + 1
  {
    var ls := parse(slice[0]);
    var e := d.(total := d.total + 1);
    if ls.None? {
      assert Step(d, slice, parse, realisticDist, flagsTest) == d;
    } else if RightLine(slice).None? || parse(RightLine(slice).value).None? {
      assert Step(d, slice, parse, realisticDist, flagsTest) == e;
    } else {
      var rs := parse(RightLine(slice).value).value;
      ClassifyPairCounts(e, ls.value, rs, realisticDist, flagsTest);
      ClassifyVerdictCounts(e, ls.value, rs, realisticDist, flagsTest);
      assert Step(d, slice, parse, realisticDist, flagsTest) == Classify(e, ls.value, rs, realisticDist, flagsTest);
    }
  }

  /**
   * Whatever the lines: unpaired stays zero, every paired pair is either
   * proper or improper, every proper pair has one orientation verdict, every
   * pair with both reads mapped is either realistic or unrealistic, and no
   * more pairs are counted than there are slices.
   */
  lemma {:induction false} TallyConsistent(slices: seq<seq<string>>, parse: Parser, realisticDist: int, flagsTest: FlagsTest)
    requires forall i :: 0 <= i < |slices| ==> |slices[i]| >= 1
    ensures Consistent(Tally(slices, parse, realisticDist, flagsTest))
    ensures Tally(slices, parse, realisticDist, flagsTest).total <= |slices|
  {
    if slices != [] {
      var last := |slices| - 1;
      var front := Tally(slices[..last], parse, realisticDist, flagsTest);
      TallyConsistent(slices[..last], parse, realisticDist, flagsTest);
      StepConsistent(front, slices[last], parse, realisticDist, flagsTest);
      assert Tally(slices, parse, realisticDist, flagsTest) == Step(front, slices[last], parse, realisticDist, flagsTest);
    }
  }

  /** total counts exactly the slices whose left line parses. */
  lemma {:induction false} TallyTotal(slices: seq<seq<string>>, parse: Parser, realisticDist: int, flagsTest: FlagsTest)
    requires forall i :: 0 <= i < |slices| ==> |slices[i]| >= 1
    ensures Tally(slices, parse, realisticDist, flagsTest).total == |Filter(slices, (s: seq<string>) => |s| >= 1 && parse(s[0]).Some?)|
  {
    if slices != [] {
      var last := |slices| - 1;
      var p := (s: seq<string>) => |s| >= 1 && parse(s[0]).Some?;
      TallyTotal(slices[..last], parse, realisticDist, flagsTest);
      StepTotal(Tally(slices[..last], parse, realisticDist, flagsTest), slices[last], parse, realisticDist, flagsTest);
      FilterAppend(slices[..last], [slices[last]], p);
      assert slices[..last] + [slices[last]] == slices;
    }
  }

  /**
   * The flag test as Ruby evaluates it: `&` on two Integers is an Integer,
   * which is always truthy, so the test either raises or calls the pair
   * good, and never bad.
   */
  ghost predicate NeverBad(flagsTest: FlagsTest)
  {
    forall r :: flagsTest(r) != Some(false)
  }

  /** Under such a flag test a pair is bad exactly when its orientation is improper or it is unrealistic. */
  lemma ClassifyBadExact(d: Diagnostics, ls: SamRecord, rs: SamRecord, realisticDist: int, flagsTest: FlagsTest)
    requires NeverBad(flagsTest)
    ensures var e := Classify(d, ls, rs, realisticDist, flagsTest);
      e.bad - d.bad == (e.improperOrientation - d.improperOrientation) + (e.unrealistic - d.unrealistic)
  {
    assert flagsTest(ls) != Some(false);
  }

  lemma StepBadExact(d: Diagnostics, slice: seq<string>, parse: Parser, realisticDist: int, flagsTest: FlagsTest)
    requires |slice| >= 1 && NeverBad(flagsTest)
    ensures var e := Step(d, slice, parse, realisticDist, flagsTest);
      e.bad - d.bad == (e.improperOrientation - d.improperOrientation) + (e.unrealistic - d.unrealistic)
  {
    var ls := parse(slice[0]);
    if ls.Some? && RightLine(slice).Some? && parse(RightLine(slice).value).Some? {
      var e := d.(total := d.total + 1);
      var rs := parse(RightLine(slice).value).value;
      ClassifyBadExact(e, ls.value, rs, realisticDist, flagsTest);
      assert Step(d, slice, parse, realisticDist, flagsTest) == Classify(e, ls.value, rs, realisticDist, flagsTest);
    }
  }

  /**
   * When the flag test never calls a pair bad, as Ruby evaluates it, the bad
   * count is exactly the improper orientations plus the unrealistic pairs.
   */
  lemma {:induction false} TallyBadExact(slices: seq<seq<string>>, parse: Parser, realisticDist: int, flagsTest: FlagsTest)
    requires forall i :: 0 <= i < |slices| ==> |slices[i]| >= 1
    requires NeverBad(flagsTest)
    ensures var t := Tally(slices, parse, realisticDist, flagsTest);
      t.bad == t.improperOrientation + t.unrealistic
  {
    if slices != [] {
      var last := |slices| - 1;
      var front := Tally(slices[..last], parse, realisticDist, flagsTest);
      TallyBadExact(slices[..last], parse, realisticDist, flagsTest);
      StepBadExact(front, slices[last], parse, realisticDist, flagsTest);
      assert Tally(slices, parse, realisticDist, flagsTest) == Step(front, slices[last], parse, realisticDist, flagsTest);
    }
  }

  // ---------------------------------------------------------------------------
  // Properties of the file-level result

  /**
   * The result is the bad count exactly when the file exists and `wc -l`
   * counts a line; otherwise every counter is zero and there is no result.
   * A file that was read keeps the counter relations of TallyConsistent.
   */
  lemma DiagnoseResult(sam: Option<seq<string>>, parse: Parser, realisticDist: int, flagsTest: FlagsTest)
    ensures var d := Diagnose(sam, parse, realisticDist, flagsTest);
      && (d.result.Some? <==> Readable(sam))
      && (d.result.Some? ==> d.result.value == d.bad)
      && (!Readable(sam) ==> d == Zero)
      && d.unpaired == 0
      && d.paired == d.properPair + d.improperPair
      && d.realistic + d.unrealistic == d.bothMapped
      && d.good + d.bad <= d.properPair + d.bothMapped
  {
    if Readable(sam) {
      TallyConsistent(Slices(sam.value), parse, realisticDist, flagsTest);
    }
  }
}
