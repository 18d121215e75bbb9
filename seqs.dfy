/** Enumerable helpers the core relies on: each_slice, zip, select/delete_if. */
module Seqs {
  import opened Wrappers

  function Min(a: int, b: int): int
  {
    if a <= b then a else b
  }

  /** Concatenation of a sequence of slices. */
  function Flatten<T>(ss: seq<seq<T>>): seq<T>
  {
    if ss == [] then [] else ss[0] + Flatten(ss[1..])
  }

  /** How many slices each_slice(k) makes of `n` elements: n / k rounded up. */
  function SliceCount(n: nat, k: nat): nat
    requires k > 0
  {
    if n == 0 then 0 else if n <= k then 1 else 1 + SliceCount(n - k, k)
  }

  /**
   * Enumerable#each_slice(k): consecutive slices of `k` elements, the last one
   * shorter when |xs| is not a multiple of `k`.
   */
  function EachSlice<T>(xs: seq<T>, k: nat): (r: seq<seq<T>>)
    requires k > 0
    ensures Flatten(r) == xs
    ensures |r| == SliceCount(|xs|, k)
    ensures forall i :: 0 <= i < |r| ==> 1 <= |r[i]| <= k
    ensures forall i :: 0 <= i < |r| - 1 ==> |r[i]| == k
    decreases |xs|
  {
    if xs == [] then []
    else if |xs| <= k then [xs]
    else
      var rest := EachSlice(xs[k..], k);
      assert ([xs[..k]] + rest)[1..] == rest;
      assert xs[..k] + xs[k..] == xs;
      [xs[..k]] + rest
  }

  /** Splitting the second part of a concatenation and joining it again changes nothing. */
  lemma AppendSplit<T>(xs: seq<T>, ys: seq<T>, k: nat)
    requires k <= |ys|
    ensures xs + ys[..k] + ys[k..] == xs + ys
  {
    assert ys[..k] + ys[k..] == ys;
  }

  /** No element occurs twice. */
  predicate Distinct<T(==)>(s: seq<T>)
  {
    forall i, j :: 0 <= i < j < |s| ==> s[i] != s[j]
  }

  /** Array#select: the elements satisfying `p`, in their original order. */
  function Filter<T>(xs: seq<T>, p: T -> bool): (r: seq<T>)
    ensures |r| <= |xs|
    ensures forall i :: 0 <= i < |r| ==> r[i] in xs && p(r[i])
    ensures forall i :: 0 <= i < |xs| && p(xs[i]) ==> xs[i] in r
  {
    if xs == [] then []
    else if p(xs[0]) then [xs[0]] + Filter(xs[1..], p)
    else Filter(xs[1..], p)
  }

  /** Filtering a concatenation filters each part. */
  lemma {:induction false} FilterAppend<T>(a: seq<T>, b: seq<T>, p: T -> bool)
    ensures Filter(a + b, p) == Filter(a, p) + Filter(b, p)
  {
    if a != [] {
      FilterAppend(a[1..], b, p);
      assert (a + b)[1..] == a[1..] + b;
    } else {
      assert a + b == b;
    }
  }

  /** Flattening one more slice appends it. */
  lemma {:induction false} FlattenSnoc<T>(ss: seq<seq<T>>, s: seq<T>)
    ensures Flatten(ss + [s]) == Flatten(ss) + s
    decreases |ss|
  {
    if ss == [] {
      assert ss + [s] == [s];
    } else {
      FlattenSnoc(ss[1..], s);
      assert (ss + [s])[1..] == ss[1..] + [s];
    }
  }

  /** Every element of a flattened sequence comes from one of its slices. */
  lemma {:induction false} FlattenMember<T>(fs: seq<seq<T>>, x: T)
    requires x in Flatten(fs)
    ensures exists i :: 0 <= i < |fs| && x in fs[i]
  {
    if x !in fs[0] {
      FlattenMember(fs[1..], x);
      var i :| 0 <= i < |fs[1..]| && x in fs[1..][i];
      assert x in fs[i + 1];
    }
  }

  /** Flattening a concatenation flattens each part. */
  lemma {:induction false} FlattenAppend<T>(a: seq<seq<T>>, b: seq<seq<T>>)
    ensures Flatten(a + b) == Flatten(a) + Flatten(b)
    decreases |a|
  {
    if a == [] {
      assert a + b == b;
    } else {
      FlattenAppend(a[1..], b);
      assert (a + b)[1..] == a[1..] + b;
    }
  }

  /** The pieces `f` makes of each element, concatenated in order. */
  function FlatMap<T, U>(xs: seq<T>, f: T -> seq<U>): seq<U>
  {
    if xs == [] then [] else FlatMap(xs[..|xs| - 1], f) + f(xs[|xs| - 1])
  }

  /** The pieces of a sequence split wherever the sequence is cut. */
  lemma {:induction false} FlatMapSplitAt<T, U>(xs: seq<T>, f: T -> seq<U>, i: nat)
    requires i <= |xs|
    ensures FlatMap(xs, f) == FlatMap(xs[..i], f) + FlatMap(xs[i..], f)
    decreases |xs|
  {
    if i == |xs| {
      assert xs[..i] == xs;
      assert xs[i..] == [];
    } else {
      var last := |xs| - 1;
      var front := xs[..last];
      FlatMapSplitAt(front, f, i);
      assert front[..i] == xs[..i];
      var tail := xs[i..];
      assert tail[..|tail| - 1] == front[i..];
      assert tail[|tail| - 1] == xs[last];
    }
  }

  /** Taking one more element appends its piece. */
  lemma FlatMapSnoc<T, U>(xs: seq<T>, f: T -> seq<U>, i: nat)
    requires i < |xs|
    ensures FlatMap(xs[..i + 1], f) == FlatMap(xs[..i], f) + f(xs[i])
  {
    assert xs[..i + 1][..i] == xs[..i];
  }

  /** A non-empty sequence's pieces are its first element's piece followed by the rest's. */
  lemma FlatMapCons<T, U>(xs: seq<T>, f: T -> seq<U>)
    requires xs != []
    ensures FlatMap(xs, f) == f(xs[0]) + FlatMap(xs[1..], f)
  {
    FlatMapSplitAt(xs, f, 1);
    var first := xs[..1];
    assert first[..0] == [];
    assert FlatMap(first, f) == f(xs[0]);
  }

  /** The piece of each element sits between the pieces before it and the pieces after it. */
  lemma FlatMapAt<T, U>(xs: seq<T>, f: T -> seq<U>, i: nat)
    requires i < |xs|
    ensures FlatMap(xs, f) == FlatMap(xs[..i], f) + f(xs[i]) + FlatMap(xs[i + 1..], f)
  {
    FlatMapSplitAt(xs, f, i);
    FlatMapCons(xs[i..], f);
    assert xs[i..][1..] == xs[i + 1..];
  }

  /** Flattening cut inside one slice: what comes before the cut, then what comes after it. */
  lemma FlattenSplit<T>(ss: seq<seq<T>>, i: nat, j: nat)
    requires i < |ss| && j <= |ss[i]|
    ensures Flatten(ss) == (Flatten(ss[..i]) + ss[i][..j]) + (ss[i][j..] + Flatten(ss[i + 1..]))
  {
    var s := ss[i];
    calc {
      Flatten(ss);
      { assert ss == ss[..i + 1] + ss[i + 1..]; FlattenAppend(ss[..i + 1], ss[i + 1..]); }
      Flatten(ss[..i + 1]) + Flatten(ss[i + 1..]);
      { assert ss[..i + 1] == ss[..i] + [s]; FlattenSnoc(ss[..i], s); }
      Flatten(ss[..i]) + s + Flatten(ss[i + 1..]);
      { assert s == s[..j] + s[j..]; }
      (Flatten(ss[..i]) + s[..j]) + (s[j..] + Flatten(ss[i + 1..]));
    }
  }
}
