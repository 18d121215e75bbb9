/**
 * Ruby's Hash keeps its keys in insertion order, and the simulator and the
 * assembler installer both depend on that order. A hash is modelled here as
 * a sequence of key/value entries without repeated keys.
 */
module OrderedHash {
  import opened Wrappers

  type Hash<K, V> = seq<(K, V)>

  /** Hash#keys: the keys in insertion order. */
  function Keys<K, V>(h: Hash<K, V>): (ks: seq<K>)
    ensures |ks| == |h|
    ensures forall i :: 0 <= i < |h| ==> ks[i] == h[i].0
  {
    if h == [] then [] else [h[0].0] + Keys(h[1..])
  }

  /** Hash#values: the values in insertion order. */
  function Values<K, V>(h: Hash<K, V>): (vs: seq<V>)
    ensures |vs| == |h|
    ensures forall i :: 0 <= i < |h| ==> vs[i] == h[i].1
  {
    if h == [] then [] else [h[0].1] + Values(h[1..])
  }

  /** No key occurs twice: what every Ruby Hash satisfies. */
  ghost predicate UniqueKeys<K, V>(h: Hash<K, V>)
  {
    forall i, j :: 0 <= i < j < |h| ==> h[i].0 != h[j].0
  }

  /** Hash#[]: the value stored under `k`, or nil. */
  function Get<K(==), V>(h: Hash<K, V>, k: K): (r: Option<V>)
    ensures r.Some? <==> k in Keys(h)
    ensures r.Some? ==> exists i :: 0 <= i < |h| && h[i] == (k, r.value)
  {
    if h == [] then None
    else if h[0].0 == k then Some(h[0].1)
    else
      assert Keys(h) == [h[0].0] + Keys(h[1..]);
      var r := Get(h[1..], k);
      assert r.Some? ==> exists i :: 0 <= i < |h| && h[i] == (k, r.value) by {
        if r.Some? {
          var i :| 0 <= i < |h[1..]| && h[1..][i] == (k, r.value);
          assert h[i + 1] == (k, r.value);
        }
      }
      r
  }

  /**
   * Hash#[]=: an existing key keeps its place and takes the new value; a new
   * key is appended at the end.
   */
  function Put<K(==), V>(h: Hash<K, V>, k: K, v: V): (r: Hash<K, V>)
    ensures Keys(r) == if k in Keys(h) then Keys(h) else Keys(h) + [k]
  {
    if h == [] then [(k, v)]
    else if h[0].0 == k then
      assert Keys([(k, v)] + h[1..]) == [k] + Keys(h[1..]);
      assert Keys(h) == [k] + Keys(h[1..]);
      [(k, v)] + h[1..]
    else
      var rest := Put(h[1..], k, v);
      assert Keys([h[0]] + rest) == [h[0].0] + Keys(rest);
      assert Keys(h) == [h[0].0] + Keys(h[1..]);
      [h[0]] + rest
  }

  /** Assignment keeps every key and adds the assigned one. */
  lemma PutKeepsKeys<K, V>(h: Hash<K, V>, k: K, v: V, x: K)
    requires x in Keys(h) || x == k
    ensures x in Keys(Put(h, k, v))
  {
    var ks := Keys(h);
    if k !in ks {
      assert Keys(Put(h, k, v)) == ks + [k];
      if x == k {
        assert (ks + [k])[|ks|] == k;
      } else {
        var j :| 0 <= j < |ks| && ks[j] == x;
        assert (ks + [k])[j] == x;
      }
    }
  }

  /** After h[k] = v, key `k` reads `v` and every other key reads what it read before. */
  lemma {:induction false} PutGet<K, V>(h: Hash<K, V>, k: K, v: V, k': K)
    ensures Get(Put(h, k, v), k') == if k' == k then Some(v) else Get(h, k')
  {
    if h != [] && h[0].0 != k {
      PutGet(h[1..], k, v, k');
      assert Put(h, k, v)[1..] == Put(h[1..], k, v);
    }
  }

  /** Assignment never duplicates a key. */
  lemma {:induction false} PutUnique<K, V>(h: Hash<K, V>, k: K, v: V)
    requires UniqueKeys(h)
    ensures UniqueKeys(Put(h, k, v))
  {
    if h != [] && h[0].0 != k {
      PutUnique(h[1..], k, v);
      var r := Put(h, k, v);
      assert r[1..] == Put(h[1..], k, v);
      assert h[0].0 !in Keys(h[1..]);
      assert Keys(r[1..]) == Keys(Put(h[1..], k, v));
      assert h[0].0 !in Keys(r[1..]);
      forall i, j | 0 <= i < j < |r| ensures r[i].0 != r[j].0 {
        if i == 0 {
          assert r[j].0 == Keys(r[1..])[j - 1];
        } else {
          assert r[i] == r[1..][i - 1] && r[j] == r[1..][j - 1];
        }
      }
    } else if h != [] {
      var r := Put(h, k, v);
      forall i, j | 0 <= i < j < |r| ensures r[i].0 != r[j].0 {
        assert r[i].0 == h[i].0 && r[j].0 == h[j].0;
      }
    }
  }

  /** Hash[keys.zip(values)]: each key paired with the value at its position, later duplicates winning. */
  function FromPairs<K(==), V>(ps: seq<(K, V)>): (h: Hash<K, V>)
    ensures UniqueKeys(h)
    decreases |ps|
  {
    if ps == [] then []
    else
      var front := FromPairs(ps[..|ps| - 1]);
      PutUnique(front, ps[|ps| - 1].0, ps[|ps| - 1].1);
      Put(front, ps[|ps| - 1].0, ps[|ps| - 1].1)
  }

  /** The value of a key in a hash built from pairs is the value of its last pair. */
  lemma {:induction false} FromPairsGet<K, V>(ps: seq<(K, V)>, j: nat)
    requires j < |ps|
    requires forall i :: j < i < |ps| ==> ps[i].0 != ps[j].0
    ensures Get(FromPairs(ps), ps[j].0) == Some(ps[j].1)
    decreases |ps|
  {
    var last := |ps| - 1;
    var front := ps[..last];
    var h := FromPairs(front);
    assert FromPairs(ps) == Put(h, ps[last].0, ps[last].1);
    if j < last {
      assert ps[last].0 != ps[j].0;
      assert Get(h, ps[j].0) == Some(ps[j].1) by {
        assert front[j] == ps[j];
        forall i | j < i < |front| ensures front[i].0 != front[j].0 {
          assert front[i] == ps[i];
        }
        FromPairsGet(front, j);
      }
      PutGet(h, ps[last].0, ps[last].1, ps[j].0);
    } else {
      assert j == last;
      PutGet(h, ps[last].0, ps[last].1, ps[j].0);
    }
  }

  /** In a hash without repeated keys, each entry's key reads that entry's value. */
  lemma {:induction false} GetAt<K, V>(h: Hash<K, V>, i: nat)
    requires UniqueKeys(h) && i < |h|
    ensures Get(h, h[i].0) == Some(h[i].1)
    decreases |h|
  {
    if i > 0 {
      assert h[0].0 != h[i].0;
      assert h[1..][i - 1] == h[i];
      GetAt(h[1..], i - 1);
    }
  }

  /** Hash[pairs] with no repeated key keeps the pairs' keys in their order. */
  lemma {:induction false} FromPairsKeys<K, V>(ps: seq<(K, V)>)
    requires forall i, j :: 0 <= i < j < |ps| ==> ps[i].0 != ps[j].0
    ensures Keys(FromPairs(ps)) == seq(|ps|, i requires 0 <= i < |ps| => ps[i].0)
    decreases |ps|
  {
    if ps != [] {
      var front, last := ps[..|ps| - 1], ps[|ps| - 1];
      FromPairsKeys(front);
      var ks := Keys(FromPairs(front));
      assert last.0 !in ks by {
        forall i | 0 <= i < |ks| ensures ks[i] != last.0 {
          assert ks[i] == front[i].0 == ps[i].0;
        }
      }
    }
  }

  /** The last pair adds its key at the end unless an earlier pair has it. */
  lemma FromPairsKeysSnoc<K, V>(ps: seq<(K, V)>)
    requires ps != []
    ensures var front := Keys(FromPairs(ps[..|ps| - 1])); var k := ps[|ps| - 1].0;
      Keys(FromPairs(ps)) == if k in front then front else front + [k]
  {
  }

  /** Every key of Hash[pairs] is the key of one of the pairs. */
  lemma {:induction false} FromPairsKeysFrom<K, V>(ps: seq<(K, V)>, k: K)
    requires k in Keys(FromPairs(ps))
    ensures exists i :: 0 <= i < |ps| && ps[i].0 == k
    decreases |ps|
  {
    var front := ps[..|ps| - 1];
    if k != ps[|ps| - 1].0 {
      FromPairsKeysFrom(front, k);
      var i :| 0 <= i < |front| && front[i].0 == k;
      assert ps[i] == front[i];
    }
  }
}
