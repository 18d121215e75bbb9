/**
 * The simulation target (lib/assemblotron/simulator.rb): a table of
 * precomputed scores read from CSV rows, keyed by parameter setting, and its
 * transposition into the value range of each parameter. The CSV file is an
 * input: its rows, each a list of fields.
 */
module Simulator {
  import opened Wrappers
  import opened Seqs
  import OrderedHash
  import TypeMap

  /** A CSV field: its text, or nil for an empty unquoted field. */
  type Cell = Option<string>

  type Row = seq<Cell>

  /** One parameter setting: parameter name to value, in column order. */
  type Params = OrderedHash.Hash<Cell, Cell>

  /** The loaded table: parameter setting to score. */
  type SimData = OrderedHash.Hash<Params, Cell>

  // ---------------------------------------------------------------------------
  // Loading

  /** The `*init` part of `*init, last = line`. */
  function AllButLast(line: Row): Row
  {
    if line == [] then [] else line[..|line| - 1]
  }

  /** The `last` part of `*init, last = line`: nil for an empty row. */
  function LastCell(line: Row): Cell
  {
    if line == [] then None else line[|line| - 1]
  }

  /** The splat assignment splits a row into its init and last and loses nothing. */
  lemma SplatSplits(line: Row)
    requires line != []
    ensures AllButLast(line) + [LastCell(line)] == line
    ensures |AllButLast(line)| == |line| - 1
  {
  }

  /** keys.zip(values): one pair per key, nil where the values run out, extra values dropped. */
  function ZipCells(keys: Row, values: Row): (ps: seq<(Cell, Cell)>)
    ensures |ps| == |keys|
    ensures forall i :: 0 <= i < |keys| ==> ps[i].0 == keys[i]
    ensures forall i :: 0 <= i < |keys| ==> ps[i].1 == if i < |values| then values[i] else None
  {
    if keys == [] then []
    else if values == [] then [(keys[0], None)] + ZipCells(keys[1..], [])
    else [(keys[0], values[0])] + ZipCells(keys[1..], values[1..])
  }

  /** `Hash[keys.zip params]` for one data row. */
  function ParamsOf(keys: Row, line: Row): Params
  {
    OrderedHash.FromPairs(ZipCells(keys, AllButLast(line)))
  }

  /** Each data row as the entry it assigns: its parameter setting and its score. */
  function RowEntries(keys: Row, rows: seq<Row>): (es: seq<(Params, Cell)>)
    ensures |es| == |rows|
    ensures forall i :: 0 <= i < |rows| ==> es[i] == (ParamsOf(keys, rows[i]), LastCell(rows[i]))
  {
    if rows == [] then []
    else RowEntries(keys, rows[..|rows| - 1]) + [(ParamsOf(keys, rows[|rows| - 1]), LastCell(rows[|rows| - 1]))]
  }

  /**
   * load_simulation_data as a specification: the first row names the
   * parameters (its last column is dropped); every later row assigns its
   * score to its parameter setting.
   */
  function Loaded(rows: seq<Row>): SimData
  {
    if rows == [] then [] else OrderedHash.FromPairs(RowEntries(AllButLast(rows[0]), rows[1..]))
  }

  /**
   * A data row's score is what the table holds for its setting unless a
   * later row has the same setting, which then overwrites it.
   */
  lemma LaterRowWins(header: Row, data: seq<Row>, j: nat)
    requires j < |data|
    requires forall i :: j < i < |data| ==> ParamsOf(AllButLast(header), data[i]) != ParamsOf(AllButLast(header), data[j])
    ensures OrderedHash.Get(Loaded([header] + data), ParamsOf(AllButLast(header), data[j])) == Some(LastCell(data[j]))
  {
    var es := RowEntries(AllButLast(header), data);
    assert ([header] + data)[1..] == data;
    OrderedHash.FromPairsGet(es, j);
  }

  /** One more data row assigns its score to its setting. */
  lemma LoadStep(keys: Row, rows: seq<Row>, i: nat)
    requires 1 <= i < |rows|
    ensures OrderedHash.FromPairs(RowEntries(keys, rows[1..i + 1])) ==
      OrderedHash.Put(OrderedHash.FromPairs(RowEntries(keys, rows[1..i])), ParamsOf(keys, rows[i]), LastCell(rows[i]))
  {
    var es := RowEntries(keys, rows[1..i]);
    var e := (ParamsOf(keys, rows[i]), LastCell(rows[i]));
    assert rows[1..i + 1][..i - 1] == rows[1..i];
    assert RowEntries(keys, rows[1..i + 1]) == es + [e];
    assert (es + [e])[..|es|] == es;
  }

  /** The header row alone loads no settings. */
  lemma LoadHeader(rows: seq<Row>)
    requires rows != []
    ensures OrderedHash.FromPairs(RowEntries(AllButLast(rows[0]), rows[1..1])) == []
  {
    assert rows[1..1] == [];
  }

  /** Having loaded every data row is having loaded the file. */
  lemma LoadedAll(rows: seq<Row>, data: SimData)
    requires rows == [] ==> data == []
    requires rows != [] ==> data == OrderedHash.FromPairs(RowEntries(AllButLast(rows[0]), rows[1..|rows|]))
    ensures data == Loaded(rows)
  {
    if rows != [] {
      assert rows[1..|rows|] == rows[1..];
    }
  }

  /** With distinct parameter names, a setting has exactly the header's names, in column order. */
  lemma ParamsKeys(keys: Row, line: Row)
    requires forall i, j :: 0 <= i < j < |keys| ==> keys[i] != keys[j]
    ensures OrderedHash.Keys(ParamsOf(keys, line)) == keys
  {
    var ps := ZipCells(keys, AllButLast(line));
    OrderedHash.FromPairsKeys(ps);
  }

  /** With distinct parameter names, each name reads its column, or nil when the row is short. */
  lemma ParamsValue(keys: Row, line: Row, i: nat)
    requires forall a, b :: 0 <= a < b < |keys| ==> keys[a] != keys[b]
    requires i < |keys|
    ensures OrderedHash.Get(ParamsOf(keys, line), keys[i]) == Some(if i < |line| - 1 then line[i] else None)
  {
    var ps := ZipCells(keys, AllButLast(line));
    OrderedHash.FromPairsGet(ps, i);
  }

  // ---------------------------------------------------------------------------
  // Transposition

  /** The values seen so far for each parameter, distinct, in first-seen order. */
  type Seen = OrderedHash.Hash<Cell, seq<Cell>>

  /** `t[k][v] = true` on the per-parameter hash: a new value is appended, a known one stays in place. */
  function AddSeen(seen: seq<Cell>, v: Cell): seq<Cell>
  {
    if v in seen then seen else seen + [v]
  }

  /** `AddSeen` for each value in turn. */
  function AddAll(seen: seq<Cell>, vs: seq<Cell>): seq<Cell>
  {
    if vs == [] then seen else AddSeen(AddAll(seen, vs[..|vs| - 1]), vs[|vs| - 1])
  }

  /** The distinct values of `vs` in first-seen order. */
  function Dedup(vs: seq<Cell>): seq<Cell>
  {
    AddAll([], vs)
  }

  /** Adding values never repeats one, and keeps exactly the values seen. */
  lemma {:induction false} AddAllProperties(seen: seq<Cell>, vs: seq<Cell>)
    requires Distinct(seen)
    ensures Distinct(AddAll(seen, vs))
    ensures forall x :: x in AddAll(seen, vs) <==> x in seen || x in vs
    ensures |seen| <= |AddAll(seen, vs)| && AddAll(seen, vs)[..|seen|] == seen
    decreases |vs|
  {
    if vs != [] {
      var front := vs[..|vs| - 1];
      AddAllProperties(seen, front);
      assert vs == front + [vs[|vs| - 1]];
    }
  }

  /** The first distinct value is the first value. */
  lemma DedupFirst(vs: seq<Cell>)
    requires vs != []
    ensures Dedup(vs) != [] && Dedup(vs)[0] == vs[0]
  {
    AddAllProperties([], [vs[0]]);
    assert vs[..1] == [vs[0]];
    AddAllPrefix([vs[0]], vs);
  }

  /** Later values never disturb the values already seen. */
  lemma {:induction false} AddAllPrefix(pre: seq<Cell>, vs: seq<Cell>)
    requires |pre| <= |vs| && vs[..|pre|] == pre
    ensures |Dedup(pre)| <= |Dedup(vs)| && Dedup(vs)[..|Dedup(pre)|] == Dedup(pre)
    decreases |vs|
  {
    if |pre| < |vs| {
      var front := vs[..|vs| - 1];
      assert front[..|pre|] == pre;
      AddAllPrefix(pre, front);
    } else {
      assert pre == vs;
    }
  }

  /** The values of the pairs whose key is `k`, in order. */
  function ColumnOf(pairs: seq<(Cell, Cell)>, k: Cell): seq<Cell>
  {
    if pairs == [] then []
    else ColumnOf(pairs[..|pairs| - 1], k) + (if pairs[|pairs| - 1].0 == k then [pairs[|pairs| - 1].1] else [])
  }

  /** `t[k][v] = true` on the whole table; nil (an error) when `k` has no entry. */
  function Mark(t: Seen, pair: (Cell, Cell)): Option<Seen>
  {
    match OrderedHash.Get(t, pair.0)
    case None => None
    case Some(seen) => Some(OrderedHash.Put(t, pair.0, AddSeen(seen, pair.1)))
  }

  /** `Mark` for each pair in turn; the first failure stops it. */
  function MarkAll(t: Seen, pairs: seq<(Cell, Cell)>): Option<Seen>
  {
    if pairs == [] then Some(t)
    else match MarkAll(t, pairs[..|pairs| - 1])
      case None => None
      case Some(t') => Mark(t', pairs[|pairs| - 1])
  }

  /** `Hash[keys.zip valuehashes]`: each parameter with an empty value hash. */
  function FreshTable(keys: seq<Cell>): Seen
  {
    OrderedHash.FromPairs(FreshPairs(keys))
  }

  function FreshPairs(keys: seq<Cell>): seq<(Cell, seq<Cell>)>
  {
    seq(|keys|, i requires 0 <= i < |keys| => (keys[i], []))
  }

  /** The entry transpose_simdata stores for a parameter. */
  datatype Entry = Entry(values: seq<Cell>, opt: bool, typeName: string)

  /** `:type` is 'string' when the first distinct value is a String, 'integer' otherwise (nil included). */
  function EntryFor(unique: seq<Cell>): (e: Entry)
    ensures e.values == unique && e.opt
    ensures e.typeName == "string" <==> unique != [] && unique[0].Some?
    ensures e.typeName == "integer" <==> !(unique != [] && unique[0].Some?)
  {
    Entry(unique, true, if unique != [] && unique[0].Some? then "string" else "integer")
  }

  /** Every table entry replaced by its finished entry, in the same order. */
  function Finish(t: Seen): (r: OrderedHash.Hash<Cell, Entry>)
    ensures |r| == |t|
    ensures forall i :: 0 <= i < |t| ==> r[i] == (t[i].0, EntryFor(t[i].1))
  {
    if t == [] then [] else Finish(t[..|t| - 1]) + [(t[|t| - 1].0, EntryFor(t[|t| - 1].1))]
  }

  const NoFirstKey := "undefined method `keys' for nil"
  const NoSuchParameter := "undefined method `[]=' for nil"

  /**
   * transpose_simdata as a specification: fails when the table is empty, or
   * when a setting names a parameter the first setting lacks.
   */
  function Transposed(simdata: SimData): Result<OrderedHash.Hash<Cell, Entry>, string>
  {
    if simdata == [] then Err(NoFirstKey)
    else match MarkAll(FreshTable(OrderedHash.Keys(simdata[0].0)), Flatten(OrderedHash.Keys(simdata)))
      case None => Err(NoSuchParameter)
      case Some(t) => Ok(Finish(t))
  }

  /** A failed mark stays failed, whatever follows. */
  lemma {:induction false} MarkAllFailureSticks(t: Seen, a: seq<(Cell, Cell)>, b: seq<(Cell, Cell)>)
    requires MarkAll(t, a).None?
    ensures MarkAll(t, a + b).None?
    decreases |b|
  {
    if b == [] {
      assert a + b == a;
    } else {
      MarkAllFailureSticks(t, a, b[..|b| - 1]);
      assert (a + b)[..|a + b| - 1] == a + b[..|b| - 1];
    }
  }

  /** Marking keeps the keys in place. */
  lemma {:induction false} MarkAllKeys(t: Seen, pairs: seq<(Cell, Cell)>)
    requires MarkAll(t, pairs).Some?
    ensures OrderedHash.Keys(MarkAll(t, pairs).value) == OrderedHash.Keys(t)
    decreases |pairs|
  {
    if pairs != [] {
      MarkAllKeys(t, pairs[..|pairs| - 1]);
    }
  }

  /** Every pair's key is among `keys`. */
  predicate AllKeyed(keys: seq<Cell>, pairs: seq<(Cell, Cell)>)
  {
    forall i :: 0 <= i < |pairs| ==> pairs[i].0 in keys
  }

  lemma AllKeyedSnoc(keys: seq<Cell>, pairs: seq<(Cell, Cell)>)
    requires pairs != []
    ensures AllKeyed(keys, pairs) <==> AllKeyed(keys, pairs[..|pairs| - 1]) && pairs[|pairs| - 1].0 in keys
  {
    var front := pairs[..|pairs| - 1];
    assert forall i :: 0 <= i < |front| ==> front[i] == pairs[i];
  }

  /** Marking succeeds exactly when every pair's key has an entry. */
  lemma {:induction false} MarkAllSucceeds(t: Seen, pairs: seq<(Cell, Cell)>)
    ensures MarkAll(t, pairs).Some? <==> AllKeyed(OrderedHash.Keys(t), pairs)
    decreases |pairs|
  {
    if pairs != [] {
      var front, p := pairs[..|pairs| - 1], pairs[|pairs| - 1];
      MarkAllSucceeds(t, front);
      AllKeyedSnoc(OrderedHash.Keys(t), pairs);
      if MarkAll(t, front).Some? {
        MarkAllKeys(t, front);
      }
    }
  }

  /** Marking never repeats a key. */
  lemma {:induction false} MarkAllUnique(t: Seen, pairs: seq<(Cell, Cell)>)
    requires OrderedHash.UniqueKeys(t)
    ensures MarkAll(t, pairs).Some? ==> OrderedHash.UniqueKeys(MarkAll(t, pairs).value)
    decreases |pairs|
  {
    if pairs != [] {
      var front, p := pairs[..|pairs| - 1], pairs[|pairs| - 1];
      MarkAllUnique(t, front);
      if MarkAll(t, front).Some? {
        var t' := MarkAll(t, front).value;
        if OrderedHash.Get(t', p.0).Some? {
          OrderedHash.PutUnique(t', p.0, AddSeen(OrderedHash.Get(t', p.0).value, p.1));
        }
      }
    }
  }

  /** After marking, each key holds what it held with the distinct values of its pairs added. */
  lemma {:induction false} MarkAllGet(t: Seen, pairs: seq<(Cell, Cell)>, k: Cell)
    requires MarkAll(t, pairs).Some?
    ensures OrderedHash.Get(MarkAll(t, pairs).value, k) ==
      if OrderedHash.Get(t, k).None? then None else Some(AddAll(OrderedHash.Get(t, k).value, ColumnOf(pairs, k)))
    decreases |pairs|
  {
    if pairs != [] {
      var front, p := pairs[..|pairs| - 1], pairs[|pairs| - 1];
      var t' := MarkAll(t, front).value;
      MarkAllGet(t, front, k);
      var seen := OrderedHash.Get(t', p.0).value;
      OrderedHash.PutGet(t', p.0, AddSeen(seen, p.1), k);
      if p.0 == k {
        var col := ColumnOf(front, k);
        assert ColumnOf(pairs, k) == col + [p.1];
        assert (col + [p.1])[..|col|] == col;
      } else {
        assert ColumnOf(pairs, k) == ColumnOf(front, k) + [];
        assert ColumnOf(front, k) + [] == ColumnOf(front, k);
      }
    }
  }

  /** Finishing keeps the keys and maps each key's values to its entry. */
  lemma FinishGet(t: Seen, k: Cell)
    requires OrderedHash.UniqueKeys(t)
    ensures OrderedHash.Keys(Finish(t)) == OrderedHash.Keys(t)
    ensures OrderedHash.Get(Finish(t), k) ==
      if OrderedHash.Get(t, k).None? then None else Some(EntryFor(OrderedHash.Get(t, k).value))
  {
    var r := Finish(t);
    assert OrderedHash.Keys(r) == OrderedHash.Keys(t);
    assert OrderedHash.UniqueKeys(r);
    if k in OrderedHash.Keys(t) {
      var i :| 0 <= i < |t| && t[i].0 == k;
      OrderedHash.GetAt(t, i);
      OrderedHash.GetAt(r, i);
    }
  }

  /** The fresh table holds each of the first setting's parameters with no values. */
  lemma FreshTableGet(keys: seq<Cell>, k: Cell)
    requires forall i, j :: 0 <= i < j < |keys| ==> keys[i] != keys[j]
    ensures OrderedHash.Keys(FreshTable(keys)) == keys
    ensures OrderedHash.Get(FreshTable(keys), k) == if k in keys then Some([]) else None
  {
    FreshTableKeys(keys);
    if k in keys {
      var j :| 0 <= j < |keys| && keys[j] == k;
      FreshTableGetAt(keys, j);
    }
  }

  lemma FreshTableKeys(keys: seq<Cell>)
    requires forall i, j :: 0 <= i < j < |keys| ==> keys[i] != keys[j]
    ensures OrderedHash.Keys(FreshTable(keys)) == keys
  {
    var ps := FreshPairs(keys);
    OrderedHash.FromPairsKeys(ps);
    assert seq(|ps|, i requires 0 <= i < |ps| => ps[i].0) == keys;
  }

  lemma FreshTableGetAt(keys: seq<Cell>, j: nat)
    requires forall i, j :: 0 <= i < j < |keys| ==> keys[i] != keys[j]
    requires j < |keys|
    ensures OrderedHash.Get(FreshTable(keys), keys[j]) == Some([])
  {
    var ps := FreshPairs(keys);
    assert ps[j] == (keys[j], []);
    forall i | j < i < |ps| ensures ps[i].0 != ps[j].0 {
      assert ps[i].0 == keys[i];
    }
    OrderedHash.FromPairsGet(ps, j);
  }

  /**
   * The transposed table: when it exists its keys are the first setting's
   * parameters in order, and each parameter's entry lists the distinct
   * values it takes across the settings, in first-seen order.
   */
  lemma TransposedEntries(simdata: SimData, k: Cell)
    requires simdata != [] && OrderedHash.UniqueKeys(simdata[0].0)
    requires Transposed(simdata).Ok?
    ensures OrderedHash.Keys(Transposed(simdata).value) == OrderedHash.Keys(simdata[0].0)
    ensures k in OrderedHash.Keys(simdata[0].0) ==>
      OrderedHash.Get(Transposed(simdata).value, k) ==
        Some(EntryFor(Dedup(ColumnOf(Flatten(OrderedHash.Keys(simdata)), k))))
  {
    var keys := OrderedHash.Keys(simdata[0].0);
    var pairs := Flatten(OrderedHash.Keys(simdata));
    var empty := FreshTable(keys);
    assert OrderedHash.Keys(empty) == keys && OrderedHash.UniqueKeys(empty)
      && OrderedHash.Get(empty, k) == (if k in keys then Some([]) else None) by {
      assert forall i, j :: 0 <= i < j < |keys| ==> keys[i] != keys[j];
      FreshTableGet(keys, k);
    }
    var t := MarkAll(empty, pairs).value;
    assert Transposed(simdata) == Ok(Finish(t));
    assert OrderedHash.Keys(t) == keys && OrderedHash.UniqueKeys(t) by {
      MarkAllKeys(empty, pairs);
      MarkAllUnique(empty, pairs);
    }
    assert k in keys ==> OrderedHash.Get(t, k) == Some(AddAll([], ColumnOf(pairs, k))) by {
      MarkAllGet(empty, pairs, k);
    }
    FinishGet(t, k);
  }

  /** Transposition fails exactly on an empty table, or when a setting names a parameter the first setting lacks. */
  lemma TransposedFails(simdata: SimData)
    requires simdata != [] ==> OrderedHash.UniqueKeys(simdata[0].0)
    ensures Transposed(simdata).Err? <==>
      simdata == [] || !AllKeyed(OrderedHash.Keys(simdata[0].0), Flatten(OrderedHash.Keys(simdata)))
  {
    if simdata != [] {
      var keys := OrderedHash.Keys(simdata[0].0);
      FreshTableGet(keys, None);
      MarkAllSucceeds(FreshTable(keys), Flatten(OrderedHash.Keys(simdata)));
    }
  }

  /** Hash[pairs] keeps the pairs' keys without repeats, in first-seen order. */
  lemma {:induction false} FromPairsKeysDedup<V>(ps: seq<(Cell, V)>)
    ensures OrderedHash.Keys(OrderedHash.FromPairs(ps)) == Dedup(OrderedHash.Keys(ps))
    decreases |ps|
  {
    if ps != [] {
      var n := |ps| - 1;
      var ks := OrderedHash.Keys(ps);
      var front := OrderedHash.Keys(OrderedHash.FromPairs(ps[..n]));
      assert |ks| - 1 == n && ks[n] == ps[n].0;
      assert front == Dedup(ks[..n]) by {
        FromPairsKeysDedup(ps[..n]);
        assert OrderedHash.Keys(ps[..n]) == ks[..n];
      }
      OrderedHash.FromPairsKeysSnoc(ps);
      DedupSnoc(ks);
    }
  }

  /** One more value is added to the distinct values unless already there. */
  lemma DedupSnoc(vs: seq<Cell>)
    requires vs != []
    ensures Dedup(vs) == AddSeen(Dedup(vs[..|vs| - 1]), vs[|vs| - 1])
  {
  }

  /** Whatever the row holds, a setting's names are the header's names without repeats, in first-seen order. */
  lemma ParamsKeysDedup(keys: Row, line: Row)
    ensures OrderedHash.Keys(ParamsOf(keys, line)) == Dedup(keys)
  {
    var ps := ZipCells(keys, AllButLast(line));
    FromPairsKeysDedup(ps);
    assert OrderedHash.Keys(ps) == keys;
  }

  /** Every setting of a loaded table has the header's distinct names, and no name twice. */
  lemma LoadedSettingsShareKeys(rows: seq<Row>)
    requires |rows| >= 1
    ensures forall s :: s in OrderedHash.Keys(Loaded(rows)) ==>
      OrderedHash.Keys(s) == Dedup(AllButLast(rows[0])) && OrderedHash.UniqueKeys(s)
  {
    var header := AllButLast(rows[0]);
    var es := RowEntries(header, rows[1..]);
    forall s | s in OrderedHash.Keys(Loaded(rows))
      ensures OrderedHash.Keys(s) == Dedup(header) && OrderedHash.UniqueKeys(s)
    {
      OrderedHash.FromPairsKeysFrom(es, s);
      var i :| 0 <= i < |es| && es[i].0 == s;
      ParamsKeysDedup(header, rows[1..][i]);
    }
  }

  /** Every setting of a loaded table has exactly the header's parameter names. */
  lemma LoadedSettingsKeys(rows: seq<Row>)
    requires |rows| >= 1
    requires forall i, j :: 0 <= i < j < |AllButLast(rows[0])| ==> AllButLast(rows[0])[i] != AllButLast(rows[0])[j]
    ensures forall s :: s in OrderedHash.Keys(Loaded(rows)) ==> OrderedHash.Keys(s) == AllButLast(rows[0])
  {
    var header := AllButLast(rows[0]);
    var es := RowEntries(header, rows[1..]);
    forall s | s in OrderedHash.Keys(Loaded(rows)) ensures OrderedHash.Keys(s) == header {
      OrderedHash.FromPairsKeysFrom(es, s);
      var i :| 0 <= i < |es| && es[i].0 == s;
      ParamsKeys(header, rows[1..][i]);
    }
  }

  /** When every setting has the same names, every pair of every setting is keyed by one of them. */
  lemma SettingsKeyed(settings: seq<Params>, names: seq<Cell>)
    requires forall s :: s in settings ==> OrderedHash.Keys(s) == names
    ensures AllKeyed(names, Flatten(settings))
  {
    var pairs := Flatten(settings);
    forall i | 0 <= i < |pairs| ensures pairs[i].0 in names {
      FlattenMember(settings, pairs[i]);
      var n :| 0 <= n < |settings| && pairs[i] in settings[n];
      var m :| 0 <= m < |settings[n]| && settings[n][m] == pairs[i];
      assert pairs[i].0 == OrderedHash.Keys(settings[n])[m];
    }
  }

  /**
   * A table loaded from a header and at least one data row always
   * transposes, even when the header repeats a name: every setting has the
   * same names.
   */
  lemma LoadedTransposes(rows: seq<Row>)
    requires |rows| >= 2
    ensures Transposed(Loaded(rows)).Ok?
  {
    var names := Dedup(AllButLast(rows[0]));
    var simdata := Loaded(rows);
    var settings := OrderedHash.Keys(simdata);
    LoadedSettingsShareKeys(rows);
    assert |simdata| >= 1 by {
      assert |RowEntries(AllButLast(rows[0]), rows[1..])| >= 1;
    }
    assert simdata[0].0 == settings[0];
    assert OrderedHash.Keys(simdata[0].0) == names;
    SettingsKeyed(settings, names);
    TransposedFails(simdata);
  }

  /** Each distinct-values list has no repeats and holds exactly the values seen. */
  lemma DedupProperties(vs: seq<Cell>)
    ensures Distinct(Dedup(vs))
    ensures forall x :: x in Dedup(vs) <==> x in vs
  {
    AddAllProperties([], vs);
  }

  /** Every entry's type is one the type map recognises: String for 'string', Integer for 'integer'. */
  lemma EntryTypeKnown(unique: seq<Cell>)
    ensures TypeMap.ClassFromType(EntryFor(unique).typeName) ==
      if unique != [] && unique[0].Some? then Some(TypeMap.StringClass) else Some(TypeMap.IntegerClass)
  {
  }

  /** Marking one more pair. */
  lemma MarkAllSnoc(t0: Seen, pairs: seq<(Cell, Cell)>, p: (Cell, Cell))
    ensures MarkAll(t0, pairs + [p]) == if MarkAll(t0, pairs).None? then None else Mark(MarkAll(t0, pairs).value, p)
  {
    assert (pairs + [p])[..|pairs|] == pairs;
  }

  /** Marking one more value of the current setting. */
  lemma MarkStep(t0: Seen, done: seq<(Cell, Cell)>, params: Params, j: nat)
    requires j < |params|
    ensures MarkAll(t0, done + params[..j + 1]) ==
      if MarkAll(t0, done + params[..j]).None? then None else Mark(MarkAll(t0, done + params[..j]).value, params[j])
  {
    assert done + params[..j + 1] == (done + params[..j]) + [params[j]];
    MarkAllSnoc(t0, done + params[..j], params[j]);
  }

  /** A value that fails to mark fails the rest of its setting. */
  lemma MarkSettingFails(t0: Seen, done: seq<(Cell, Cell)>, params: Params, j: nat)
    requires j < |params|
    requires MarkAll(t0, done + params[..j + 1]).None?
    ensures MarkAll(t0, done + params).None?
  {
    MarkAllFailureSticks(t0, done + params[..j + 1], params[j + 1..]);
    AppendSplit(done, params, j + 1);
  }

  /** A failure while marking the first settings fails the whole transposition. */
  lemma MarkPrefixFailure(t0: Seen, settings: seq<Params>, n: nat)
    requires n <= |settings|
    requires MarkAll(t0, Flatten(settings[..n])).None?
    ensures MarkAll(t0, Flatten(settings)).None?
  {
    assert settings == settings[..n] + settings[n..];
    FlattenAppend(settings[..n], settings[n..]);
    MarkAllFailureSticks(t0, Flatten(settings[..n]), Flatten(settings[n..]));
  }

  /** The pairs of the first `i + 1` settings are those of the first `i` followed by setting `i`. */
  lemma FlattenPrefixSnoc<T>(settings: seq<seq<T>>, i: nat)
    requires i < |settings|
    ensures Flatten(settings[..i + 1]) == Flatten(settings[..i]) + settings[i]
  {
    assert settings[..i + 1] == settings[..i] + [settings[i]];
    FlattenSnoc(settings[..i], settings[i]);
  }

  /** A failure in the first `n` settings is the transposition's failure. */
  lemma TransposedFailure(simdata: SimData, n: nat)
    requires simdata != [] && n <= |simdata|
    requires MarkAll(FreshTable(OrderedHash.Keys(simdata[0].0)), Flatten(OrderedHash.Keys(simdata)[..n])).None?
    ensures Transposed(simdata) == Err(NoSuchParameter)
  {
    MarkPrefixFailure(FreshTable(OrderedHash.Keys(simdata[0].0)), OrderedHash.Keys(simdata), n);
  }

  /** Marking every setting into `t` makes the transposition the finished `t`. */
  lemma TransposedSuccess(simdata: SimData, t: Seen)
    requires simdata != []
    requires MarkAll(FreshTable(OrderedHash.Keys(simdata[0].0)), Flatten(OrderedHash.Keys(simdata)[..|simdata|])) == Some(t)
    ensures Transposed(simdata) == Ok(Finish(t))
  {
    assert OrderedHash.Keys(simdata)[..|simdata|] == OrderedHash.Keys(simdata);
  }

  /** One setting's `each_pair`: each value marked in turn; a parameter without an entry fails. */
  method MarkSetting(t0: Seen, done: seq<(Cell, Cell)>, params: Params, t: Seen) returns (r: Option<Seen>)
    requires MarkAll(t0, done) == Some(t)
    ensures r == MarkAll(t0, done + params)
  {
    var cur := t;
    assert done + params[..0] == done;
    for j := 0 to |params|
      invariant MarkAll(t0, done + params[..j]) == Some(cur)
    {
      MarkStep(t0, done, params, j);
      var seen := OrderedHash.Get(cur, params[j].0);
      if seen.None? {
        MarkSettingFails(t0, done, params, j);
        return None;
      }
      cur := OrderedHash.Put(cur, params[j].0, AddSeen(seen.value, params[j].1));
    }
    assert params[..|params|] == params;
    return Some(cur);
  }

  /** The closing `each_pair`: every value list replaced by its entry, in table order. */
  method FinishTable(t: Seen) returns (out: OrderedHash.Hash<Cell, Entry>)
    ensures out == Finish(t)
  {
    out := [];
    for i := 0 to |t|
      invariant out == Finish(t[..i])
    {
      assert t[..i + 1][..i] == t[..i];
      out := out + [(t[i].0, EntryFor(t[i].1))];
    }
    assert t[..|t|] == t;
  }

  /** What run hands back. */
  datatype RunResult = RunResult(simdata: SimData, params: Params)

  /** A Simulator target: the loaded table. */
  class Simulator {
    var simdata: SimData

    constructor ()
      ensures simdata == []
    {
      simdata := [];
    }

    /** load_simulation_data over the rows of the CSV file. */
    method LoadSimulationData(rows: seq<Row>)
      modifies this
      ensures simdata == Loaded(rows)
    {
      var data: SimData := [];
      var keys: Option<Row> := None;
      for i := 0 to |rows|
        invariant i == 0 ==> keys.None? && data == []
        invariant i > 0 ==> keys == Some(AllButLast(rows[0]))
        invariant i > 0 ==> data == OrderedHash.FromPairs(RowEntries(AllButLast(rows[0]), rows[1..i]))
      {
        var line := rows[i];
        if keys.None? {
          keys := Some(AllButLast(line));
          LoadHeader(rows);
        } else {
          data := OrderedHash.Put(data, ParamsOf(keys.value, line), LastCell(line));
          LoadStep(keys.value, rows, i);
        }
      }
      LoadedAll(rows, data);
      simdata := data;
    }

    /** transpose_simdata: mark every value of every setting, then replace each value hash by its entry. */
    method TransposeSimdata() returns (r: Result<OrderedHash.Hash<Cell, Entry>, string>)
      ensures r == Transposed(simdata)
    {
      var data := simdata;
      if data == [] {
        return Err(NoFirstKey);
      }
      var keys := OrderedHash.Keys(data[0].0);
      var t := FreshTable(keys);
      var settings := OrderedHash.Keys(data);
      for i := 0 to |settings|
        invariant MarkAll(FreshTable(keys), Flatten(settings[..i])) == Some(t)
      {
        var marked := MarkSetting(FreshTable(keys), Flatten(settings[..i]), settings[i], t);
        FlattenPrefixSnoc(settings, i);
        if marked.None? {
          TransposedFailure(data, i + 1);
          return Err(NoSuchParameter);
        }
        t := marked.value;
      }
      TransposedSuccess(data, t);
      var out := FinishTable(t);
      r := Ok(out);
    }

    /** run: the loaded table together with the given parameters. */
    function Run(params: Params): (r: RunResult)
      reads this
      ensures r.simdata == simdata && r.params == params
    {
      RunResult(simdata, params)
    }
  }
}
