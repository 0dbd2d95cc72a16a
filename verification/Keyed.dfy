/** What a sequence of changes does to a keyed table, and the columnar kernels that
    must not change it (internal/columnar). */
module Keyed {
  import opened Text
  import opened Key

  const OP_INSERT: nat := 0
  const OP_UPDATE: nat := 1
  const OP_DELETE: nat := 2

  /** One change: its key tuple, its operation, and the whole row. */
  datatype Row = Row(key: seq<Value>, op: nat, cells: seq<Value>)

  /** The table a sink keeps: the row under each key. */
  type Table = map<seq<Value>, seq<Value>>

  function ApplyRow(t: Table, r: Row): Table {
    if r.op == OP_DELETE then t - {r.key} else t[r.key := r.cells]
  }

  /** Every change in sequence. */
  function Apply(rows: seq<Row>, t: Table): Table {
    if rows == [] then t else ApplyRow(Apply(rows[..|rows| - 1], t), rows[|rows| - 1])
  }

  // ----------------------------------------------- a key's fate under changes

  datatype Fate = Untouched | Gone | Is(cells: seq<Value>)

  function FateOf(r: Row): Fate { if r.op == OP_DELETE then Gone else Is(r.cells) }

  /** What the changes decide for one key: the last row with that key. */
  function FateIn(rows: seq<Row>, k: seq<Value>): Fate {
    if rows == [] then Untouched
    else if rows[|rows| - 1].key == k then FateOf(rows[|rows| - 1])
    else FateIn(rows[..|rows| - 1], k)
  }

  function Lookup(t: Table, k: seq<Value>): Option<seq<Value>> { if k in t then Some(t[k]) else None }

  function Resolve(f: Fate, before: Option<seq<Value>>): Option<seq<Value>> {
    match f
    case Untouched => before
    case Gone => None
    case Is(cells) => Some(cells)
  }

  lemma {:induction false} ApplyDecides(rows: seq<Row>, t: Table, k: seq<Value>)
    ensures Lookup(Apply(rows, t), k) == Resolve(FateIn(rows, k), Lookup(t, k))
    decreases |rows|
  {
    if rows != [] { ApplyDecides(rows[..|rows| - 1], t, k); }
  }

  lemma SameTable(s: Table, t: Table)
    requires forall k :: Lookup(s, k) == Lookup(t, k)
    ensures s == t
  {
    assert forall k :: k in s <==> k in t by {
      forall k ensures k in s <==> k in t { assert Lookup(s, k) == Lookup(t, k); }
    }
    forall k | k in s ensures s[k] == t[k] { assert Lookup(s, k) == Lookup(t, k); }
  }

  /** Two change lists that decide every key alike leave every table alike. */
  lemma SameFates(rows: seq<Row>, other: seq<Row>, t: Table)
    requires forall k :: FateIn(rows, k) == FateIn(other, k)
    ensures Apply(rows, t) == Apply(other, t)
  {
    forall k ensures Lookup(Apply(rows, t), k) == Lookup(Apply(other, t), k) {
      ApplyDecides(rows, t, k);
      ApplyDecides(other, t, k);
    }
    SameTable(Apply(rows, t), Apply(other, t));
  }

  lemma {:induction false} FateIsLast(rows: seq<Row>, k: seq<Value>, i: nat)
    requires i < |rows| && rows[i].key == k && forall j :: i < j < |rows| ==> rows[j].key != k
    ensures FateIn(rows, k) == FateOf(rows[i])
    decreases |rows|
  {
    if i < |rows| - 1 { FateIsLast(rows[..|rows| - 1], k, i); }
  }

  lemma {:induction false} FateUntouched(rows: seq<Row>, k: seq<Value>)
    requires forall j :: 0 <= j < |rows| ==> rows[j].key != k
    ensures FateIn(rows, k) == Untouched
    decreases |rows|
  {
    if rows != [] { FateUntouched(rows[..|rows| - 1], k); }
  }

  /** Row i is the last with its key. */
  ghost predicate LastOfKey(rows: seq<Row>, i: nat) {
    i < |rows| && forall j :: i < j < |rows| ==> rows[j].key != rows[i].key
  }

  /** The last row of a key rules: a delete leaves the key absent, anything else leaves
      that row's cells; a key no row carries stays as it was. */
  lemma LastRowRules(rows: seq<Row>, t: Table, k: seq<Value>)
    ensures forall i: nat :: LastOfKey(rows, i) && rows[i].key == k ==>
      if rows[i].op == OP_DELETE then k !in Apply(rows, t)
      else k in Apply(rows, t) && Apply(rows, t)[k] == rows[i].cells
    ensures (forall i :: 0 <= i < |rows| ==> rows[i].key != k) ==>
      (k in Apply(rows, t) <==> k in t) && (k in t ==> Apply(rows, t)[k] == t[k])
  {
    ApplyDecides(rows, t, k);
    forall i: nat | LastOfKey(rows, i) && rows[i].key == k ensures FateIn(rows, k) == FateOf(rows[i]) {
      FateIsLast(rows, k, i);
    }
    if forall i :: 0 <= i < |rows| ==> rows[i].key != k { FateUntouched(rows, k); }
  }

  // ------------------------------------------------------- rows by owner

  /** The rows whose tag is p, in order: Arrow's Take over the bucketed indices. */
  function Tagged(rows: seq<Row>, tags: seq<int>, p: int): seq<Row>
    requires |rows| == |tags|
  {
    if rows == [] then []
    else
      var n := |rows| - 1;
      Tagged(rows[..n], tags[..n], p) + if tags[n] == p then [rows[n]] else []
  }

  /** A key all of whose rows carry tag p is decided by those rows alone. */
  lemma {:induction false} TaggedDecides(rows: seq<Row>, tags: seq<int>, p: int, k: seq<Value>)
    requires |rows| == |tags| && forall i :: 0 <= i < |rows| && rows[i].key == k ==> tags[i] == p
    ensures FateIn(Tagged(rows, tags, p), k) == FateIn(rows, k)
    decreases |rows|
  {
    if rows != [] {
      var n := |rows| - 1;
      TaggedDecides(rows[..n], tags[..n], p, k);
      var rest := Tagged(rows[..n], tags[..n], p);
      assert (rest + [rows[n]])[..|rest|] == rest;
      assert rest + [] == rest;
    }
  }

  lemma {:induction false} TaggedFrom(rows: seq<Row>, tags: seq<int>, p: int, r: Row)
    requires |rows| == |tags|
    ensures r in Tagged(rows, tags, p) <==> TaggedRow(rows, tags, p, r)
    decreases |rows|
  {
    if rows != [] {
      var n := |rows| - 1;
      TaggedFrom(rows[..n], tags[..n], p, r);
      TaggedRowOfMore(rows[..n], tags[..n], p, r, rows[n], tags[n]);
      assert rows == rows[..n] + [rows[n]] && tags == tags[..n] + [tags[n]];
    }
  }

  ghost predicate TaggedRow(rows: seq<Row>, tags: seq<int>, p: int, r: Row)
    requires |rows| == |tags|
  {
    exists i :: 0 <= i < |rows| && tags[i] == p && rows[i] == r
  }

  lemma TaggedRowOfMore(rows: seq<Row>, tags: seq<int>, p: int, r: Row, last: Row, tag: int)
    requires |rows| == |tags|
    ensures TaggedRow(rows + [last], tags + [tag], p, r) <==> TaggedRow(rows, tags, p, r) || (tag == p && last == r)
  {
    var rs, ts := rows + [last], tags + [tag];
    if i :| 0 <= i < |rows| && tags[i] == p && rows[i] == r { assert ts[i] == p && rs[i] == r; }
    if tag == p && last == r { assert ts[|rows|] == p && rs[|rows|] == r; }
  }
}
