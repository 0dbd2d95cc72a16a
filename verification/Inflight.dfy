/** A worker's unacked batches (internal/inflight/index.go): an ack pops the head
    while its table is acked through it. */
module Inflight {
  import opened Text
  import opened Order
  import opened PositionOrder

  /** One batch in flight. `high` is its commit position; a `marker` closes a
      snapshot window; a `partial` batch does not end its table's rows of a
      transaction and carries the previous transaction's position. */
  datatype Batch = Batch(id: nat, table: string, high: Option<Position>, marker: bool, partial: bool)

  datatype Index = Index(head: seq<Batch>, acked: map<string, Position>)

  predicate Advances(pos: Position, cur: Position) {
    Cmp(pos, cur) != INCOMPARABLE && Cmp(pos, cur) > 0
  }

  predicate CoveredBy(pos: Position, cur: Position) {
    Cmp(pos, cur) != INCOMPARABLE && Cmp(pos, cur) <= 0
  }

  /** An ack of the batch's table lets it leave the head. */
  predicate Pops(b: Batch, acked: map<string, Position>) {
    && !b.marker
    && b.table in acked
    && (b.high.Some? ==>
          CoveredBy(b.high.value, acked[b.table]) && (b.partial ==> Advances(acked[b.table], b.high.value)))
  }

  function PopCovered(head: seq<Batch>, acked: map<string, Position>): seq<Batch> {
    if head != [] && Pops(head[0], acked) then PopCovered(head[1..], acked) else head
  }

  function Acked(acked: map<string, Position>, table: string, pos: Position): map<string, Position> {
    if table !in acked || Advances(pos, acked[table]) then acked[table := pos] else acked
  }

  function Truncated(ix: Index, table: string, pos: Position): Index {
    var acked := Acked(ix.acked, table, pos);
    Index(PopCovered(ix.head, acked), acked)
  }

  function WithoutMarker(head: seq<Batch>, id: nat): seq<Batch> {
    if head == [] then []
    else if head[0].id == id && head[0].marker then head[1..]
    else [head[0]] + WithoutMarker(head[1..], id)
  }

  function MarkerReleased(ix: Index, id: nat): Index {
    ix.(head := PopCovered(WithoutMarker(ix.head, id), ix.acked))
  }

  /** What does not pop stays. */
  lemma {:induction false} KeptUnlessPopped(head: seq<Batch>, acked: map<string, Position>, b: Batch)
    requires b in head && !Pops(b, acked)
    ensures b in PopCovered(head, acked)
    decreases |head|
  {
    if Pops(head[0], acked) { KeptUnlessPopped(head[1..], acked, b); }
  }

  lemma {:induction false} KeptUnlessMarker(head: seq<Batch>, id: nat, b: Batch)
    requires b in head && !b.marker
    ensures b in WithoutMarker(head, id)
    decreases |head|
  {
    if !(head[0].id == id && head[0].marker) && b != head[0] { KeptUnlessMarker(head[1..], id, b); }
  }

  // ------------------------------------------------------- what leaves, exactly

  /** The batch stays at the head: a marker, or its table is not acked through it; a
      partial one until its table is acked beyond it. */
  predicate Stays(b: Batch, acked: map<string, Position>) {
    || b.marker
    || b.table !in acked
    || (b.high.Some? && (!Holds(acked[b.table], b.high.value) ||
                         (b.partial && Holds(b.high.value, acked[b.table]))))
  }

  lemma PopsUnlessStays(b: Batch, acked: map<string, Position>)
    ensures Pops(b, acked) <==> !Stays(b, acked)
  {
    if b.table in acked && b.high.Some? {
      CmpIsContainment(b.high.value, acked[b.table]);
      CmpIsContainment(acked[b.table], b.high.value);
    }
  }

  /** What leaves is a front of the head no batch of which stays, and the first batch
      left, if any, does. */
  ghost predicate Popped(head: seq<Batch>, acked: map<string, Position>, n: nat, rest: seq<Batch>) {
    && n <= |head| && rest == head[n..]
    && (forall i :: 0 <= i < n ==> !Stays(head[i], acked))
    && (rest != [] ==> Stays(rest[0], acked))
  }

  lemma {:induction false} FrontLeaves(head: seq<Batch>, acked: map<string, Position>) returns (n: nat)
    ensures Popped(head, acked, n, PopCovered(head, acked))
    decreases |head|
  {
    n := 0;
    if head != [] {
      PopsUnlessStays(head[0], acked);
      if Pops(head[0], acked) {
        n := FrontLeaves(head[1..], acked);
        n := n + 1;
        assert forall i :: 0 < i < n ==> head[i] == head[1..][i - 1];
      }
    }
  }

  /** An ack moves its table's position to the later of the two, stays where the two
      have no order, and touches no other table. */
  lemma AckRecords(acked: map<string, Position>, table: string, pos: Position)
    ensures var next := Acked(acked, table, pos);
      && table in next && next - {table} == acked - {table}
      && (table !in acked ==> next[table] == pos)
      && (table in acked ==>
            next[table] == if Holds(pos, acked[table]) && !Holds(acked[table], pos) then pos else acked[table])
  {
    if table in acked { CmpIsContainment(pos, acked[table]); }
  }

  function IdsOf(bs: seq<Batch>): (r: seq<nat>)
    ensures |r| == |bs| && forall i :: 0 <= i < |r| ==> r[i] == bs[i].id
  {
    seq(|bs|, i requires 0 <= i < |bs| => bs[i].id)
  }

  class PositionIndex {
    var head: seq<Batch>
    var acked: map<string, Position>

    ghost function View(): Index
      reads this
    {
      Index(head, acked)
    }

    constructor ()
      ensures View() == Index([], map[])
    {
      head, acked := [], map[];
    }

    method Add(b: Batch)
      modifies this
      ensures head == old(head) + [b] && acked == old(acked)
    {
      head := head + [b];
    }

    /** The popped ids, in order, are the front of the old head. */
    method PopCoveredLocked() returns (popped: seq<nat>)
      modifies this
      ensures acked == old(acked) && head == PopCovered(old(head), acked)
      ensures |popped| + |head| == |old(head)|
      ensures forall i :: 0 <= i < |popped| ==> popped[i] == old(head)[i].id && Pops(old(head)[i], acked)
      ensures head == old(head)[|popped|..]
    {
      popped := [];
      while |head| > 0 && Pops(head[0], acked)
        invariant acked == old(acked)
        invariant |popped| + |head| == |old(head)| && head == old(head)[|popped|..]
        invariant PopCovered(head, acked) == PopCovered(old(head), acked)
        invariant forall i :: 0 <= i < |popped| ==> popped[i] == old(head)[i].id && Pops(old(head)[i], acked)
        decreases |head|
      {
        popped := popped + [head[0].id];
        head := head[1..];
      }
    }

    method Truncate(table: string, pos: Position) returns (popped: seq<nat>)
      modifies this
      ensures View() == Truncated(old(View()), table, pos)
      ensures |popped| <= |old(head)| && popped == IdsOf(old(head)[..|popped|])
      ensures Popped(old(head), acked, |popped|, head)
    {
      if table !in acked || Advances(pos, acked[table]) {
        acked := acked[table := pos];
      }
      popped := PopCoveredLocked();
      ghost var n := FrontLeaves(old(head), acked);
      assert |head| == |old(head)[n..]|;
    }

    method RemoveMarker(id: nat) returns (popped: seq<nat>)
      modifies this
      ensures acked == old(acked) && head == WithoutMarker(old(head), id)
      ensures popped == if exists b :: b in old(head) && b.id == id && b.marker then [id] else []
    {
      for i := 0 to |head|
        invariant head == old(head) && acked == old(acked)
        invariant forall j :: 0 <= j < i ==> !(head[j].id == id && head[j].marker)
      {
        if head[i].id == id && head[i].marker {
          FirstMarker(head, id, i);
          head := head[..i] + head[i + 1..];
          return [id];
        }
      }
      FirstMarker(head, id, |head|);
      popped := [];
    }

    method ReleaseMarker(id: nat) returns (popped: seq<nat>)
      modifies this
      ensures View() == MarkerReleased(old(View()), id)
      ensures var without := WithoutMarker(old(head), id);
        && |head| <= |without| && Popped(without, acked, |without| - |head|, head)
        && popped == (if exists b :: b in old(head) && b.id == id && b.marker then [id] else [])
                     + IdsOf(without[..|without| - |head|])
    {
      popped := RemoveMarker(id);
      ghost var without := head;
      var more := PopCoveredLocked();
      popped := popped + more;
      ghost var n := FrontLeaves(without, acked);
      assert |head| == |without[n..]|;
    }
  }

  lemma {:induction false} FirstMarker(head: seq<Batch>, id: nat, i: nat)
    requires i <= |head|
    requires forall j :: 0 <= j < i ==> !(head[j].id == id && head[j].marker)
    requires i < |head| ==> head[i].id == id && head[i].marker
    ensures WithoutMarker(head, id) == if i < |head| then head[..i] + head[i + 1..] else head
    decreases i
  {
    if i > 0 { FirstMarker(head[1..], id, i - 1); }
  }
}
