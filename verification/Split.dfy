/** Split by owner (internal/columnar/split.go): a batch's rows go to the owner of
    their key, and the owners apply their shares in any interleaving. */
module Split {
  import opened Text
  import opened Key
  import opened Keyed

  /** The indices bucketed for p, in order. */
  function IndicesOf(owner: seq<int>, p: int): (r: seq<nat>)
    ensures forall i :: 0 <= i < |r| ==> r[i] < |owner|
  {
    if owner == [] then []
    else
      var n := |owner| - 1;
      IndicesOf(owner[..n], p) + if owner[n] == p then [n] else []
  }

  /** Arrow's Take: the rows at the given indices. */
  function Take(rows: seq<Row>, idxs: seq<nat>): (r: seq<Row>)
    requires forall i :: 0 <= i < |idxs| ==> idxs[i] < |rows|
    ensures |r| == |idxs|
  {
    seq(|idxs|, i requires 0 <= i < |idxs| => rows[idxs[i]])
  }

  lemma {:induction false} TakeIsTagged(rows: seq<Row>, owner: seq<int>, p: int)
    requires |rows| == |owner|
    ensures Take(rows, IndicesOf(owner, p)) == Tagged(rows, owner, p)
    decreases |rows|
  {
    if rows != [] {
      var n := |rows| - 1;
      TakeIsTagged(rows[..n], owner[..n], p);
      var idxs := IndicesOf(owner[..n], p);
      TakeOneMore(rows, idxs, n);
      if owner[n] != p { assert idxs + [] == idxs; }
    }
  }

  lemma TakeOneMore(rows: seq<Row>, idxs: seq<nat>, n: nat)
    requires n < |rows| && forall i :: 0 <= i < |idxs| ==> idxs[i] < n
    ensures Take(rows, idxs) == Take(rows[..n], idxs)
    ensures Take(rows, idxs + [n]) == Take(rows[..n], idxs) + [rows[n]]
  {
  }

  /** When every index went to p, its rows are the whole batch. */
  lemma {:induction false} AllTagged(rows: seq<Row>, owner: seq<int>, p: int)
    requires |rows| == |owner|
    ensures |IndicesOf(owner, p)| <= |owner|
    ensures |IndicesOf(owner, p)| == |owner| ==> Tagged(rows, owner, p) == rows
    decreases |rows|
  {
    if rows != [] {
      var n := |rows| - 1;
      AllTagged(rows[..n], owner[..n], p);
      assert rows == rows[..n] + [rows[n]];
    }
  }

  /** SplitByOwner: one pass buckets the row indices, a second takes each owner's
      rows; an owner with none gets nothing, and an index outside the owners is
      skipped. */
  method SplitByOwner(rows: seq<Row>, owner: seq<int>, nOwners: nat) returns (out: seq<Option<seq<Row>>>)
    requires |owner| == |rows|
    ensures |out| == nOwners
    ensures forall p :: 0 <= p < nOwners ==>
      out[p] == var share := Tagged(rows, owner, p); if share == [] then None else Some(share)
  {
    var builders: seq<seq<nat>> := seq(nOwners, p => []);
    for i := 0 to |owner|
      invariant |builders| == nOwners
      invariant forall p :: 0 <= p < nOwners ==> builders[p] == IndicesOf(owner[..i], p)
    {
      var o := owner[i];
      assert owner[..i + 1][..i] == owner[..i];
      if 0 <= o < nOwners { builders := builders[o := builders[o] + [i]]; }
    }
    assert owner[..|owner|] == owner;
    out := [];
    for p := 0 to nOwners
      invariant |out| == p
      invariant forall q :: 0 <= q < p ==>
        out[q] == var share := Tagged(rows, owner, q); if share == [] then None else Some(share)
    {
      var b := builders[p];
      TakeIsTagged(rows, owner, p);
      AllTagged(rows, owner, p);
      if |b| == 0 {
        out := out + [None];
      } else if |b| == |rows| {
        out := out + [Some(rows)];
      } else {
        out := out + [Some(Take(rows, b))];
      }
    }
  }

  // ----------------------------------------------------------- conservation

  /** A share's indices are p's own, in batch order. */
  lemma {:induction false} IndicesOwned(owner: seq<int>, p: int, j: nat)
    requires j < |IndicesOf(owner, p)|
    ensures IndicesOf(owner, p)[j] < |owner| && owner[IndicesOf(owner, p)[j]] == p
    ensures j > 0 ==> IndicesOf(owner, p)[j - 1] < IndicesOf(owner, p)[j]
    decreases |owner|
  {
    var n := |owner| - 1;
    var rest := IndicesOf(owner[..n], p);
    if j < |rest| { IndicesOwned(owner[..n], p, j); }
  }

  /** Every row has its place in its owner's share. */
  lemma {:induction false} IndexHome(owner: seq<int>, i: nat) returns (j: nat)
    requires i < |owner|
    ensures j < |IndicesOf(owner, owner[i])| && IndicesOf(owner, owner[i])[j] == i
    decreases |owner|
  {
    var n := |owner| - 1;
    if i == n { j := |IndicesOf(owner[..n], owner[n])|; } else { j := IndexHome(owner[..n], i); }
  }

  /** The first n owners' shares, counted. */
  function ShareSizes(owner: seq<int>, n: nat): nat {
    if n == 0 then 0 else ShareSizes(owner, n - 1) + |IndicesOf(owner, n - 1)|
  }

  lemma {:induction false} ShareSizesMore(owner: seq<int>, n: nat)
    requires owner != []
    ensures var m := |owner| - 1; ShareSizes(owner, n) == ShareSizes(owner[..m], n) + if 0 <= owner[m] < n then 1 else 0
    decreases n
  {
    if n > 0 { ShareSizesMore(owner, n - 1); }
  }

  lemma {:induction false} ShareSizesAdd(owner: seq<int>, n: nat)
    requires forall i :: 0 <= i < |owner| ==> 0 <= owner[i] < n
    ensures ShareSizes(owner, n) == |owner|
    decreases |owner|
  {
    if owner == [] {
      NoShares(n);
    } else {
      ShareSizesAdd(owner[..|owner| - 1], n);
      ShareSizesMore(owner, n);
    }
  }

  lemma {:induction false} NoShares(n: nat)
    ensures ShareSizes([], n) == 0
    decreases n
  {
    if n > 0 { NoShares(n - 1); }
  }

  /** The shares partition the rows: row i is in its owner's share, in no other
      place of any share, and the shares together are as many as the rows. */
  lemma SharesPartitionRows(rows: seq<Row>, owner: seq<int>, n: nat, i: nat)
    requires i < |rows| == |owner| && forall k :: 0 <= k < |owner| ==> 0 <= owner[k] < n
    ensures ShareSizes(owner, n) == |rows|
    ensures exists j ::
      && 0 <= j < |IndicesOf(owner, owner[i])| == |Tagged(rows, owner, owner[i])|
      && IndicesOf(owner, owner[i])[j] == i && Tagged(rows, owner, owner[i])[j] == rows[i]
    ensures forall p, j :: p != owner[i] && 0 <= j < |IndicesOf(owner, p)| ==> IndicesOf(owner, p)[j] != i
  {
    ShareSizesAdd(owner, n);
    var j := IndexHome(owner, i);
    TakeIsTagged(rows, owner, owner[i]);
    assert IndicesOf(owner, owner[i])[j] == i && Tagged(rows, owner, owner[i])[j] == rows[i];
    forall p, j | p != owner[i] && 0 <= j < |IndicesOf(owner, p)| ensures IndicesOf(owner, p)[j] != i {
      IndicesOwned(owner, p, j);
    }
  }

  // ------------------------------------------------------------ interleaving

  /** ms is some interleaving of the owners' shares: row i comes from share
      tags[i], each share in its own order. */
  ghost predicate Interleaves(ms: seq<Row>, tags: seq<int>, rows: seq<Row>, owner: seq<int>, n: nat) {
    && |ms| == |tags| && |rows| == |owner|
    && (forall i :: 0 <= i < |tags| ==> 0 <= tags[i] < n)
    && forall p :: 0 <= p < n ==> Tagged(ms, tags, p) == Tagged(rows, owner, p)
  }

  /** The owner is a function of the key alone, so any interleaving of the shares
      leaves a keyed table exactly as the source batch does. */
  lemma AnyInterleavingAgrees(ms: seq<Row>, tags: seq<int>, rows: seq<Row>, owner: seq<int>, n: nat,
                              ownerOf: seq<Value> -> int, t: Table)
    requires Interleaves(ms, tags, rows, owner, n)
    requires forall k :: 0 <= ownerOf(k) < n
    requires forall i :: 0 <= i < |rows| ==> owner[i] == ownerOf(rows[i].key)
    ensures Apply(ms, t) == Apply(rows, t)
  {
    forall k ensures FateIn(ms, k) == FateIn(rows, k) {
      var p := ownerOf(k);
      forall i | 0 <= i < |ms| && ms[i].key == k ensures tags[i] == p {
        TaggedFrom(ms, tags, tags[i], ms[i]);
        TaggedFrom(rows, owner, tags[i], ms[i]);
        assert ms[i] in Tagged(ms, tags, tags[i]);
      }
      TaggedDecides(ms, tags, p, k);
      TaggedDecides(rows, owner, p, k);
    }
    SameFates(ms, rows, t);
  }
}
