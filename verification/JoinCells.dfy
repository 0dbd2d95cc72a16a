/** What a joined row shows under each column's name, and which rows each written
    join type keeps, told by the reference's rows. */
module JoinCells {
  import opened Text
  import opened Join

  /** The event's cell that the reference is joined on. */
  function KeyCell(names: seq<Name>, row: seq<Cell>, ref: Ref): Cell
    requires |row| == |names| && ref.onKey in names
  {
    Under(names, row, ref.onKey)
  }

  /** The reference holds the rows of `keys`, or none while it is cold or empty. */
  ghost predicate RowsOf(ref: Ref, keys: seq<Cell>) {
    if ref.image.Some? then Indexes(ref.image.value.index, keys) else keys == []
  }

  ghost predicate Matches(names: seq<Name>, row: seq<Cell>, ref: Ref, keys: seq<Cell>, i: nat)
    requires |row| == |names| && ref.onKey in names
  {
    RowMatches(keys, KeyCell(names, row, ref), i)
  }

  ghost predicate HasMatch(names: seq<Name>, row: seq<Cell>, ref: Ref, keys: seq<Cell>)
    requires |row| == |names| && ref.onKey in names
  {
    AnyMatches(keys, KeyCell(names, row, ref))
  }

  // --------------------------------------------------------- the written types

  function Written(d: Declared): Ref { Ref(d.onKey, NormalizeJoinType(d.joinType), d.dests, d.image) }

  /** Which rows a written join type keeps. A semi join keeps deletes and rows with a
      match, an anti join deletes and rows without, both as they came; an inner join
      deletes and rows with a match, and anything else is a left join, which keeps
      every row. */
  lemma WrittenTypeKeeps(names: seq<Name>, row: seq<Cell>, del: bool, d: Declared, keys: seq<Cell>)
    requires |row| == |names| && d.onKey in names && WellFormed(Written(d)) && RowsOf(Written(d), keys)
    ensures var r, hit := RowStep(names, row, del, Written(d)), HasMatch(names, row, Written(d), keys);
      && (d.joinType == "left semi" ==> r == if del || hit then Kept(row) else Gone)
      && (d.joinType == "left anti" ==> r == if del || !hit then Kept(row) else Gone)
      && (d.joinType == "inner" ==> (r.Gone? <==> !del && !hit))
      && (d.joinType != "left semi" && d.joinType != "left anti" && d.joinType != "inner" ==> !r.Gone?)
  {
    var ref := Written(d);
    var c := KeyCell(names, row, ref);
    if ref.image.Some? { LookupIsSearch(ref.image.value.index, keys, c); }
  }

  /** A row, so matched or not, stays under a join type as written. */
  ghost predicate Stays(text: string, del: bool, hit: bool) {
    if text == "inner" || text == "left semi" then del || hit
    else if text == "left anti" then del || !hit
    else true
  }

  /** Reference k lets the row pass, as the references before it left the row. */
  ghost predicate Passes(names: seq<Name>, row: seq<Cell>, del: bool, ds: seq<Declared>, k: nat, keys: seq<Cell>)
    requires |row| == |names| && k < |ds| && AllWellFormed(Resolve(ds[..k]))
  {
    var refs := Resolve(ds[..k]);
    && RowJoin(names, row, del, refs).Kept?
    && ds[k].onKey in JoinNames(names, refs)
    && Stays(ds[k].joinType, del,
             HasMatch(JoinNames(names, refs), RowJoin(names, row, del, refs).cells, Written(ds[k]), keys))
  }

  ghost predicate TablesOf(ds: seq<Declared>, tables: seq<seq<Cell>>) {
    |tables| == |ds| && forall k :: 0 <= k < |ds| ==> RowsOf(Written(ds[k]), tables[k])
  }

  /** The last reference meets the row the others left. */
  lemma {:induction false} LastStep(names: seq<Name>, row: seq<Cell>, del: bool, refs: seq<Ref>, last: Ref)
    requires |row| == |names| && AllWellFormed(refs) && WellFormed(last)
    ensures AllWellFormed(refs + [last])
    ensures RowJoin(names, row, del, refs + [last]) ==
      match RowJoin(names, row, del, refs)
      case Kept(cells) => RowStep(JoinNames(names, refs), cells, del, last)
      case r => r
    decreases |refs|
  {
    if |refs| > 0 {
      assert (refs + [last])[1..] == refs[1..] + [last];
      if RowStep(names, row, del, refs[0]).Kept? {
        LastStep(NextNames(names, refs[0]), RowStep(names, row, del, refs[0]).cells, del, refs[1..], last);
      }
    } else {
      assert refs + [last] == [last] && [last][1..] == [];
    }
  }

  lemma ResolveLess(ds: seq<Declared>, n: nat)
    requires n <= |ds| && AllWellFormed(Resolve(ds))
    ensures AllWellFormed(Resolve(ds[..n]))
    ensures n < |ds| ==> Resolve(ds[..n + 1]) == Resolve(ds[..n]) + [Written(ds[n])] && WellFormed(Written(ds[n]))
  {
    assert forall r :: 0 <= r < n ==> Resolve(ds[..n])[r] == Resolve(ds)[r];
    if n < |ds| { assert Resolve(ds)[n] == Written(ds[n]); }
  }

  lemma LastPasses(names: seq<Name>, row: seq<Cell>, del: bool, ds: seq<Declared>, k: nat, keys: seq<Cell>)
    requires |row| == |names| && k < |ds| && AllWellFormed(Resolve(ds[..k]))
    requires WellFormed(Written(ds[k])) && RowsOf(Written(ds[k]), keys)
    ensures AllWellFormed(Resolve(ds[..k]) + [Written(ds[k])])
    ensures var r := RowJoin(names, row, del, Resolve(ds[..k]) + [Written(ds[k])]);
      !r.Bad? ==> (r.Kept? <==> Passes(names, row, del, ds, k, keys))
  {
    var refs := Resolve(ds[..k]);
    LastStep(names, row, del, refs, Written(ds[k]));
    var before := RowJoin(names, row, del, refs);
    if before.Kept? && ds[k].onKey in JoinNames(names, refs) {
      WrittenTypeKeeps(JoinNames(names, refs), before.cells, del, ds[k], keys);
    }
  }

  ghost predicate Sane(names: seq<Name>, row: seq<Cell>, ds: seq<Declared>, tables: seq<seq<Cell>>) {
    |row| == |names| && AllWellFormed(Resolve(ds)) && TablesOf(ds, tables)
  }

  /** What the first n declared references make of the row. */
  ghost function After(names: seq<Name>, row: seq<Cell>, del: bool, ds: seq<Declared>, n: nat): RowResult
    requires |row| == |names| && n <= |ds| && AllWellFormed(Resolve(ds))
  {
    ResolveLess(ds, n);
    RowJoin(names, row, del, Resolve(ds[..n]))
  }

  ghost predicate PassesAt(names: seq<Name>, row: seq<Cell>, del: bool, ds: seq<Declared>, tables: seq<seq<Cell>>,
                           k: nat)
    requires Sane(names, row, ds, tables) && k < |ds|
  {
    ResolveLess(ds, k);
    Passes(names, row, del, ds, k, tables[k])
  }

  lemma NextPasses(names: seq<Name>, row: seq<Cell>, del: bool, ds: seq<Declared>, tables: seq<seq<Cell>>, k: nat)
    requires Sane(names, row, ds, tables) && k < |ds| && !After(names, row, del, ds, k + 1).Bad?
    ensures !After(names, row, del, ds, k).Bad?
    ensures After(names, row, del, ds, k + 1).Kept? <==> PassesAt(names, row, del, ds, tables, k)
    ensures PassesAt(names, row, del, ds, tables, k) ==> After(names, row, del, ds, k).Kept?
  {
    ResolveLess(ds, k);
    LastStep(names, row, del, Resolve(ds[..k]), Written(ds[k]));
    LastPasses(names, row, del, ds, k, tables[k]);
  }

  lemma {:induction false} KeptWhileAllPass(names: seq<Name>, row: seq<Cell>, del: bool, ds: seq<Declared>,
                                            tables: seq<seq<Cell>>, n: nat)
    requires Sane(names, row, ds, tables) && n <= |ds| && !After(names, row, del, ds, n).Bad?
    ensures After(names, row, del, ds, n).Kept? <==>
      forall k :: 0 <= k < n ==> PassesAt(names, row, del, ds, tables, k)
    decreases n
  {
    if n > 0 {
      NextPasses(names, row, del, ds, tables, n - 1);
      KeptWhileAllPass(names, row, del, ds, tables, n - 1);
    }
  }

  /** A row that fails nothing is kept exactly when every declared reference lets it
      pass. */
  lemma KeptByText(names: seq<Name>, row: seq<Cell>, del: bool, ds: seq<Declared>, tables: seq<seq<Cell>>)
    requires Sane(names, row, ds, tables) && !RowJoin(names, row, del, Resolve(ds)).Bad?
    ensures RowJoin(names, row, del, Resolve(ds)).Kept? <==>
      forall k :: 0 <= k < |ds| ==> PassesAt(names, row, del, ds, tables, k)
  {
    assert ds[..|ds|] == ds;
    KeptWhileAllPass(names, row, del, ds, tables, |ds|);
  }

  // ------------------------------------------------------------------- misses

  /** A miss is a row, no delete, that no reference row matches. */
  lemma MissIsUnmatched(names: seq<Name>, row: seq<Cell>, del: bool, ref: Ref, keys: seq<Cell>)
    requires |row| == |names| && ref.onKey in names && RowsOf(ref, keys)
    ensures Misses(names, row, del, ref) <==> !del && !HasMatch(names, row, ref, keys)
  {
    if ref.image.Some? { LookupIsSearch(ref.image.value.index, keys, KeyCell(names, row, ref)); }
  }

  ghost predicate AllInner(refs: seq<Ref>) { forall r :: 0 <= r < |refs| ==> refs[r].kind == Inner }

  lemma {:induction false} InnerMissDrops(names: seq<Name>, row: seq<Cell>, del: bool, refs: seq<Ref>)
    requires AllWellFormed(refs) && |row| == |names| && AllInner(refs) && !RowJoin(names, row, del, refs).Bad?
    ensures RowMisses(names, row, del, refs) == if RowJoin(names, row, del, refs).Gone? then 1 else 0
    decreases |refs|
  {
    if |refs| > 0 && RowStep(names, row, del, refs[0]).Kept? {
      InnerMissDrops(NextNames(names, refs[0]), RowStep(names, row, del, refs[0]).cells, del, refs[1..]);
    }
  }

  lemma MissedOrKept(b: Batch, refs: seq<Ref>, i: nat)
    requires ValidBatch(b) && AllWellFormed(refs) && AllInner(refs) && i < |b.dels|
    requires RestAt(Opening(b), refs, i) != Bad
    ensures MissesAt(Opening(b), refs, i) == if Survivors(b, refs)[i] then 0 else 1
  {
    InnerMissDrops(b.names, RowAt(b.cols, i), b.dels[i], refs);
  }

  lemma {:induction false} InnerMissesSum(b: Batch, refs: seq<Ref>, n: nat)
    requires ValidBatch(b) && AllWellFormed(refs) && n <= |b.dels|
    requires forall i :: 0 <= i < n ==> MissesAt(Opening(b), refs, i) == if Survivors(b, refs)[i] then 0 else 1
    ensures TotalMisses(Opening(b), refs, n) + |Picks(Survivors(b, refs), n)| == n
    decreases n
  {
    if n > 0 { InnerMissesSum(b, refs, n - 1); }
  }

  /** Under inner joins alone, a batch's misses are the rows it drops. */
  lemma InnerMissesAreDrops(b: Batch, refs: seq<Ref>, r: JoinResult)
    requires ValidBatch(b) && AllWellFormed(refs) && AllInner(refs) && Agrees(b, refs, r)
    requires !SomeRowFails(Opening(b), refs)
    ensures r.misses == r.dropped
  {
    forall i | 0 <= i < |b.dels|
      ensures MissesAt(Opening(b), refs, i) == if Survivors(b, refs)[i] then 0 else 1
    {
      MissedOrKept(b, refs, i);
    }
    InnerMissesSum(b, refs, |b.dels|);
  }

  // -------------------------------------------------------- one reference's cells

  /** The cell a reference gives a row under its destination d. */
  ghost predicate Gives(names: seq<Name>, row: seq<Cell>, del: bool, ref: Ref, keys: seq<Cell>, d: nat, c: Cell)
    requires |row| == |names| && ref.onKey in names && d < |ref.dests|
  {
    if del || !HasMatch(names, row, ref, keys) then c == Null
    else exists i: nat :: Matches(names, row, ref, keys, i) && HoldsAt(ref, d, i, c)
  }

  /** Reference row i's value for destination d is c. */
  ghost predicate HoldsAt(ref: Ref, d: nat, i: nat, c: Cell) {
    && ref.image.Some? && d < |ref.image.value.columns| && i < |ref.image.value.columns[d]|
    && ref.image.value.columns[d][i] == Some(c)
  }

  /** A kept row shows, under each destination's name, the matching reference row's
      value for it, or NULL without a match; every other column is as it was. */
  lemma StepShows(names: seq<Name>, row: seq<Cell>, del: bool, ref: Ref, keys: seq<Cell>, d: nat)
    requires |row| == |names| && ref.onKey in names && WellFormed(ref) && RowsOf(ref, keys) && Emits(ref.kind)
    requires RowStep(names, row, del, ref).Kept? && d < |ref.dests| && ref.dests[d] !in ref.dests[d + 1..]
    ensures ref.dests[d] in NextNames(names, ref)
    ensures var cells := RowStep(names, row, del, ref).cells;
      Gives(names, row, del, ref, keys, d, Under(NextNames(names, ref), cells, ref.dests[d]))
  {
    var key := KeyOf(names, row, ref);
    if ref.image.Some? { LookupIsSearch(ref.image.value.index, keys, KeyCell(names, row, ref)); }
    var vals := if !del && Known(ref, key) then Matched(ref, key).value else Nulls(|ref.dests|);
    assert RowStep(names, row, del, ref).cells == Put(names, row, ref.dests, vals);
    PutUnder(names, row, ref.dests, vals, d);
    if !del && Known(ref, key) {
      var i := ref.image.value.index[key];
      assert Matches(names, row, ref, keys, i) && HoldsAt(ref, d, i, vals[d]);
    }
  }

  lemma StepLeaves(names: seq<Name>, row: seq<Cell>, del: bool, ref: Ref, name: Name)
    requires |row| == |names| && WellFormed(ref) && RowStep(names, row, del, ref).Kept?
    requires name in names && (Emits(ref.kind) ==> name !in ref.dests)
    ensures name in NextNames(names, ref)
    ensures Under(NextNames(names, ref), RowStep(names, row, del, ref).cells, name) == Under(names, row, name)
  {
    if Emits(ref.kind) {
      var key := KeyOf(names, row, ref);
      var vals := if !del && Known(ref, key) then Matched(ref, key).value else Nulls(|ref.dests|);
      PutElsewhere(names, row, ref.dests, vals, name);
    }
  }

  // ------------------------------------------------------------ every reference

  /** No reference of the list writes under the name. */
  ghost predicate NoneWrites(refs: seq<Ref>, name: Name) {
    forall r :: 0 <= r < |refs| && Emits(refs[r].kind) ==> name !in refs[r].dests
  }

  /** A column no reference writes is as the event brought it. */
  lemma {:induction false} JoinLeaves(names: seq<Name>, row: seq<Cell>, del: bool, refs: seq<Ref>, name: Name)
    requires AllWellFormed(refs) && |row| == |names| && RowJoin(names, row, del, refs).Kept?
    requires name in names && NoneWrites(refs, name)
    ensures name in JoinNames(names, refs)
    ensures Under(JoinNames(names, refs), RowJoin(names, row, del, refs).cells, name) == Under(names, row, name)
    decreases |refs|
  {
    if |refs| > 0 {
      StepLeaves(names, row, del, refs[0], name);
      var cells := RowStep(names, row, del, refs[0]).cells;
      assert forall r :: 0 <= r < |refs[1..]| ==> refs[1..][r] == refs[r + 1];
      JoinLeaves(NextNames(names, refs[0]), cells, del, refs[1..], name);
    }
  }

  /** The row as reference k meets it is what the references before it left. */
  lemma {:induction false} JoinSplits(names: seq<Name>, row: seq<Cell>, del: bool, refs: seq<Ref>, k: nat)
    requires AllWellFormed(refs) && |row| == |names| && k <= |refs| && RowJoin(names, row, del, refs).Kept?
    ensures AllWellFormed(refs[..k]) && AllWellFormed(refs[k..]) && RowJoin(names, row, del, refs[..k]).Kept?
    ensures JoinNames(JoinNames(names, refs[..k]), refs[k..]) == JoinNames(names, refs)
    ensures var before := RowJoin(names, row, del, refs[..k]).cells;
      RowJoin(JoinNames(names, refs[..k]), before, del, refs[k..]) == RowJoin(names, row, del, refs)
    decreases |refs|
  {
    if k == 0 {
      assert refs[..0] == [] && refs[0..] == refs;
    } else {
      var cells := RowStep(names, row, del, refs[0]).cells;
      assert AllWellFormed(refs[1..]);
      JoinSplits(NextNames(names, refs[0]), cells, del, refs[1..], k - 1);
      assert refs[..k][1..] == refs[1..][..k - 1] && refs[..k][0] == refs[0] && refs[1..][k - 1..] == refs[k..];
    }
  }

  /** A row that survives every reference shows, under a destination of reference k
      that no later one writes again, the value of the row of k that matched it. */
  lemma JoinShows(names: seq<Name>, row: seq<Cell>, del: bool, refs: seq<Ref>, k: nat, keys: seq<Cell>, d: nat)
    requires AllWellFormed(refs) && |row| == |names| && RowJoin(names, row, del, refs).Kept?
    requires k < |refs| && RowsOf(refs[k], keys) && Emits(refs[k].kind)
    requires d < |refs[k].dests| && refs[k].dests[d] !in refs[k].dests[d + 1..]
    requires NoneWrites(refs[k + 1..], refs[k].dests[d])
    ensures AllWellFormed(refs[..k]) && RowJoin(names, row, del, refs[..k]).Kept?
    ensures refs[k].onKey in JoinNames(names, refs[..k]) && refs[k].dests[d] in JoinNames(names, refs)
    ensures var before := RowJoin(names, row, del, refs[..k]).cells;
      Gives(JoinNames(names, refs[..k]), before, del, refs[k], keys, d,
            Under(JoinNames(names, refs), RowJoin(names, row, del, refs).cells, refs[k].dests[d]))
  {
    JoinSplits(names, row, del, refs, k);
    var met, before := JoinNames(names, refs[..k]), RowJoin(names, row, del, refs[..k]).cells;
    var rest := refs[k..];
    assert rest[0] == refs[k] && rest[1..] == refs[k + 1..];
    StepShows(met, before, del, refs[k], keys, d);
    JoinLeaves(NextNames(met, refs[k]), RowStep(met, before, del, refs[k]).cells, del, refs[k + 1..], refs[k].dests[d]);
  }

  /** The joined batch: row p of the result is row picks[p] of the batch, joined so. */
  lemma ColumnsShow(b: Batch, refs: seq<Ref>, r: JoinResult, p: nat, k: nat, keys: seq<Cell>, d: nat)
    requires ValidBatch(b) && AllWellFormed(refs) && Agrees(b, refs, r) && r.Joined?
    requires p < |Picks(Survivors(b, refs), |b.dels|)|
    requires k < |refs| && RowsOf(refs[k], keys) && Emits(refs[k].kind)
    requires d < |refs[k].dests| && refs[k].dests[d] !in refs[k].dests[d + 1..]
    requires NoneWrites(refs[k + 1..], refs[k].dests[d])
    ensures var i := Picks(Survivors(b, refs), |b.dels|)[p];
      var row := RowAt(b.cols, i);
      && AllWellFormed(refs[..k]) && RowJoin(b.names, row, b.dels[i], refs[..k]).Kept?
      && refs[k].onKey in JoinNames(b.names, refs[..k]) && refs[k].dests[d] in r.names
      && Gives(JoinNames(b.names, refs[..k]), RowJoin(b.names, row, b.dels[i], refs[..k]).cells, b.dels[i], refs[k],
               keys, d, r.cols[Locate(r.names, refs[k].dests[d])][p])
  {
    var i := Picks(Survivors(b, refs), |b.dels|)[p];
    var row := RowAt(b.cols, i);
    assert RowJoin(b.names, row, b.dels[i], refs) == Kept(RowAt(r.cols, p));
    JoinShows(b.names, row, b.dels[i], refs, k, keys, d);
    assert Under(r.names, RowAt(r.cols, p), refs[k].dests[d]) == r.cols[Locate(r.names, refs[k].dests[d])][p];
  }

  /** And a column no reference writes is the event's own. */
  lemma ColumnsLeave(b: Batch, refs: seq<Ref>, r: JoinResult, p: nat, name: Name)
    requires ValidBatch(b) && AllWellFormed(refs) && Agrees(b, refs, r) && r.Joined?
    requires p < |Picks(Survivors(b, refs), |b.dels|)| && name in b.names && NoneWrites(refs, name)
    ensures name in r.names
    ensures r.cols[Locate(r.names, name)][p] == b.cols[Locate(b.names, name)][Picks(Survivors(b, refs), |b.dels|)[p]]
  {
    var i := Picks(Survivors(b, refs), |b.dels|)[p];
    assert RowJoin(b.names, RowAt(b.cols, i), b.dels[i], refs) == Kept(RowAt(r.cols, p));
    JoinLeaves(b.names, RowAt(b.cols, i), b.dels[i], refs, name);
    assert Under(r.names, RowAt(r.cols, p), name) == r.cols[Locate(r.names, name)][p];
  }
}
