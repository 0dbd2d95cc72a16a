/** The columnar reference join (internal/enrich) against a row-at-a-time one. */
module Join {
  import opened Text

  // ------------------------------------------------------------------- values

  datatype Name = Name(text: string)

  /** The Go values the key reader yields. Floats, booleans and times compare only
      with themselves, so a code stands for each. */
  datatype Value = Chars(s: string) | Bytes(s: string) | Signed(n: int) | Unsigned(u: nat) | Other(code: nat)

  /** Unread is a non-null cell of a column type the key reader does not know. */
  datatype Cell = Null | Of(value: Value) | Unread(code: nat)

  function Read(c: Cell): Option<Value> {
    match c
    case Of(v) => Some(v)
    case _ => None
  }

  function NormalizeKey(k: Option<Value>): Option<Value> {
    match k
    case Some(Bytes(s)) => Some(Chars(s))
    case Some(Signed(n)) => if n >= 0 then Some(Unsigned(n)) else k
    case _ => k
  }

  function Integer(v: Value): Option<int> {
    match v
    case Signed(n) => Some(n)
    case Unsigned(u) => Some(u)
    case _ => None
  }

  function Content(v: Value): Option<string> {
    match v
    case Chars(s) => Some(s)
    case Bytes(s) => Some(s)
    case _ => None
  }

  /** Equal integers whatever their signedness, equal characters whether text or
      bytes, and otherwise only the same value. */
  predicate SameKey(a: Option<Value>, b: Option<Value>) {
    || a == b
    || (a.Some? && b.Some? && Integer(a.value).Some? && Integer(a.value) == Integer(b.value))
    || (a.Some? && b.Some? && Content(a.value).Some? && Content(a.value) == Content(b.value))
  }

  lemma NormalizeKeyDecides(a: Option<Value>, b: Option<Value>)
    ensures NormalizeKey(a) == NormalizeKey(b) <==> SameKey(a, b)
    ensures NormalizeKey(a) == None <==> a == None
  {
    match a {
      case Some(Signed(n)) => assert NormalizeKey(a).Some?;
      case _ =>
    }
  }

  function KeyAt(c: Cell): Option<Value> { NormalizeKey(Read(c)) }

  // ---------------------------------------------------------- reference images

  type Index = map<Option<Value>, nat>

  /** The non-null rows of the reference's join column have distinct keys. */
  ghost predicate KeysDistinct(keys: seq<Cell>) {
    forall i, j :: 0 <= i < j < |keys| && keys[i] != Null && keys[j] != Null ==> KeyAt(keys[i]) != KeyAt(keys[j])
  }

  /** The index points each non-null row's key at that row, and holds no other. */
  ghost predicate Indexes(index: Index, keys: seq<Cell>) {
    && (forall i :: 0 <= i < |keys| && keys[i] != Null ==> KeyAt(keys[i]) in index && index[KeyAt(keys[i])] == i)
    && (forall k :: k in index ==> index[k] < |keys| && keys[index[k]] != Null && KeyAt(keys[index[k]]) == k)
  }

  /** The key index of a load, or None when a key appears twice. */
  method BuildIndex(keys: seq<Cell>) returns (r: Option<Index>)
    ensures r.Some? <==> KeysDistinct(keys)
    ensures r.Some? ==> Indexes(r.value, keys)
  {
    var index: Index := map[];
    var dups := 0;
    for i := 0 to |keys|
      invariant dups >= 0 && (dups == 0 <==> KeysDistinct(keys[..i]))
      invariant dups == 0 ==> Indexes(index, keys[..i])
      invariant forall j :: 0 <= j < i && keys[j] != Null ==> KeyAt(keys[j]) in index
      invariant forall k :: k in index ==> index[k] < i && keys[index[k]] != Null && KeyAt(keys[index[k]]) == k
    {
      assert keys[..i + 1] == keys[..i] + [keys[i]];
      if keys[i] != Null {
        var k := KeyAt(keys[i]);
        if k in index {
          assert keys[..i + 1][index[k]] == keys[index[k]] && keys[..i + 1][i] == keys[i];
          dups := dups + 1;
        } else {
          if dups > 0 { StillRepeats(keys[..i], keys[i]); }
          index := index[k := i];
        }
      } else if dups > 0 {
        StillRepeats(keys[..i], keys[i]);
      }
    }
    assert keys[..|keys|] == keys;
    if dups > 0 { return None; }
    r := Some(index);
  }

  lemma StillRepeats(keys: seq<Cell>, c: Cell)
    requires !KeysDistinct(keys)
    ensures !KeysDistinct(keys + [c])
  {
    var i, j :| 0 <= i < j < |keys| && keys[i] != Null && keys[j] != Null && KeyAt(keys[i]) == KeyAt(keys[j]);
    var all := keys + [c];
    assert all[i] == keys[i] && all[j] == keys[j];
  }

  /** A NULL event key misses exactly when the key reader knows the reference's join
      column: a non-null cell it cannot read is indexed under the NULL key. */
  lemma NullKeyMisses(index: Index, keys: seq<Cell>)
    requires Indexes(index, keys)
    ensures KeyAt(Null) !in index <==> forall i :: 0 <= i < |keys| ==> !keys[i].Unread?
  {
    if i :| 0 <= i < |keys| && keys[i].Unread? {
      assert KeyAt(keys[i]) == None;
    }
    if None in index {
      NormalizeKeyDecides(Read(keys[index[None]]), None);
      assert keys[index[None]].Unread?;
    }
  }

  /** The failing case: one unreadable key, and a NULL key finds it. */
  lemma NullKeyCanHit()
    ensures var index: Index := map[None := 0];
      KeysDistinct([Unread(0)]) && Indexes(index, [Unread(0)]) && KeyAt(Null) in index
  {
  }

  // --------------------------------------------------------------- references

  datatype Kind = LeftOuter | Inner | LeftSemi | LeftAnti

  function NormalizeJoinType(s: string): Kind {
    if s == "inner" then Inner
    else if s == "left semi" then LeftSemi
    else if s == "left anti" then LeftAnti
    else LeftOuter
  }

  /** columns[d][r] is the cell of reference row r as destination d's declared type
      holds it, or None where that type cannot hold it. */
  datatype Image = Image(index: Index, columns: seq<seq<Option<Cell>>>)

  /** image is None while the reference is cold or empty. */
  datatype Ref = Ref(onKey: Name, kind: Kind, dests: seq<Name>, image: Option<Image>)

  ghost predicate WellFormed(ref: Ref) {
    ref.image.Some? ==>
      && |ref.image.value.columns| == |ref.dests|
      && forall k, d :: k in ref.image.value.index && 0 <= d < |ref.dests| ==>
          ref.image.value.index[k] < |ref.image.value.columns[d]|
  }

  predicate Emits(kind: Kind) { kind.LeftOuter? || kind.Inner? }

  // ------------------------------------------------------- one row at a time

  datatype RowResult = Bad | Gone | Kept(cells: seq<Cell>)

  /** The column a name stands for: the last of that name. */
  function Locate(names: seq<Name>, name: Name): (k: nat)
    requires name in names
    ensures k < |names| && names[k] == name && name !in names[k + 1..]
  {
    var n := |names| - 1;
    if names[n] == name then n else
    assert names == names[..n] + [names[n]];
    var k := Locate(names[..n], name);
    assert names[k + 1..] == names[..n][k + 1..] + [names[n]];
    k
  }

  function PutNames(names: seq<Name>, dests: seq<Name>): (r: seq<Name>)
    ensures |r| >= |names|
    decreases |dests|
  {
    if |dests| == 0 then names
    else PutNames(if dests[0] in names then names else names + [dests[0]], dests[1..])
  }

  /** Writes each value under its destination, replacing a column of that name. */
  function Put<X>(names: seq<Name>, row: seq<X>, dests: seq<Name>, vals: seq<X>): (r: seq<X>)
    requires |row| == |names| && |vals| == |dests|
    ensures |r| == |PutNames(names, dests)|
    decreases |dests|
  {
    if |dests| == 0 then row
    else if dests[0] in names then
      Put(names, row[Locate(names, dests[0]) := vals[0]], dests[1..], vals[1..])
    else
      Put(names + [dests[0]], row + [vals[0]], dests[1..], vals[1..])
  }

  /** What is found under a name. */
  function Under<X>(names: seq<Name>, row: seq<X>, name: Name): X
    requires |row| == |names| && name in names
  {
    row[Locate(names, name)]
  }

  lemma {:induction false} PutNamesAre(names: seq<Name>, dests: seq<Name>, name: Name)
    ensures name in PutNames(names, dests) <==> name in names || name in dests
    decreases |dests|
  {
    if |dests| > 0 {
      PutNamesAre(if dests[0] in names then names else names + [dests[0]], dests[1..], name);
      assert dests == [dests[0]] + dests[1..];
    }
  }

  /** A name that is no destination keeps what is under it. */
  lemma {:induction false} PutElsewhere<X>(names: seq<Name>, row: seq<X>, dests: seq<Name>, vals: seq<X>, name: Name)
    requires |row| == |names| && |vals| == |dests| && name in names && name !in dests
    ensures name in PutNames(names, dests)
    ensures Under(PutNames(names, dests), Put(names, row, dests, vals), name) == Under(names, row, name)
    decreases |dests|
  {
    if |dests| > 0 {
      var first := dests[0];
      if first in names {
        PutElsewhere(names, row[Locate(names, first) := vals[0]], dests[1..], vals[1..], name);
      } else {
        LocateMore(names, first);
        PutElsewhere(names + [first], row + [vals[0]], dests[1..], vals[1..], name);
      }
    }
  }

  /** Under each destination stands its own value; of two values for one name, the
      later. */
  lemma {:induction false} PutUnder<X>(names: seq<Name>, row: seq<X>, dests: seq<Name>, vals: seq<X>, d: nat)
    requires |row| == |names| && |vals| == |dests| && d < |dests| && dests[d] !in dests[d + 1..]
    ensures dests[d] in PutNames(names, dests)
    ensures Under(PutNames(names, dests), Put(names, row, dests, vals), dests[d]) == vals[d]
    decreases |dests|
  {
    var first := dests[0];
    var names' := if first in names then names else names + [first];
    var row' := if first in names then row[Locate(names, first) := vals[0]] else row + [vals[0]];
    if d > 0 {
      assert dests[1..][d..] == dests[d + 1..];
      PutUnder(names', row', dests[1..], vals[1..], d - 1);
    } else {
      LocateMore(names, first);
      PutElsewhere(names', row', dests[1..], vals[1..], first);
    }
  }

  /** All names at once. */
  lemma PutShows<X>(names: seq<Name>, row: seq<X>, dests: seq<Name>, vals: seq<X>)
    requires |row| == |names| && |vals| == |dests|
    ensures forall d :: 0 <= d < |dests| && dests[d] !in dests[d + 1..] ==>
      && dests[d] in PutNames(names, dests)
      && Under(PutNames(names, dests), Put(names, row, dests, vals), dests[d]) == vals[d]
    ensures forall name :: name in names && name !in dests ==>
      && name in PutNames(names, dests)
      && Under(PutNames(names, dests), Put(names, row, dests, vals), name) == Under(names, row, name)
  {
    forall d | 0 <= d < |dests| && dests[d] !in dests[d + 1..]
      ensures dests[d] in PutNames(names, dests)
      ensures Under(PutNames(names, dests), Put(names, row, dests, vals), dests[d]) == vals[d]
    {
      PutUnder(names, row, dests, vals, d);
    }
    forall name | name in names && name !in dests
      ensures name in PutNames(names, dests)
      ensures Under(PutNames(names, dests), Put(names, row, dests, vals), name) == Under(names, row, name)
    {
      PutElsewhere(names, row, dests, vals, name);
    }
  }

  lemma LocateMore(names: seq<Name>, name: Name)
    ensures Locate(names + [name], name) == |names|
    ensures forall other :: other in names && other != name ==> Locate(names + [name], other) == Locate(names, other)
  {
    assert (names + [name])[..|names|] == names;
  }

  function Nulls(n: nat): (r: seq<Cell>)
    ensures |r| == n
  {
    seq(n, i => Null)
  }

  function KeyOf(names: seq<Name>, row: seq<Cell>, ref: Ref): Option<Value>
    requires |row| == |names| && ref.onKey in names
  {
    KeyAt(row[Locate(names, ref.onKey)])
  }

  predicate Known(ref: Ref, key: Option<Value>) { ref.image.Some? && key in ref.image.value.index }

  /** The matched reference row, unless some destination cannot hold its value. */
  function Matched(ref: Ref, key: Option<Value>): (r: Option<seq<Cell>>)
    requires WellFormed(ref) && Known(ref, key)
    ensures r.Some? ==> |r.value| == |ref.dests|
  {
    var image := ref.image.value;
    var row := image.index[key];
    if forall d :: 0 <= d < |ref.dests| ==> image.columns[d][row].Some? then
      Some(seq(|ref.dests|, d requires 0 <= d < |ref.dests| => image.columns[d][row].value))
    else None
  }

  function NextNames(names: seq<Name>, ref: Ref): (r: seq<Name>) {
    if Emits(ref.kind) then PutNames(names, ref.dests) else names
  }

  // ---------------------------------- the same, over the reference's rows alone

  /** Reference row i has the event key's value. */
  ghost predicate RowMatches(keys: seq<Cell>, c: Cell, i: nat) {
    i < |keys| && keys[i] != Null && SameKey(Read(c), Read(keys[i]))
  }

  ghost predicate AnyMatches(keys: seq<Cell>, c: Cell) { exists i: nat :: RowMatches(keys, c, i) }

  /** Looking a key up finds the one reference row with its value, if there is one. */
  lemma LookupIsSearch(index: Index, keys: seq<Cell>, c: Cell)
    requires Indexes(index, keys)
    ensures KeyAt(c) in index <==> AnyMatches(keys, c)
    ensures forall i: nat :: RowMatches(keys, c, i) ==> KeyAt(c) in index && index[KeyAt(c)] == i
  {
    forall i: nat | RowMatches(keys, c, i) ensures KeyAt(c) in index && index[KeyAt(c)] == i {
      NormalizeKeyDecides(Read(c), Read(keys[i]));
    }
    if KeyAt(c) in index {
      var i := index[KeyAt(c)];
      NormalizeKeyDecides(Read(c), Read(keys[i]));
      assert RowMatches(keys, c, i);
    }
  }

  /** A row no reference row matches, or a delete. */
  function Unmatched(names: seq<Name>, row: seq<Cell>, del: bool, ref: Ref): RowResult
    requires |row| == |names|
  {
    match ref.kind
    case LeftSemi => if del then Kept(row) else Gone
    case LeftAnti => Kept(row)
    case LeftOuter => Kept(Put(names, row, ref.dests, Nulls(|ref.dests|)))
    case Inner => if del then Kept(Put(names, row, ref.dests, Nulls(|ref.dests|))) else Gone
  }

  /** A row matched by reference row i. */
  ghost function MatchedBy(names: seq<Name>, row: seq<Cell>, ref: Ref, i: nat): RowResult
    requires |row| == |names| && ref.image.Some? && |ref.image.value.columns| == |ref.dests|
    requires forall d :: 0 <= d < |ref.dests| ==> i < |ref.image.value.columns[d]|
  {
    var columns := ref.image.value.columns;
    match ref.kind
    case LeftSemi => Kept(row)
    case LeftAnti => Gone
    case _ =>
      if exists d :: 0 <= d < |ref.dests| && columns[d][i].None? then Bad
      else
        var vals := seq(|ref.dests|, d requires 0 <= d < |ref.dests| => columns[d][i].value);
        Kept(Put(names, row, ref.dests, vals))
  }

  /** One reference against one row: a delete passes untouched but for NULLs in the
      reference's columns, semi keeps a hit, anti a miss, inner drops a miss. */
  function RowStep(names: seq<Name>, row: seq<Cell>, del: bool, ref: Ref): (r: RowResult)
    requires WellFormed(ref) && |row| == |names|
    ensures r.Kept? ==> |r.cells| == |NextNames(names, ref)|
  {
    if ref.onKey !in names then Bad
    else
      var key := KeyOf(names, row, ref);
      var hit := !del && Known(ref, key);
      match ref.kind
      case LeftSemi => if del || hit then Kept(row) else Gone
      case LeftAnti => if del || !hit then Kept(row) else Gone
      case _ =>
        if hit then
          match Matched(ref, key)
          case None => Bad
          case Some(vals) => Kept(Put(names, row, ref.dests, vals))
        else if del || ref.kind.LeftOuter? then Kept(Put(names, row, ref.dests, Nulls(|ref.dests|)))
        else Gone
  }

  /** The step is the join with the reference's rows: the row that matches decides,
      and without one, or for a delete, the join type alone. */
  lemma RowStepByRows(names: seq<Name>, row: seq<Cell>, del: bool, ref: Ref, keys: seq<Cell>)
    requires WellFormed(ref) && |row| == |names| && ref.onKey in names
    requires ref.image.Some? ==> Indexes(ref.image.value.index, keys)
    ensures var c, r := row[Locate(names, ref.onKey)], RowStep(names, row, del, ref);
      if del || ref.image.None? || !AnyMatches(keys, c) then r == Unmatched(names, row, del, ref)
      else exists i: nat :: RowMatches(keys, c, i) && FitsColumns(ref, i) && r == MatchedBy(names, row, ref, i)
  {
    var c := row[Locate(names, ref.onKey)];
    if ref.image.Some? && !del {
      LookupIsSearch(ref.image.value.index, keys, c);
      if AnyMatches(keys, c) {
        var i: nat :| RowMatches(keys, c, i);
        assert FitsColumns(ref, i);
        assert RowStep(names, row, del, ref) == MatchedBy(names, row, ref, i);
      }
    }
  }

  ghost predicate FitsColumns(ref: Ref, i: nat) {
    && ref.image.Some? && |ref.image.value.columns| == |ref.dests|
    && forall d :: 0 <= d < |ref.dests| ==> i < |ref.image.value.columns[d]|
  }

  ghost predicate AllWellFormed(refs: seq<Ref>) { forall r :: 0 <= r < |refs| ==> WellFormed(refs[r]) }

  /** Every reference in turn, on the row the ones before it left. */
  function RowJoin(names: seq<Name>, row: seq<Cell>, del: bool, refs: seq<Ref>): (r: RowResult)
    requires AllWellFormed(refs) && |row| == |names|
    ensures r.Kept? ==> |r.cells| == |JoinNames(names, refs)|
    decreases |refs|
  {
    if |refs| == 0 then Kept(row)
    else
      match RowStep(names, row, del, refs[0])
      case Bad => Bad
      case Gone => Gone
      case Kept(cells) => RowJoin(NextNames(names, refs[0]), cells, del, refs[1..])
  }

  function JoinNames(names: seq<Name>, refs: seq<Ref>): seq<Name>
    decreases |refs|
  {
    if |refs| == 0 then names else JoinNames(NextNames(names, refs[0]), refs[1..])
  }

  /** Every reference finds its join column among the columns it meets. */
  predicate Resolvable(names: seq<Name>, refs: seq<Ref>)
    decreases |refs|
  {
    |refs| == 0 || (refs[0].onKey in names && Resolvable(NextNames(names, refs[0]), refs[1..]))
  }

  /** How many references a row that is no delete reaches and misses. */
  function RowMisses(names: seq<Name>, row: seq<Cell>, del: bool, refs: seq<Ref>): nat
    requires AllWellFormed(refs) && |row| == |names|
    decreases |refs|
  {
    if |refs| == 0 then 0
    else
      (if Misses(names, row, del, refs[0]) then 1 else 0) +
      match RowStep(names, row, del, refs[0])
      case Kept(cells) => RowMisses(NextNames(names, refs[0]), cells, del, refs[1..])
      case _ => 0
  }

  predicate Misses(names: seq<Name>, row: seq<Cell>, del: bool, ref: Ref)
    requires |row| == |names|
  {
    !del && ref.onKey in names && !Known(ref, KeyOf(names, row, ref))
  }

  /** A delete always survives, misses nothing and fails nothing. */
  lemma {:induction false} DeletesSurvive(names: seq<Name>, row: seq<Cell>, refs: seq<Ref>)
    requires AllWellFormed(refs) && |row| == |names| && Resolvable(names, refs)
    ensures RowJoin(names, row, true, refs).Kept? && RowMisses(names, row, true, refs) == 0
    decreases |refs|
  {
    if |refs| > 0 {
      var step := RowStep(names, row, true, refs[0]);
      DeletesSurvive(NextNames(names, refs[0]), step.cells, refs[1..]);
    }
  }

  // ----------------------------------------------------------------- columns

  ghost predicate Rectangular(names: seq<Name>, cols: seq<seq<Cell>>, n: nat) {
    |cols| == |names| && forall j :: 0 <= j < |cols| ==> |cols[j]| == n
  }

  ghost function RowAt(cols: seq<seq<Cell>>, i: nat): (r: seq<Cell>)
    requires forall j :: 0 <= j < |cols| ==> i < |cols[j]|
    ensures |r| == |cols| && forall j :: 0 <= j < |cols| ==> r[j] == cols[j][i]
  {
    seq(|cols|, j requires 0 <= j < |cols| => cols[j][i])
  }

  function Not(m: seq<bool>): (r: seq<bool>)
    ensures |r| == |m| && forall i :: 0 <= i < |m| ==> r[i] == !m[i]
  {
    seq(|m|, i requires 0 <= i < |m| => !m[i])
  }

  function And(a: seq<bool>, b: seq<bool>): (r: seq<bool>)
    requires |a| == |b|
    ensures |r| == |a| && forall i :: 0 <= i < |a| ==> r[i] == (a[i] && b[i])
  {
    seq(|a|, i requires 0 <= i < |a| => a[i] && b[i])
  }

  function Or(a: seq<bool>, b: seq<bool>): (r: seq<bool>)
    requires |a| == |b|
    ensures |r| == |a| && forall i :: 0 <= i < |a| ==> r[i] == (a[i] || b[i])
  {
    seq(|a|, i requires 0 <= i < |a| => a[i] || b[i])
  }

  function CountTrue(m: seq<bool>, n: nat): (r: nat)
    requires n <= |m|
    ensures r <= n
  {
    if n == 0 then 0 else CountTrue(m, n - 1) + if m[n - 1] then 1 else 0
  }

  /** The rows a mask keeps, in row order. */
  function Picks(m: seq<bool>, n: nat): (r: seq<nat>)
    requires n <= |m|
    ensures |r| == CountTrue(m, n)
    ensures forall p :: 0 <= p < |r| ==> r[p] < n && m[r[p]]
  {
    if n == 0 then [] else Picks(m, n - 1) + if m[n - 1] then [n - 1] else []
  }

  /** The picked rows stay in order. */
  lemma {:induction false} PicksAscend(m: seq<bool>, n: nat, p: nat, q: nat)
    requires n <= |m| && p < q < |Picks(m, n)|
    ensures Picks(m, n)[p] < Picks(m, n)[q]
    decreases n
  {
    var most := Picks(m, n - 1);
    if q < |most| { PicksAscend(m, n - 1, p, q); }
  }

  /** Every kept row is picked. */
  lemma {:induction false} PickOf(m: seq<bool>, n: nat, i: nat) returns (p: nat)
    requires i < n <= |m| && m[i]
    ensures p < |Picks(m, n)| && Picks(m, n)[p] == i
    decreases n
  {
    if i < n - 1 { p := PickOf(m, n - 1, i); } else { p := |Picks(m, n - 1)|; }
  }

  /** Arrow's Filter of one column. */
  function Filter<T>(col: seq<T>, m: seq<bool>): (r: seq<T>)
    requires |col| == |m|
  {
    var picks := Picks(m, |m|);
    seq(|picks|, p requires 0 <= p < |picks| => col[picks[p]])
  }

  /** Which rows' keys the reference knows. */
  method MembershipMask(keys: seq<Cell>, index: Index) returns (mask: seq<bool>)
    ensures |mask| == |keys| && forall i :: 0 <= i < |keys| ==> mask[i] == (KeyAt(keys[i]) in index)
  {
    mask := [];
    for i := 0 to |keys|
      invariant |mask| == i && forall j :: 0 <= j < i ==> mask[j] == (KeyAt(keys[j]) in index)
    {
      mask := mask + [KeyAt(keys[i]) in index];
    }
  }

  ghost function CellsFor(ref: Ref, key: Cell, hit: bool): Option<seq<Cell>>
    requires WellFormed(ref) && (hit ==> Known(ref, KeyAt(key)))
  {
    if hit then Matched(ref, KeyAt(key)) else Some(Nulls(|ref.dests|))
  }

  method AppendMatched(ref: Ref, key: Option<Value>) returns (r: Option<seq<Cell>>)
    requires WellFormed(ref) && Known(ref, key)
    ensures r == Matched(ref, key)
  {
    var image := ref.image.value;
    var row, cells := image.index[key], [];
    for d := 0 to |ref.dests|
      invariant |cells| == d && forall e :: 0 <= e < d ==> image.columns[e][row] == Some(cells[e])
    {
      if image.columns[d][row].None? { return None; }
      cells := cells + [image.columns[d][row].value];
    }
    assert Matched(ref, key).value == cells;
    r := Some(cells);
  }

  /** One array per destination: the matched reference value where a row hits, NULL
      elsewhere; None when a hit's value cannot be held. */
  method GatherRefColumns(keys: seq<Cell>, hits: seq<bool>, ref: Ref) returns (r: Option<seq<seq<Cell>>>)
    requires WellFormed(ref) && ref.image.Some? && |hits| == |keys|
    requires forall i :: 0 <= i < |keys| && hits[i] ==> Known(ref, KeyAt(keys[i]))
    ensures r.Some? <==> forall i :: 0 <= i < |keys| ==> CellsFor(ref, keys[i], hits[i]).Some?
    ensures r.Some? ==> Rectangular(ref.dests, r.value, |keys|)
    ensures r.Some? ==> forall i :: 0 <= i < |keys| ==> CellsFor(ref, keys[i], hits[i]) == Some(RowAt(r.value, i))
  {
    var builders: seq<seq<Cell>> := seq(|ref.dests|, d => []);
    for i := 0 to |keys|
      invariant Rectangular(ref.dests, builders, i)
      invariant forall k :: 0 <= k < i ==> CellsFor(ref, keys[k], hits[k]) == Some(RowAt(builders, k))
    {
      ghost var was := builders;
      var cells: seq<Cell>;
      if hits[i] {
        var found := AppendMatched(ref, KeyAt(keys[i]));
        if found.None? { assert CellsFor(ref, keys[i], hits[i]).None?; return None; }
        cells := found.value;
      } else {
        cells := Nulls(|ref.dests|);
      }
      builders := seq(|builders|, d requires 0 <= d < |builders| => builders[d] + [cells[d]]);
      assert RowAt(builders, i) == cells;
      forall k | 0 <= k < i ensures RowAt(builders, k) == RowAt(was, k) { }
    }
    r := Some(builders);
  }

  // -------------------------------------------------------- inserting columns

  /** fieldIdx: a name's column, the last of that name. */
  ghost predicate Located(at: map<Name, nat>, names: seq<Name>) {
    && (forall name :: name in at <==> name in names)
    && (forall name :: name in at ==> at[name] == Locate(names, name))
  }

  method IndexFields(names: seq<Name>) returns (at: map<Name, nat>)
    ensures Located(at, names)
  {
    at := map[];
    for j := 0 to |names|
      invariant Located(at, names[..j])
    {
      LocateMore(names[..j], names[j]);
      assert names[..j] + [names[j]] == names[..j + 1];
      at := at[names[j] := j];
    }
    assert names[..|names|] == names;
  }

  /** Inserting columns inserts, in every row, that row's values. */
  lemma {:induction false} PutColumnsByRow(names: seq<Name>, cols: seq<seq<Cell>>,
                                           dests: seq<Name>, refCols: seq<seq<Cell>>, n: nat)
    requires Rectangular(names, cols, n) && Rectangular(dests, refCols, n)
    ensures var r := Put(names, cols, dests, refCols);
      && Rectangular(PutNames(names, dests), r, n)
      && forall i :: 0 <= i < n ==> RowAt(r, i) == Put(names, RowAt(cols, i), dests, RowAt(refCols, i))
    decreases |dests|
  {
    if |dests| > 0 {
      var names', cols' :=
        if dests[0] in names then names else names + [dests[0]],
        if dests[0] in names then cols[Locate(names, dests[0]) := refCols[0]] else cols + [refCols[0]];
      PutColumnsByRow(names', cols', dests[1..], refCols[1..], n);
      forall i | 0 <= i < n
        ensures RowAt(refCols[1..], i) == RowAt(refCols, i)[1..]
        ensures RowAt(cols', i) ==
          if dests[0] in names then RowAt(cols, i)[Locate(names, dests[0]) := refCols[0][i]]
          else RowAt(cols, i) + [refCols[0][i]]
      {
        if dests[0] in names {
          RowAtReplaced(cols, Locate(names, dests[0]), refCols[0], i);
        } else {
          RowAtMore(cols, refCols[0], i);
        }
        RowAtRest(refCols, i);
      }
    }
  }

  lemma RowAtReplaced(cols: seq<seq<Cell>>, k: nat, col: seq<Cell>, i: nat)
    requires k < |cols| && i < |col| && forall j :: 0 <= j < |cols| ==> i < |cols[j]|
    ensures RowAt(cols[k := col], i) == RowAt(cols, i)[k := col[i]]
  {
  }

  lemma RowAtMore(cols: seq<seq<Cell>>, col: seq<Cell>, i: nat)
    requires i < |col| && forall j :: 0 <= j < |cols| ==> i < |cols[j]|
    ensures RowAt(cols + [col], i) == RowAt(cols, i) + [col[i]]
  {
  }

  lemma RowAtRest(cols: seq<seq<Cell>>, i: nat)
    requires |cols| > 0 && forall j :: 0 <= j < |cols| ==> i < |cols[j]|
    ensures RowAt(cols[1..], i) == RowAt(cols, i)[1..]
  {
  }

  method InsertColumns(names: seq<Name>, cols: seq<seq<Cell>>, at: map<Name, nat>,
                       dests: seq<Name>, refCols: seq<seq<Cell>>)
    returns (names': seq<Name>, cols': seq<seq<Cell>>, at': map<Name, nat>)
    requires |cols| == |names| && |refCols| == |dests| && Located(at, names)
    ensures names' == PutNames(names, dests) && cols' == Put(names, cols, dests, refCols) && Located(at', names')
    ensures forall d :: 0 <= d < |dests| && dests[d] !in dests[d + 1..] ==>
      dests[d] in names' && Under(names', cols', dests[d]) == refCols[d]
    ensures forall name :: name in names && name !in dests ==>
      name in names' && Under(names', cols', name) == Under(names, cols, name)
  {
    names', cols', at' := names, cols, at;
    for d := 0 to |dests|
      invariant |cols'| == |names'| && Located(at', names')
      invariant PutNames(names', dests[d..]) == PutNames(names, dests)
      invariant Put(names', cols', dests[d..], refCols[d..]) == Put(names, cols, dests, refCols)
    {
      assert dests[d..][1..] == dests[d + 1..] && refCols[d..][1..] == refCols[d + 1..];
      if dests[d] in at' {
        cols' := cols'[at'[dests[d]] := refCols[d]];
      } else {
        LocateMore(names', dests[d]);
        at' := at'[dests[d] := |cols'|];
        names', cols' := names' + [dests[d]], cols' + [refCols[d]];
      }
    }
    PutShows(names, cols, dests, refCols);
  }

  // ------------------------------------------------------------------ deletes

  /** Columns a delete leaves NULL, by name. */
  ghost predicate NullUnder(names: seq<Name>, row: seq<Cell>, d: Name)
    requires |row| == |names|
  {
    d in names && row[Locate(names, d)] == Null
  }

  lemma {:induction false} PutNulls(names: seq<Name>, row: seq<Cell>, dests: seq<Name>, d: Name)
    requires |row| == |names| && (NullUnder(names, row, d) || d in dests)
    ensures NullUnder(PutNames(names, dests), Put(names, row, dests, Nulls(|dests|)), d)
    decreases |dests|
  {
    if |dests| > 0 {
      var first := dests[0];
      assert dests == [first] + dests[1..] && Nulls(|dests|)[1..] == Nulls(|dests| - 1);
      if first in names {
        PutNulls(names, row[Locate(names, first) := Null], dests[1..], d);
      } else {
        AppendedNull(names, row, first, d);
        PutNulls(names + [first], row + [Null], dests[1..], d);
      }
    }
  }

  lemma AppendedNull(names: seq<Name>, row: seq<Cell>, first: Name, d: Name)
    requires |row| == |names| && first !in names
    ensures NullUnder(names, row, d) || d == first ==> NullUnder(names + [first], row + [Null], d)
  {
    LocateMore(names, first);
  }

  ghost predicate Injects(refs: seq<Ref>, d: Name) {
    exists r :: 0 <= r < |refs| && Emits(refs[r].kind) && d in refs[r].dests
  }

  /** A delete leaves with NULL under every column a reference injects. */
  lemma {:induction false} DeletesCarryNulls(names: seq<Name>, row: seq<Cell>, refs: seq<Ref>, d: Name)
    requires AllWellFormed(refs) && |row| == |names| && Resolvable(names, refs)
    requires NullUnder(names, row, d) || Injects(refs, d)
    ensures RowJoin(names, row, true, refs).Kept?
    ensures NullUnder(JoinNames(names, refs), RowJoin(names, row, true, refs).cells, d)
    decreases |refs|
  {
    if |refs| > 0 {
      var names', cells := NextNames(names, refs[0]), RowStep(names, row, true, refs[0]).cells;
      if Emits(refs[0].kind) && (NullUnder(names, row, d) || d in refs[0].dests) {
        PutNulls(names, row, refs[0].dests, d);
      }
      if !NullUnder(names', cells, d) {
        var r :| 0 <= r < |refs| && Emits(refs[r].kind) && d in refs[r].dests;
        assert refs[1..][r - 1] == refs[r];
      }
      DeletesCarryNulls(names', cells, refs[1..], d);
    }
  }

  // ------------------------------------------------------------ one reference

  /** The working state of the reference loop; a row no longer kept has no meaning. */
  datatype Frame = Frame(names: seq<Name>, cols: seq<seq<Cell>>, dels: seq<bool>, keep: seq<bool>)

  ghost predicate Sound(f: Frame) { Rectangular(f.names, f.cols, |f.keep|) && |f.dels| == |f.keep| }

  /** What one reference leaves of row i. */
  ghost function StepAt(f: Frame, ref: Ref, i: nat): RowResult
    requires WellFormed(ref) && Sound(f) && i < |f.keep|
  {
    if f.keep[i] then RowStep(f.names, RowAt(f.cols, i), f.dels[i], ref) else Gone
  }

  ghost predicate MissAt(f: Frame, ref: Ref, i: nat)
    requires Sound(f) && i < |f.keep|
  {
    f.keep[i] && Misses(f.names, RowAt(f.cols, i), f.dels[i], ref)
  }

  /** A reference's columns, gathered or all NULL while it is cold or empty. */
  method RefColumns(keys: seq<Cell>, hits: seq<bool>, ref: Ref) returns (r: Option<seq<seq<Cell>>>)
    requires WellFormed(ref) && |hits| == |keys|
    requires forall i :: 0 <= i < |keys| && hits[i] ==> Known(ref, KeyAt(keys[i]))
    ensures r.Some? <==> forall i :: 0 <= i < |keys| ==> CellsFor(ref, keys[i], hits[i]).Some?
    ensures r.Some? ==> Rectangular(ref.dests, r.value, |keys|)
    ensures r.Some? ==> forall i :: 0 <= i < |keys| ==> CellsFor(ref, keys[i], hits[i]) == Some(RowAt(r.value, i))
  {
    if ref.image.Some? {
      r := GatherRefColumns(keys, hits, ref);
    } else {
      var cold := seq(|ref.dests|, d => Nulls(|keys|));
      forall i | 0 <= i < |keys| ensures CellsFor(ref, keys[i], hits[i]) == Some(RowAt(cold, i)) {
        assert RowAt(cold, i) == Nulls(|ref.dests|);
      }
      r := Some(cold);
    }
  }

  /** Row i's key, and whether the row is looked up and found. */
  ghost predicate HitsAt(f: Frame, ref: Ref, keys: seq<Cell>, hits: seq<bool>, i: nat)
    requires Sound(f) && |f.keep| == |keys| == |hits| && ref.onKey in f.names && i < |f.keep|
  {
    && KeyAt(keys[i]) == KeyOf(f.names, RowAt(f.cols, i), ref)
    && hits[i] == (f.keep[i] && !f.dels[i] && Known(ref, KeyAt(keys[i])))
  }

  method EffectiveHits(f: Frame, at: map<Name, nat>, ref: Ref) returns (keys: seq<Cell>, hits: seq<bool>)
    requires Sound(f) && Located(at, f.names) && ref.onKey in f.names
    ensures |keys| == |hits| == |f.keep|
    ensures forall i :: 0 <= i < |f.keep| ==> HitsAt(f, ref, keys, hits, i)
  {
    keys := f.cols[at[ref.onKey]];
    hits := seq(|f.keep|, i => false);
    if ref.image.Some? {
      var hitMask := MembershipMask(keys, ref.image.value.index);
      hits := And(hitMask, And(f.keep, Not(f.dels)));
    }
  }

  /** The columns once the reference's own are in, unless a hit's value cannot be held. */
  method EmitColumns(names: seq<Name>, cols: seq<seq<Cell>>, at: map<Name, nat>,
                     keys: seq<Cell>, hits: seq<bool>, ref: Ref)
    returns (ok: bool, names': seq<Name>, cols': seq<seq<Cell>>, at': map<Name, nat>)
    requires WellFormed(ref) && |hits| == |keys| && Rectangular(names, cols, |keys|) && Located(at, names)
    requires forall i :: 0 <= i < |keys| && hits[i] ==> Known(ref, KeyAt(keys[i]))
    ensures ok <==> Emits(ref.kind) ==> forall i :: 0 <= i < |keys| ==> CellsFor(ref, keys[i], hits[i]).Some?
    ensures ok ==> names' == NextNames(names, ref) && Located(at', names') && Rectangular(names', cols', |keys|)
    ensures ok && !Emits(ref.kind) ==> cols' == cols
    ensures ok && Emits(ref.kind) ==> forall i :: 0 <= i < |keys| ==>
      RowAt(cols', i) == Put(names, RowAt(cols, i), ref.dests, CellsFor(ref, keys[i], hits[i]).value)
  {
    ok, names', cols', at' := true, names, cols, at;
    if Emits(ref.kind) {
      var refCols := RefColumns(keys, hits, ref);
      if refCols.None? { ok := false; return; }
      names', cols', at' := InsertColumns(names, cols, at, ref.dests, refCols.value);
      PutColumnsByRow(names, cols, ref.dests, refCols.value, |keys|);
    }
  }

  predicate Survives(kind: Kind, del: bool, hit: bool) {
    match kind
    case LeftOuter => true
    case LeftAnti => del || !hit
    case _ => del || hit
  }

  /** keep and the misses, refined by the masks alone. */
  method Refine(kind: Kind, dels: seq<bool>, keep: seq<bool>, hits: seq<bool>)
    returns (keep': seq<bool>, missed: seq<bool>)
    requires |dels| == |keep| == |hits| && forall i :: 0 <= i < |keep| ==> hits[i] ==> keep[i] && !dels[i]
    ensures |keep'| == |missed| == |keep|
    ensures forall i :: 0 <= i < |keep| ==> keep'[i] == (keep[i] && Survives(kind, dels[i], hits[i]))
    ensures forall i :: 0 <= i < |keep| ==> missed[i] == (keep[i] && !dels[i] && !hits[i])
  {
    var participation := And(keep, Not(dels));
    missed := And(participation, Not(hits));
    var notPart := Not(participation);
    match kind {
      case LeftOuter => keep' := keep;
      case LeftAnti => keep' := And(keep, Or(missed, notPart));
      case _ => keep' := And(keep, Or(hits, notPart));
    }
  }

  /** One row of the pass: what the step leaves of it, and whether it missed. */
  ghost predicate Stepped(f: Frame, ref: Ref, g: Frame, missed: seq<bool>, i: nat)
    requires WellFormed(ref) && Sound(f) && Sound(g) && |f.keep| == |g.keep| == |missed| && i < |f.keep|
  {
    && StepAt(f, ref, i) == (if g.keep[i] then Kept(RowAt(g.cols, i)) else Gone)
    && missed[i] == MissAt(f, ref, i)
  }

  /** One pass of the reference loop, in masks over whole columns: it does to every
      kept row what the row-at-a-time step does, and fails when that fails on one. */
  method JoinOne(f: Frame, at: map<Name, nat>, ref: Ref)
    returns (ok: bool, g: Frame, at': map<Name, nat>, missed: seq<bool>)
    requires WellFormed(ref) && Sound(f) && Located(at, f.names)
    ensures ok <==> ref.onKey in f.names && forall i :: 0 <= i < |f.keep| ==> StepAt(f, ref, i) != Bad
    ensures ok ==> Sound(g) && |g.keep| == |missed| == |f.keep| && g.dels == f.dels
    ensures ok ==> g.names == NextNames(f.names, ref) && Located(at', g.names)
    ensures ok ==> forall i :: 0 <= i < |f.keep| ==> Stepped(f, ref, g, missed, i)
  {
    ok, g, at', missed := false, f, at, f.keep;
    if ref.onKey !in at { return; }
    var keys, hits := EffectiveHits(f, at, ref);
    forall i | 0 <= i < |f.keep| ensures hits[i] ==> f.keep[i] && !f.dels[i] && Known(ref, KeyAt(keys[i])) {
      assert HitsAt(f, ref, keys, hits, i);
    }
    var names, cols;
    ok, names, cols, at' := EmitColumns(f.names, f.cols, at, keys, hits, ref);
    if !ok {
      ghost var i :| 0 <= i < |f.keep| && CellsFor(ref, keys[i], hits[i]).None?;
      OutcomeIsStep(f, ref, keys, hits, i);
      return;
    }
    var keep;
    keep, missed := Refine(ref.kind, f.dels, f.keep, hits);
    g := Frame(names, cols, f.dels, keep);
    forall i | 0 <= i < |f.keep| ensures Stepped(f, ref, g, missed, i) {
      OutcomeIsStep(f, ref, keys, hits, i);
    }
    forall i | 0 <= i < |f.keep| ensures StepAt(f, ref, i) != Bad {
      assert Stepped(f, ref, g, missed, i);
    }
  }

  /** The row step, told by the row's lookup. */
  ghost function Outcome(f: Frame, ref: Ref, key: Cell, hit: bool, i: nat): RowResult
    requires WellFormed(ref) && Sound(f) && i < |f.keep| && (hit ==> Known(ref, KeyAt(key)))
  {
    if !f.keep[i] then Gone
    else if Emits(ref.kind) && CellsFor(ref, key, hit).None? then Bad
    else if !Survives(ref.kind, f.dels[i], hit) then Gone
    else if !Emits(ref.kind) then Kept(RowAt(f.cols, i))
    else Kept(Put(f.names, RowAt(f.cols, i), ref.dests, CellsFor(ref, key, hit).value))
  }

  lemma OutcomeIsStep(f: Frame, ref: Ref, keys: seq<Cell>, hits: seq<bool>, i: nat)
    requires WellFormed(ref) && Sound(f) && |f.keep| == |keys| == |hits| && i < |f.keep|
    requires ref.onKey in f.names && HitsAt(f, ref, keys, hits, i)
    ensures StepAt(f, ref, i) == Outcome(f, ref, keys[i], hits[i], i)
    ensures MissAt(f, ref, i) <==> f.keep[i] && !f.dels[i] && !hits[i]
  {
  }

  // ------------------------------------------------------------ the whole batch

  datatype Batch = Batch(names: seq<Name>, cols: seq<seq<Cell>>, meta: seq<seq<Cell>>, dels: seq<bool>)

  /** Same is the batch handed back as it came, Nothing one that lost every row. */
  datatype JoinResult =
    | Failed
    | Same
    | Nothing(misses: nat, dropped: nat)
    | Joined(names: seq<Name>, cols: seq<seq<Cell>>, meta: seq<seq<Cell>>, misses: nat, dropped: nat)

  ghost predicate ValidBatch(b: Batch) {
    && Rectangular(b.names, b.cols, |b.dels|)
    && forall j :: 0 <= j < |b.meta| ==> |b.meta[j]| == |b.dels|
  }

  function AllTrue(n: nat): (m: seq<bool>)
    ensures |m| == n && forall i :: 0 <= i < n ==> m[i]
  {
    seq(n, i => true)
  }

  function Opening(b: Batch): Frame { Frame(b.names, b.cols, b.dels, AllTrue(|b.dels|)) }

  /** What the references still to come leave of row i. */
  ghost function RestAt(f: Frame, refs: seq<Ref>, i: nat): RowResult
    requires Sound(f) && AllWellFormed(refs) && i < |f.keep|
  {
    if f.keep[i] then RowJoin(f.names, RowAt(f.cols, i), f.dels[i], refs) else Gone
  }

  ghost function MissesAt(f: Frame, refs: seq<Ref>, i: nat): nat
    requires Sound(f) && AllWellFormed(refs) && i < |f.keep|
  {
    if f.keep[i] then RowMisses(f.names, RowAt(f.cols, i), f.dels[i], refs) else 0
  }

  ghost function TotalMisses(f: Frame, refs: seq<Ref>, n: nat): nat
    requires Sound(f) && AllWellFormed(refs) && n <= |f.keep|
    decreases n
  {
    if n == 0 then 0 else TotalMisses(f, refs, n - 1) + MissesAt(f, refs, n - 1)
  }

  lemma StepRow(f: Frame, refs: seq<Ref>, g: Frame, missed: seq<bool>, i: nat)
    requires Sound(f) && Sound(g) && |f.keep| == |g.keep| == |missed| && i < |f.keep| && g.dels == f.dels
    requires |refs| > 0 && AllWellFormed(refs) && g.names == NextNames(f.names, refs[0])
    requires Stepped(f, refs[0], g, missed, i)
    ensures RestAt(f, refs, i) == RestAt(g, refs[1..], i)
    ensures MissesAt(f, refs, i) == (if missed[i] then 1 else 0) + MissesAt(g, refs[1..], i)
  {
  }

  lemma {:induction false} StepSum(f: Frame, refs: seq<Ref>, g: Frame, missed: seq<bool>, n: nat)
    requires Sound(f) && Sound(g) && |f.keep| == |g.keep| == |missed| && n <= |f.keep| && g.dels == f.dels
    requires |refs| > 0 && AllWellFormed(refs) && g.names == NextNames(f.names, refs[0])
    requires forall i :: 0 <= i < |f.keep| ==> Stepped(f, refs[0], g, missed, i)
    ensures TotalMisses(f, refs, n) == CountTrue(missed, n) + TotalMisses(g, refs[1..], n)
    decreases n
  {
    if n > 0 {
      StepSum(f, refs, g, missed, n - 1);
      StepRow(f, refs, g, missed, n - 1);
    }
  }

  lemma StepRows(f: Frame, refs: seq<Ref>, g: Frame, missed: seq<bool>)
    requires Sound(f) && Sound(g) && |f.keep| == |g.keep| == |missed| && g.dels == f.dels
    requires |refs| > 0 && AllWellFormed(refs) && g.names == NextNames(f.names, refs[0])
    requires forall i :: 0 <= i < |f.keep| ==> Stepped(f, refs[0], g, missed, i)
    ensures forall i :: 0 <= i < |f.keep| ==> RestAt(f, refs, i) == RestAt(g, refs[1..], i)
  {
    forall i | 0 <= i < |f.keep| ensures RestAt(f, refs, i) == RestAt(g, refs[1..], i) {
      StepRow(f, refs, g, missed, i);
    }
  }

  lemma StepFails(f: Frame, refs: seq<Ref>)
    requires Sound(f) && |refs| > 0 && AllWellFormed(refs)
    requires refs[0].onKey !in f.names || exists i :: 0 <= i < |f.keep| && StepAt(f, refs[0], i) == Bad
    ensures !Resolvable(f.names, refs) || exists i :: 0 <= i < |f.keep| && RestAt(f, refs, i) == Bad
  {
    if i :| 0 <= i < |f.keep| && StepAt(f, refs[0], i) == Bad { assert RestAt(f, refs, i) == Bad; }
  }

  lemma {:induction false} NoMoreMisses(f: Frame, n: nat)
    requires Sound(f) && n <= |f.keep|
    ensures TotalMisses(f, [], n) == 0
    decreases n
  {
    if n > 0 { NoMoreMisses(f, n - 1); }
  }

  ghost predicate SomeRowFails(f: Frame, refs: seq<Ref>)
    requires Sound(f) && AllWellFormed(refs)
  {
    exists i :: 0 <= i < |f.keep| && RestAt(f, refs, i) == Bad
  }

  /** The reference loop: it stops exactly when a join column is missing or some row
      fails, and otherwise leaves every row as the row-at-a-time join does. */
  method JoinAll(f: Frame, refs: seq<Ref>) returns (ok: bool, g: Frame, misses: nat)
    requires Sound(f) && AllWellFormed(refs)
    ensures ok <==> Resolvable(f.names, refs) && !SomeRowFails(f, refs)
    ensures ok ==> Sound(g) && |g.keep| == |f.keep| && g.names == JoinNames(f.names, refs)
    ensures ok ==> misses == TotalMisses(f, refs, |f.keep|)
    ensures ok ==> forall i :: 0 <= i < |f.keep| ==>
      RestAt(f, refs, i) == if g.keep[i] then Kept(RowAt(g.cols, i)) else Gone
  {
    ok, g, misses := true, f, 0;
    var at := IndexFields(f.names);
    for k := 0 to |refs|
      invariant Sound(g) && Located(at, g.names) && Continues(f, refs, g, refs[k..], misses)
    {
      assert refs[k..][0] == refs[k] && refs[k..][1..] == refs[k + 1..];
      var h, missed;
      ok, h, at, missed := JoinOne(g, at, refs[k]);
      if !ok {
        StepFails(g, refs[k..]);
        FailsBack(f, refs, g, refs[k..], misses);
        return;
      }
      StepContinues(f, refs, g, refs[k..], misses, h, missed);
      misses := misses + CountTrue(missed, |missed|);
      g := h;
    }
    assert refs[|refs|..] == [];
    NoMoreMisses(g, |g.keep|);
  }

  /** What all references make of f is what the rest make of g, but for the misses
      already counted. */
  ghost predicate Continues(f: Frame, refs: seq<Ref>, g: Frame, rest: seq<Ref>, misses: nat)
    requires Sound(f) && Sound(g) && AllWellFormed(refs) && AllWellFormed(rest)
  {
    && |g.keep| == |f.keep|
    && Resolvable(f.names, refs) == Resolvable(g.names, rest)
    && JoinNames(f.names, refs) == JoinNames(g.names, rest)
    && (forall i :: 0 <= i < |f.keep| ==> RestAt(f, refs, i) == RestAt(g, rest, i))
    && TotalMisses(f, refs, |f.keep|) == misses + TotalMisses(g, rest, |f.keep|)
  }

  lemma StepContinues(f: Frame, refs: seq<Ref>, g: Frame, rest: seq<Ref>, misses: nat, h: Frame, missed: seq<bool>)
    requires Sound(f) && Sound(g) && AllWellFormed(refs) && AllWellFormed(rest) && Continues(f, refs, g, rest, misses)
    requires |rest| > 0 && rest[0].onKey in g.names
    requires Sound(h) && |g.keep| == |h.keep| == |missed| && h.dels == g.dels && h.names == NextNames(g.names, rest[0])
    requires forall i :: 0 <= i < |g.keep| ==> Stepped(g, rest[0], h, missed, i)
    ensures Continues(f, refs, h, rest[1..], misses + CountTrue(missed, |missed|))
  {
    StepSum(g, rest, h, missed, |g.keep|);
    StepRows(g, rest, h, missed);
  }

  lemma FailsBack(f: Frame, refs: seq<Ref>, g: Frame, rest: seq<Ref>, misses: nat)
    requires Sound(f) && Sound(g) && AllWellFormed(refs) && AllWellFormed(rest) && Continues(f, refs, g, rest, misses)
    requires !Resolvable(g.names, rest) || exists i :: 0 <= i < |g.keep| && RestAt(g, rest, i) == Bad
    ensures !Resolvable(f.names, refs) || SomeRowFails(f, refs)
  {
    if i :| 0 <= i < |g.keep| && RestAt(g, rest, i) == Bad { assert RestAt(f, refs, i) == Bad; }
  }

  ghost function Survivors(b: Batch, refs: seq<Ref>): (m: seq<bool>)
    requires ValidBatch(b) && AllWellFormed(refs)
    ensures |m| == |b.dels|
    ensures forall i :: 0 <= i < |m| ==> m[i] == RowJoin(b.names, RowAt(b.cols, i), b.dels[i], refs).Kept?
  {
    seq(|b.dels|, i requires 0 <= i < |b.dels| => RowJoin(b.names, RowAt(b.cols, i), b.dels[i], refs).Kept?)
  }

  /** The rows the row-at-a-time join keeps, in batch order, each with the values it
      gives that row and the row's own metadata; every row is kept or counted dropped. */
  ghost predicate Agrees(b: Batch, refs: seq<Ref>, r: JoinResult)
    requires ValidBatch(b) && AllWellFormed(refs)
  {
    var picks := Picks(Survivors(b, refs), |b.dels|);
    && (r.Nothing? || r.Joined?)
    && r.misses == TotalMisses(Opening(b), refs, |b.dels|)
    && r.dropped + |picks| == |b.dels|
    && (r.Nothing? <==> |picks| == 0)
    && (r.Joined? ==>
      && r.names == JoinNames(b.names, refs) && Rectangular(r.names, r.cols, |picks|)
      && |r.meta| == |b.meta| && (forall j :: 0 <= j < |r.meta| ==> |r.meta[j]| == |picks|)
      && forall p :: 0 <= p < |picks| ==>
          && RowJoin(b.names, RowAt(b.cols, picks[p]), b.dels[picks[p]], refs) == Kept(RowAt(r.cols, p))
          && RowAt(r.meta, p) == RowAt(b.meta, picks[p]))
  }

  /** The join over a whole batch refines the row-at-a-time join of its rows. */
  method JoinColumns(b: Batch, refs: seq<Ref>) returns (r: JoinResult)
    requires ValidBatch(b) && AllWellFormed(refs)
    ensures |b.dels| == 0 ==> r == Same
    ensures |b.dels| > 0 ==> (r.Failed? <==> !Resolvable(b.names, refs) || SomeRowFails(Opening(b), refs))
    ensures |b.dels| > 0 && !r.Failed? ==> Agrees(b, refs, r)
  {
    var n := |b.dels|;
    if n == 0 { return Same; }
    var ok, g, misses := JoinAll(Opening(b), refs);
    if !ok { return Failed; }
    forall i | 0 <= i < n
      ensures RowJoin(b.names, RowAt(b.cols, i), b.dels[i], refs) ==
        if g.keep[i] then Kept(RowAt(g.cols, i)) else Gone
    {
      assert RestAt(Opening(b), refs, i) == if g.keep[i] then Kept(RowAt(g.cols, i)) else Gone;
    }
    assert g.keep == Survivors(b, refs);
    var kept := CountTrue(g.keep, n);
    if kept == 0 { return Nothing(misses, n); }
    var cols := FilterAll(g.cols, g.keep);
    var meta := FilterAll(b.meta, g.keep);
    r := Joined(g.names, cols, meta, misses, n - kept);
  }

  method FilterAll(cols: seq<seq<Cell>>, m: seq<bool>) returns (r: seq<seq<Cell>>)
    requires forall j :: 0 <= j < |cols| ==> |cols[j]| == |m|
    ensures |r| == |cols| && forall j :: 0 <= j < |cols| ==> |r[j]| == CountTrue(m, |m|)
    ensures forall p :: 0 <= p < CountTrue(m, |m|) ==> RowAt(r, p) == RowAt(cols, Picks(m, |m|)[p])
  {
    r := seq(|cols|, j requires 0 <= j < |cols| => Filter(cols[j], m));
  }

  /** A declared reference, its join type as written. */
  datatype Declared = Declared(onKey: Name, joinType: string, dests: seq<Name>, image: Option<Image>)

  function Resolve(declared: seq<Declared>): (refs: seq<Ref>)
    ensures |refs| == |declared|
  {
    seq(|declared|, i requires 0 <= i < |declared| =>
      Ref(declared[i].onKey, NormalizeJoinType(declared[i].joinType), declared[i].dests, declared[i].image))
  }

  /** The stage: its references and the counters every batch adds to. */
  class Stage {
    const declared: seq<Declared>
    var misses: nat
    var innerDropped: nat

    constructor (declared: seq<Declared>)
      ensures this.declared == declared && misses == 0 && innerDropped == 0
    {
      this.declared, misses, innerDropped := declared, 0, 0;
    }

    method ColumnarJoin(b: Batch) returns (r: JoinResult)
      requires ValidBatch(b) && AllWellFormed(Resolve(declared))
      modifies this`misses, this`innerDropped
      ensures |b.dels| == 0 ==> r == Same
      ensures var refs := Resolve(declared);
        |b.dels| > 0 ==> (r.Failed? <==> !Resolvable(b.names, refs) || SomeRowFails(Opening(b), refs))
      ensures |b.dels| > 0 && !r.Failed? ==> Agrees(b, Resolve(declared), r)
      ensures r.Failed? || r.Same? ==> misses == old(misses) && innerDropped == old(innerDropped)
      ensures r.Nothing? || r.Joined? ==>
        misses == old(misses) + r.misses && innerDropped == old(innerDropped) + r.dropped
    {
      r := JoinColumns(b, Resolve(declared));
      if r.Nothing? || r.Joined? {
        misses, innerDropped := misses + r.misses, innerDropped + r.dropped;
      }
    }
  }
}
