/** Last-write-wins collapse (internal/columnar/collapse.go). */
module Collapse {
  import opened Text
  import opened Key
  import opened Keyed

  // -------------------------------------------------------- winners per group

  /** Which of the first m winners stands for key k. */
  function Find<K(==)>(keys: seq<K>, w: seq<nat>, k: K, m: nat): (r: Option<nat>)
    requires m <= |w| && forall p :: 0 <= p < |w| ==> w[p] < |keys|
    ensures r.Some? ==> r.value < m && keys[w[r.value]] == k
    ensures r.None? ==> forall p :: 0 <= p < m ==> keys[w[p]] != k
  {
    if m == 0 then None else if keys[w[m - 1]] == k then Some(m - 1) else Find(keys, w, k, m - 1)
  }

  /** The winners v of the rows before n, once row n is in. */
  function Enter<K(==)>(keys: seq<K>, v: seq<nat>, n: nat): (w: seq<nat>)
    requires n < |keys| && forall p :: 0 <= p < |v| ==> v[p] < n
    ensures forall p :: 0 <= p < |w| ==> w[p] <= n
  {
    match Find(keys, v, keys[n], |v|)
    case None => v + [n]
    case Some(p) => v[p := n]
  }

  /** The last row of each key among the first n, keys in the order they first appear. */
  function WinnersTo<K(==)>(keys: seq<K>, n: nat): (w: seq<nat>)
    requires n <= |keys|
    ensures forall p :: 0 <= p < |w| ==> w[p] < n
  {
    if n == 0 then [] else Enter(keys, WinnersTo(keys, n - 1), n - 1)
  }

  function Winners<K(==)>(keys: seq<K>): (w: seq<nat>)
    ensures forall p :: 0 <= p < |w| ==> w[p] < |keys|
  {
    WinnersTo(keys, |keys|)
  }

  /** Each winner is the last of its key, no key has two, and every key has one. */
  ghost predicate LastOfEach<K>(keys: seq<K>, n: nat, w: seq<nat>)
    requires n <= |keys|
  {
    && (forall p :: 0 <= p < |w| ==> w[p] < n)
    && (forall p, j :: 0 <= p < |w| && w[p] < j < n ==> keys[j] != keys[w[p]])
    && (forall p, q :: 0 <= p < q < |w| ==> keys[w[p]] != keys[w[q]])
    && (forall j {:trigger HasWinner(keys, w, keys[j])} :: 0 <= j < n ==> HasWinner(keys, w, keys[j]))
  }

  ghost predicate HasWinner<K>(keys: seq<K>, w: seq<nat>, k: K) {
    exists p :: 0 <= p < |w| && w[p] < |keys| && keys[w[p]] == k
  }

  lemma {:induction false} WinnersAreLast<K>(keys: seq<K>, n: nat)
    requires n <= |keys|
    ensures LastOfEach(keys, n, WinnersTo(keys, n))
    decreases n
  {
    if n > 0 {
      WinnersAreLast(keys, n - 1);
      EnterLast(keys, WinnersTo(keys, n - 1), n - 1);
    }
  }

  lemma EnterLast<K>(keys: seq<K>, v: seq<nat>, n: nat)
    requires n < |keys| && LastOfEach(keys, n, v)
    ensures LastOfEach(keys, n + 1, Enter(keys, v, n))
  {
    match Find(keys, v, keys[n], |v|)
    case None => EnterNew(keys, v, n);
    case Some(p) => EnterKnown(keys, v, n, p);
  }

  lemma EnterNew<K>(keys: seq<K>, v: seq<nat>, n: nat)
    requires n < |keys| && LastOfEach(keys, n, v) && forall p :: 0 <= p < |v| ==> keys[v[p]] != keys[n]
    ensures LastOfEach(keys, n + 1, v + [n])
  {
    var w := v + [n];
    forall j | 0 <= j < n + 1 ensures HasWinner(keys, w, keys[j]) {
      if j < n {
        assert HasWinner(keys, v, keys[j]);
        var p :| 0 <= p < |v| && v[p] < |keys| && keys[v[p]] == keys[j];
        assert w[p] == v[p];
      } else {
        assert w[|v|] == n;
      }
    }
  }

  lemma EnterKnown<K>(keys: seq<K>, v: seq<nat>, n: nat, q: nat)
    requires n < |keys| && LastOfEach(keys, n, v) && q < |v| && keys[v[q]] == keys[n]
    ensures LastOfEach(keys, n + 1, v[q := n])
  {
    var w := v[q := n];
    forall j | 0 <= j < n + 1 ensures HasWinner(keys, w, keys[j]) {
      if j < n {
        assert HasWinner(keys, v, keys[j]);
        var p :| 0 <= p < |v| && v[p] < |keys| && keys[v[p]] == keys[j];
        assert keys[w[p]] == keys[j];
      } else {
        assert w[q] == n;
      }
    }
  }

  /** Only which keys are equal matters: any exact encoding of the keys gives the
      same winners. */
  ghost predicate SamePattern<K, L>(keys: seq<K>, codes: seq<L>) {
    |keys| == |codes| && forall i, j :: 0 <= i < |keys| && 0 <= j < |keys| ==> SameAt(keys, codes, i, j)
  }

  ghost predicate SameAt<K, L>(keys: seq<K>, codes: seq<L>, i: nat, j: nat)
    requires i < |keys| == |codes| && j < |keys|
  {
    keys[i] == keys[j] <==> codes[i] == codes[j]
  }

  lemma {:induction false} SameWinners<K, L>(keys: seq<K>, codes: seq<L>, n: nat)
    requires SamePattern(keys, codes) && n <= |keys|
    ensures WinnersTo(keys, n) == WinnersTo(codes, n)
    decreases n
  {
    if n > 0 {
      SameWinners(keys, codes, n - 1);
      SameNext(keys, codes, n);
    }
  }

  lemma SameNext<K, L>(keys: seq<K>, codes: seq<L>, n: nat)
    requires SamePattern(keys, codes) && 0 < n <= |keys| && WinnersTo(keys, n - 1) == WinnersTo(codes, n - 1)
    ensures WinnersTo(keys, n) == WinnersTo(codes, n)
  {
    SameEnter(keys, codes, WinnersTo(keys, n - 1), n - 1);
  }

  lemma SameEnter<K, L>(keys: seq<K>, codes: seq<L>, v: seq<nat>, n: nat)
    requires SamePattern(keys, codes) && n < |keys| && forall p :: 0 <= p < |v| ==> v[p] < n
    ensures Enter(keys, v, n) == Enter(codes, v, n)
  {
    SameFind(keys, codes, v, n, |v|);
  }

  lemma {:induction false} SameFind<K, L>(keys: seq<K>, codes: seq<L>, w: seq<nat>, n: nat, m: nat)
    requires SamePattern(keys, codes) && n < |keys| && m <= |w| && forall p :: 0 <= p < |w| ==> w[p] < |keys|
    ensures Find(keys, w, keys[n], m) == Find(codes, w, codes[n], m)
    decreases m
  {
    if m > 0 {
      SameFind(keys, codes, w, n, m - 1);
      assert SameAt(keys, codes, w[m - 1], n);
    }
  }

  // ------------------------------------------------------------- the collapse

  function KeysOf(rows: seq<Row>): (r: seq<seq<Value>>)
    ensures |r| == |rows| && forall i :: 0 <= i < |r| ==> r[i] == rows[i].key
  {
    seq(|rows|, i requires 0 <= i < |rows| => rows[i].key)
  }

  /** One row per distinct key: its last, in first-appearance order. */
  function Survivors(rows: seq<Row>): (r: seq<Row>)
    ensures |r| == |Winners(KeysOf(rows))|
  {
    var w := Winners(KeysOf(rows));
    seq(|w|, p requires 0 <= p < |w| => rows[w[p]])
  }

  /** Arrow's Filter by the mask "is a delete", or by its negation. */
  function ByDelete(rows: seq<Row>, deletes: bool): seq<Row> {
    if rows == [] then []
    else
      var n := |rows| - 1;
      ByDelete(rows[..n], deletes) + if (rows[n].op == OP_DELETE) == deletes then [rows[n]] else []
  }

  function Upserts(rows: seq<Row>): seq<Row> { ByDelete(Survivors(rows), false) }

  function Deletes(rows: seq<Row>): seq<Row> { ByDelete(Survivors(rows), true) }

  ghost predicate DistinctKeys(rows: seq<Row>) {
    forall i, j :: 0 <= i < j < |rows| ==> rows[i].key != rows[j].key
  }

  lemma SurvivorsAreWinners(rows: seq<Row>)
    ensures DistinctKeys(Survivors(rows))
    ensures var keys, s := KeysOf(rows), Survivors(rows);
      var w := Winners(keys);
      && LastOfEach(keys, |keys|, w) && |s| == |w|
      && forall p :: 0 <= p < |w| ==> s[p] == rows[w[p]] && s[p].key == keys[w[p]]
  {
    WinnersAreLast(KeysOf(rows), |rows|);
  }

  lemma SurvivorDecides(rows: seq<Row>, j: nat)
    requires j < |rows|
    ensures FateIn(Survivors(rows), rows[j].key) == FateIn(rows, rows[j].key)
  {
    var keys, k := KeysOf(rows), rows[j].key;
    var w, s := Winners(keys), Survivors(rows);
    SurvivorsAreWinners(rows);
    assert keys[j] == k && HasWinner(keys, w, keys[j]);
    var p :| 0 <= p < |w| && w[p] < |keys| && keys[w[p]] == k;
    FateIsLast(rows, k, w[p]);
    FateIsLast(s, k, p);
  }

  /** Survivors have distinct keys, and decide every key as the whole batch does. */
  lemma SurvivorsDecide(rows: seq<Row>, k: seq<Value>)
    ensures DistinctKeys(Survivors(rows)) && FateIn(Survivors(rows), k) == FateIn(rows, k)
  {
    SurvivorsAreWinners(rows);
    if j :| 0 <= j < |rows| && rows[j].key == k {
      SurvivorDecides(rows, j);
    } else {
      FateUntouched(rows, k);
      FateUntouched(Survivors(rows), k);
    }
  }

  /** Splitting rows with distinct keys by operation splits the fates. */
  lemma {:induction false} SplitDecides(rows: seq<Row>, k: seq<Value>)
    requires DistinctKeys(rows)
    ensures var u, d := FateIn(ByDelete(rows, false), k), FateIn(ByDelete(rows, true), k);
      && (u == Untouched || d == Untouched)
      && FateIn(rows, k) == (if u == Untouched then d else u)
    decreases |rows|
  {
    if rows != [] {
      var n := |rows| - 1;
      SplitDecides(rows[..n], k);
      FateOfMore(ByDelete(rows[..n], false), rows[n], k);
      FateOfMore(ByDelete(rows[..n], true), rows[n], k);
      if rows[n].key == k { NotAgain(rows[..n], k, true); NotAgain(rows[..n], k, false); }
    }
  }

  lemma FateOfMore(rows: seq<Row>, r: Row, k: seq<Value>)
    ensures FateIn(rows + [r], k) == if r.key == k then FateOf(r) else FateIn(rows, k)
    ensures rows + [] == rows
  {
    assert (rows + [r])[..|rows|] == rows;
  }

  lemma {:induction false} NotAgain(rows: seq<Row>, k: seq<Value>, deletes: bool)
    requires forall i :: 0 <= i < |rows| ==> rows[i].key != k
    ensures FateIn(ByDelete(rows, deletes), k) == Untouched
    decreases |rows|
  {
    if rows != [] {
      var n := |rows| - 1;
      NotAgain(rows[..n], k, deletes);
      FateOfMore(ByDelete(rows[..n], deletes), rows[n], k);
    }
  }

  /** Collapse preserves meaning: from any table, the deletes and the upserts in
      either order leave what every row in sequence leaves. */
  lemma CollapsePreservesMeaning(rows: seq<Row>, t: Table)
    ensures Apply(Upserts(rows), Apply(Deletes(rows), t)) == Apply(rows, t)
    ensures Apply(Deletes(rows), Apply(Upserts(rows), t)) == Apply(rows, t)
  {
    forall k
      ensures Lookup(Apply(Upserts(rows), Apply(Deletes(rows), t)), k) == Lookup(Apply(rows, t), k)
      ensures Lookup(Apply(Deletes(rows), Apply(Upserts(rows), t)), k) == Lookup(Apply(rows, t), k)
    {
      SurvivorsDecide(rows, k);
      SplitDecides(Survivors(rows), k);
      ApplyDecides(rows, t, k);
      ApplyDecides(Deletes(rows), t, k);
      ApplyDecides(Upserts(rows), Apply(Deletes(rows), t), k);
      ApplyDecides(Upserts(rows), t, k);
      ApplyDecides(Deletes(rows), Apply(Upserts(rows), t), k);
    }
    SameTable(Apply(Upserts(rows), Apply(Deletes(rows), t)), Apply(rows, t));
    SameTable(Apply(Deletes(rows), Apply(Upserts(rows), t)), Apply(rows, t));
  }

  // ---------------------------------------------------- what the outputs hold

  /** Among the first n keys, a comes before b ever does. */
  ghost predicate AppearsBefore<K>(keys: seq<K>, n: nat, a: K, b: K)
    requires n <= |keys|
  {
    exists i :: 0 <= i < n && keys[i] == a && forall j :: 0 <= j < n && keys[j] == b ==> i < j
  }

  ghost predicate InAppearanceOrder<K>(keys: seq<K>, n: nat, w: seq<nat>)
    requires n <= |keys|
  {
    && (forall p :: 0 <= p < |w| ==> w[p] < n)
    && forall p, q :: 0 <= p < q < |w| ==> AppearsBefore(keys, n, keys[w[p]], keys[w[q]])
  }

  lemma StillBefore<K>(keys: seq<K>, n: nat, a: K, b: K)
    requires n < |keys| && AppearsBefore(keys, n, a, b)
    ensures AppearsBefore(keys, n + 1, a, b)
  {
    var i :| 0 <= i < n && keys[i] == a && forall j :: 0 <= j < n && keys[j] == b ==> i < j;
  }

  lemma EnterInOrder<K>(keys: seq<K>, v: seq<nat>, n: nat)
    requires n < |keys| && LastOfEach(keys, n, v) && InAppearanceOrder(keys, n, v)
    ensures InAppearanceOrder(keys, n + 1, Enter(keys, v, n))
  {
    var w := Enter(keys, v, n);
    forall p, q | 0 <= p < q < |w| ensures AppearsBefore(keys, n + 1, keys[w[p]], keys[w[q]]) {
      assert keys[w[p]] == keys[v[p]];
      if q < |v| {
        assert keys[w[q]] == keys[v[q]];
        StillBefore(keys, n, keys[v[p]], keys[v[q]]);
      } else {
        NewComesLast(keys, v, n, p);
      }
    }
  }

  lemma NewComesLast<K>(keys: seq<K>, v: seq<nat>, n: nat, p: nat)
    requires n < |keys| && LastOfEach(keys, n, v) && p < |v| && forall q :: 0 <= q < |v| ==> keys[v[q]] != keys[n]
    ensures AppearsBefore(keys, n + 1, keys[v[p]], keys[n])
  {
    forall j | 0 <= j < n ensures keys[j] != keys[n] { assert HasWinner(keys, v, keys[j]); }
    assert keys[v[p]] == keys[v[p]] && v[p] < n;
  }

  /** Winners come in the order their keys first appear. */
  lemma {:induction false} FirstAppearanceOrder<K>(keys: seq<K>, n: nat)
    requires n <= |keys|
    ensures InAppearanceOrder(keys, n, WinnersTo(keys, n))
    decreases n
  {
    if n > 0 {
      FirstAppearanceOrder(keys, n - 1);
      WinnersAreLast(keys, n - 1);
      EnterInOrder(keys, WinnersTo(keys, n - 1), n - 1);
    }
  }

  lemma {:induction false} ByDeleteHolds(rows: seq<Row>, deletes: bool, r: Row)
    ensures r in ByDelete(rows, deletes) <==> r in rows && (r.op == OP_DELETE) == deletes
    ensures |ByDelete(rows, true)| + |ByDelete(rows, false)| == |rows|
    decreases |rows|
  {
    if rows != [] {
      var n := |rows| - 1;
      ByDeleteHolds(rows[..n], deletes, r);
      assert rows == rows[..n] + [rows[n]];
    }
  }

  function KeySet(rows: seq<Row>): set<seq<Value>> { set r | r in rows :: r.key }

  lemma SurvivorsKeepKeys(rows: seq<Row>)
    ensures KeySet(Survivors(rows)) == KeySet(rows)
    ensures forall r :: r in Survivors(rows) ==> r in rows
  {
    var s, keys := Survivors(rows), KeysOf(rows);
    SurvivorsAreWinners(rows);
    forall r | r in rows ensures r.key in KeySet(s) {
      var i :| 0 <= i < |rows| && rows[i] == r;
      var w := Winners(keys);
      assert HasWinner(keys, w, keys[i]);
      var p :| 0 <= p < |w| && w[p] < |keys| && keys[w[p]] == keys[i];
      assert s[p] in s && s[p].key == r.key;
    }
  }

  /** The two outputs have no key in common, and hold one row of the batch per
      distinct key between them. */
  lemma OutputsCoverKeysOnce(rows: seq<Row>)
    ensures KeySet(Upserts(rows)) !! KeySet(Deletes(rows))
    ensures KeySet(Upserts(rows)) + KeySet(Deletes(rows)) == KeySet(rows)
    ensures |Upserts(rows)| + |Deletes(rows)| == |KeySet(rows)|
    ensures forall r :: r in Upserts(rows) || r in Deletes(rows) ==> r in rows
  {
    var s := Survivors(rows);
    SurvivorsKeepKeys(rows);
    SurvivorsDecide(rows, []);
    forall r ensures r in Upserts(rows) <==> r in s && r.op != OP_DELETE { ByDeleteHolds(s, false, r); }
    forall r ensures r in Deletes(rows) <==> r in s && r.op == OP_DELETE { ByDeleteHolds(s, true, r); }
    ByDeleteHolds(s, true, Row([], 0, []));
    CountKeys(s);
    forall u, d | u in Upserts(rows) && d in Deletes(rows) ensures u.key != d.key { KeyTellsRow(s, u, d); }
  }

  ghost predicate IsLast(rows: seq<Row>, r: Row) { exists i: nat :: LastOfKey(rows, i) && rows[i] == r }

  lemma SurvivorsAreLast(rows: seq<Row>, r: Row)
    ensures r in Survivors(rows) <==> IsLast(rows, r)
  {
    var keys, s := KeysOf(rows), Survivors(rows);
    var w := Winners(keys);
    SurvivorsAreWinners(rows);
    if r in s {
      var p :| 0 <= p < |s| && s[p] == r;
      assert forall j :: w[p] < j < |rows| ==> keys[j] != keys[w[p]];
      assert LastOfKey(rows, w[p]);
    }
    if i: nat :| LastOfKey(rows, i) && rows[i] == r {
      assert HasWinner(keys, w, keys[i]);
      var p :| 0 <= p < |w| && w[p] < |keys| && keys[w[p]] == keys[i];
      assert w[p] == i && s[p] == r;
    }
  }

  /** The upserts are the rows last with their key that are no deletes, the deletes
      those that are. */
  lemma OutputsAreLastRows(rows: seq<Row>, r: Row)
    ensures r in Upserts(rows) <==> IsLast(rows, r) && r.op != OP_DELETE
    ensures r in Deletes(rows) <==> IsLast(rows, r) && r.op == OP_DELETE
  {
    SurvivorsAreLast(rows, r);
    ByDeleteHolds(Survivors(rows), false, r);
    ByDeleteHolds(Survivors(rows), true, r);
  }

  lemma KeyTellsRow(rows: seq<Row>, u: Row, d: Row)
    requires DistinctKeys(rows) && u in rows && d in rows && u != d
    ensures u.key != d.key
  {
    var i :| 0 <= i < |rows| && rows[i] == u;
    var j :| 0 <= j < |rows| && rows[j] == d;
  }

  lemma {:induction false} CountKeys(rows: seq<Row>)
    requires DistinctKeys(rows)
    ensures |KeySet(rows)| == |rows|
    decreases |rows|
  {
    if rows == [] {
      assert KeySet(rows) == {};
    } else {
      var n := |rows| - 1;
      CountKeys(rows[..n]);
      assert rows == rows[..n] + [rows[n]];
      assert KeySet(rows) == KeySet(rows[..n]) + {rows[n].key};
      assert rows[n].key !in KeySet(rows[..n]);
    }
  }

  // --------------------------------------------------------------- the method

  datatype Result = Nothing | Failed | Collapsed(upserts: seq<Row>, deletes: seq<Row>)

  predicate KnownOp(op: nat) { op == OP_INSERT || op == OP_UPDATE || op == OP_DELETE }

  /** Rows whose key columns have the types ks, with encodable keys. */
  ghost predicate Keyable(ks: seq<Kind>, rows: seq<Row>) {
    forall i :: 0 <= i < |rows| ==>
      TypedAll(ks, rows[i].key) && forall j :: 0 <= j < |rows[i].key| ==> Short(rows[i].key[j])
  }

  /** Collapse: encode every key, check every operation, group by the encoded bytes
      in one pass, take the winners, and split them by operation. */
  method CollapseBatch(ks: seq<Kind>, rows: seq<Row>) returns (r: Result)
    requires Keyable(ks, rows)
    ensures r.Nothing? <==> rows == []
    ensures r.Failed? <==>
      && rows != []
      && (ks == [] || exists i :: 0 <= i < |rows| && (Encode(ks, rows[i].key).None? || !KnownOp(rows[i].op)))
    ensures r.Collapsed? ==> r.upserts == Upserts(rows) && r.deletes == Deletes(rows)
  {
    if |rows| == 0 { return Nothing; }
    if |ks| == 0 { return Failed; }
    var encoded := EncodeKeys(ks, rows);
    if encoded.None? { return Failed; }
    for i := 0 to |rows|
      invariant forall j :: 0 <= j < i ==> KnownOp(rows[j].op)
    {
      if !KnownOp(rows[i].op) { return Failed; }
    }
    var winners := GroupByCode(encoded.value);
    SameWinners(KeysOf(rows), encoded.value, |rows|);
    var taken := seq(|winners|, p requires 0 <= p < |winners| => rows[winners[p]]);
    var upserts := FilterByDelete(taken, false);
    var deletes := FilterByDelete(taken, true);
    assert taken == Survivors(rows);
    r := Collapsed(upserts, deletes);
  }

  /** The encoded keys, which are equal exactly where the keys are. */
  method EncodeKeys(ks: seq<Kind>, rows: seq<Row>) returns (r: Option<seq<seq<Byte>>>)
    requires Keyable(ks, rows)
    ensures r.None? <==> exists i :: 0 <= i < |rows| && Encode(ks, rows[i].key).None?
    ensures r.Some? ==> SamePattern(KeysOf(rows), r.value)
  {
    var codes: seq<seq<Byte>> := [];
    for i := 0 to |rows|
      invariant |codes| == i && forall j :: 0 <= j < i ==> Encode(ks, rows[j].key) == Some(codes[j])
    {
      var code := Encode(ks, rows[i].key);
      if code.None? { return None; }
      codes := codes + [code.value];
    }
    forall i, j | 0 <= i < |rows| && 0 <= j < |rows|
      ensures SameAt(KeysOf(rows), codes, i, j)
    {
      EncodeInjective(ks, rows[i].key, rows[j].key);
    }
    r := Some(codes);
  }

  /** The grouping scan: the map holds each key's latest row, the list the order in
      which keys were first met. */
  method GroupByCode(codes: seq<seq<Byte>>) returns (idxs: seq<nat>)
    ensures idxs == Winners(codes)
  {
    var groups: map<seq<Byte>, nat> := map[];
    var order: seq<seq<Byte>> := [];
    for i := 0 to |codes|
      invariant Grouped(codes, groups, order, WinnersTo(codes, i))
    {
      ScanOne(codes, groups, order, i);
      if codes[i] !in groups { order := order + [codes[i]]; }
      groups := groups[codes[i] := i];
    }
    idxs := [];
    for p := 0 to |order|
      invariant idxs == Winners(codes)[..p]
    {
      idxs := idxs + [groups[order[p]]];
    }
  }

  ghost predicate Grouped(codes: seq<seq<Byte>>, groups: map<seq<Byte>, nat>, order: seq<seq<Byte>>, w: seq<nat>) {
    && |order| == |w|
    && (forall p :: 0 <= p < |w| ==>
          w[p] < |codes| && order[p] == codes[w[p]] && order[p] in groups && groups[order[p]] == w[p])
    && (forall c :: c in groups ==> c in order)
    && Distinct(order)
  }

  lemma ScanOne(codes: seq<seq<Byte>>, groups: map<seq<Byte>, nat>, order: seq<seq<Byte>>, i: nat)
    requires i < |codes| && Grouped(codes, groups, order, WinnersTo(codes, i))
    ensures var order' := if codes[i] in groups then order else order + [codes[i]];
      Grouped(codes, groups[codes[i] := i], order', WinnersTo(codes, i + 1))
  {
    var v := WinnersTo(codes, i);
    NextFound(codes, groups, order, v, i);
    match Find(codes, v, codes[i], |v|)
    case None => ScanNew(codes, groups, order, v, i);
    case Some(p) => ScanKnown(codes, groups, order, v, i, p);
  }

  lemma NextFound(codes: seq<seq<Byte>>, groups: map<seq<Byte>, nat>, order: seq<seq<Byte>>, v: seq<nat>, i: nat)
    requires i < |codes| && Grouped(codes, groups, order, v) && forall p :: 0 <= p < |v| ==> v[p] < i
    ensures match Find(codes, v, codes[i], |v|)
      case None => codes[i] !in groups
      case Some(p) => order[p] == codes[i] && codes[i] in groups
  {
    if codes[i] in groups {
      var p :| 0 <= p < |order| && order[p] == codes[i];
    }
  }

  lemma ScanKnown(codes: seq<seq<Byte>>, groups: map<seq<Byte>, nat>, order: seq<seq<Byte>>, v: seq<nat>,
                  i: nat, p: nat)
    requires i < |codes| && Grouped(codes, groups, order, v) && p < |v| && order[p] == codes[i]
    ensures Grouped(codes, groups[codes[i] := i], order, v[p := i])
  {
  }

  lemma ScanNew(codes: seq<seq<Byte>>, groups: map<seq<Byte>, nat>, order: seq<seq<Byte>>, v: seq<nat>, i: nat)
    requires i < |codes| && Grouped(codes, groups, order, v) && codes[i] !in groups
    ensures Grouped(codes, groups[codes[i] := i], order + [codes[i]], v + [i])
  {
    var more := order + [codes[i]];
    assert forall p :: 0 <= p < |order| ==> more[p] == order[p] && order[p] != codes[i];
  }

  method FilterByDelete(rows: seq<Row>, deletes: bool) returns (r: seq<Row>)
    ensures r == ByDelete(rows, deletes)
  {
    r := [];
    for i := 0 to |rows|
      invariant r == ByDelete(rows[..i], deletes)
    {
      assert rows[..i + 1][..i] == rows[..i];
      if (rows[i].op == OP_DELETE) == deletes { r := r + [rows[i]]; }
    }
    assert rows[..|rows|] == rows;
  }
}
