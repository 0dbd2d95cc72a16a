/** MySQL GTID sets (position/gtid.go): per server, a list of half-open
    transaction ranges, ordered by containment. */
module Gtid {
  import opened Text
  import opened Order

  /** The half-open range [start, stop) of transaction numbers. */
  datatype Interval = Interval(start: nat, stop: nat)

  /** The sets of a GTID position: server (or server:tag) to its ranges. */
  type Set = map<string, seq<Interval>>

  predicate Valid(ivs: seq<Interval>) {
    forall i :: 0 <= i < |ivs| ==> ivs[i].start < ivs[i].stop
  }

  /** Transaction n lies in one of the ranges. */
  ghost predicate Has(ivs: seq<Interval>, n: nat) {
    exists i :: 0 <= i < |ivs| && ivs[i].start <= n < ivs[i].stop
  }

  /** Sorted, with a gap between any two ranges: neither overlapping nor
      adjacent. */
  ghost predicate Normal(ivs: seq<Interval>) {
    Valid(ivs) && forall i, j :: 0 <= i < j < |ivs| ==> ivs[i].stop < ivs[j].start
  }

  ghost predicate WellFormed(s: Set) {
    forall u :: u in s ==> Normal(s[u]) && s[u] != []
  }

  ghost function Transactions(s: Set): iset<(string, nat)> {
    iset u: string, n: nat | u in s && Has(s[u], n) :: (u, n)
  }

  // ------------------------------------------------------- in-place normalize

  predicate InOrder(a: Interval, b: Interval) {
    a.start < b.start || (a.start == b.start && a.stop <= b.stop)
  }

  ghost predicate Sorted(ivs: seq<Interval>) {
    forall i, j :: 0 <= i < j < |ivs| ==> InOrder(ivs[i], ivs[j])
  }

  method Swap(a: array<Interval>, j: nat)
    requires 0 < j < a.Length
    modifies a
    ensures a[..] == old(a[..])[j - 1 := old(a[j])][j := old(a[j - 1])]
    ensures multiset(a[..]) == old(multiset(a[..]))
  {
    a[j - 1], a[j] := a[j], a[j - 1];
  }

  /** slices.SortFunc by start, then stop. */
  method Sort(a: array<Interval>)
    modifies a
    ensures Sorted(a[..]) && multiset(a[..]) == old(multiset(a[..]))
  {
    for i := 0 to a.Length
      invariant Sorted(a[..i]) && multiset(a[..]) == old(multiset(a[..]))
    {
      var j := i;
      while j > 0 && !InOrder(a[j - 1], a[j])
        invariant 0 <= j <= i
        invariant multiset(a[..]) == old(multiset(a[..]))
        invariant forall p, q :: 0 <= p < q <= i && q != j ==> InOrder(a[p], a[q])
      {
        Swap(a, j);
        j := j - 1;
      }
    }
    assert a[..a.Length] == a[..];
  }

  lemma HasSame(s: seq<Interval>, t: seq<Interval>, n: nat)
    requires multiset(s) == multiset(t)
    ensures Has(s, n) <==> Has(t, n)
  {
    if i :| 0 <= i < |s| && s[i].start <= n < s[i].stop {
      assert s[i] in multiset(t);
      var j :| 0 <= j < |t| && t[j] == s[i];
    }
    if i :| 0 <= i < |t| && t[i].start <= n < t[i].stop {
      assert t[i] in multiset(s);
      var j :| 0 <= j < |s| && s[j] == t[i];
    }
  }

  lemma HasAppend(s: seq<Interval>, iv: Interval, n: nat)
    ensures Has(s + [iv], n) <==> Has(s, n) || iv.start <= n < iv.stop
  {
    if Has(s, n) {
      var i :| 0 <= i < |s| && s[i].start <= n < s[i].stop;
      assert (s + [iv])[i] == s[i];
    }
    if iv.start <= n < iv.stop { assert (s + [iv])[|s|] == iv; }
  }

  /** One turn of the merge: a range that starts beyond the last one's end is
      appended, any other widens the last one. */
  function Absorb(acc: seq<Interval>, iv: Interval): (r: seq<Interval>)
    ensures |acc| <= |r| <= |acc| + 1 && r != []
  {
    if acc == [] || iv.start > acc[|acc| - 1].stop then acc + [iv]
    else if iv.stop > acc[|acc| - 1].stop then acc[|acc| - 1 := Interval(acc[|acc| - 1].start, iv.stop)]
    else acc
  }

  /** The merge of the first k ranges. */
  function Merged(ivs: seq<Interval>, k: nat): (r: seq<Interval>)
    requires k <= |ivs|
    ensures |r| <= k && (r == [] <==> k == 0)
  {
    if k == 0 then [] else Absorb(Merged(ivs, k - 1), ivs[k - 1])
  }

  function MergeAll(ivs: seq<Interval>): (r: seq<Interval>)
    ensures |r| <= |ivs| && (r == [] <==> ivs == [])
  {
    Merged(ivs, |ivs|)
  }

  lemma AbsorbNormal(acc: seq<Interval>, iv: Interval)
    requires Normal(acc) && iv.start < iv.stop
    requires acc != [] ==> acc[|acc| - 1].start <= iv.start
    ensures Normal(Absorb(acc, iv)) && Absorb(acc, iv)[|Absorb(acc, iv)| - 1].start <= iv.start
  {
  }

  lemma AbsorbHas(acc: seq<Interval>, iv: Interval, t: nat)
    requires acc != [] ==> acc[|acc| - 1].start <= iv.start
    ensures Has(Absorb(acc, iv), t) <==> Has(acc, t) || iv.start <= t < iv.stop
  {
    var r := Absorb(acc, iv);
    if |r| > |acc| {
      HasAppend(acc, iv, t);
    } else {
      var k := |acc| - 1;
      assert acc == acc[..k] + [acc[k]] && r == acc[..k] + [r[k]];
      HasAppend(acc[..k], acc[k], t);
      HasAppend(acc[..k], r[k], t);
    }
  }

  /** Merging a sorted list leaves gaps everywhere. */
  lemma {:induction false} MergeNormal(ivs: seq<Interval>, k: nat)
    requires Sorted(ivs) && Valid(ivs) && k <= |ivs|
    ensures Normal(Merged(ivs, k))
    ensures k > 0 ==> Merged(ivs, k)[|Merged(ivs, k)| - 1].start <= ivs[k - 1].start
    decreases k
  {
    if k > 0 {
      MergeNormal(ivs, k - 1);
      if k > 1 { assert InOrder(ivs[k - 2], ivs[k - 1]); }
      AbsorbNormal(Merged(ivs, k - 1), ivs[k - 1]);
    }
  }

  /** Merging a sorted list keeps its transactions. */
  lemma {:induction false} MergeHas(ivs: seq<Interval>, k: nat, t: nat)
    requires Sorted(ivs) && Valid(ivs) && k <= |ivs|
    ensures Has(Merged(ivs, k), t) <==> HasBefore(ivs, k, t)
    decreases k
  {
    if k > 0 {
      var acc, iv := Merged(ivs, k - 1), ivs[k - 1];
      MergeHas(ivs, k - 1, t);
      assert acc != [] ==> acc[|acc| - 1].start <= iv.start by {
        MergeNormal(ivs, k - 1);
        if k > 1 { assert InOrder(ivs[k - 2], iv); }
      }
      AbsorbHas(acc, iv, t);
    }
  }

  /** Transaction n lies in one of the first k ranges. */
  ghost predicate HasBefore(ivs: seq<Interval>, k: nat, n: nat)
    requires k <= |ivs|
  {
    k > 0 && (ivs[k - 1].start <= n < ivs[k - 1].stop || HasBefore(ivs, k - 1, n))
  }

  lemma {:induction false} HasBeforeAll(ivs: seq<Interval>, k: nat, n: nat)
    requires k <= |ivs|
    ensures HasBefore(ivs, k, n) <==> exists i :: 0 <= i < k && ivs[i].start <= n < ivs[i].stop
    decreases k
  {
    if k > 0 { HasBeforeAll(ivs, k - 1, n); }
  }

  /** Where an ordered list takes one more range. */
  function Insert(ivs: seq<Interval>, iv: Interval): seq<Interval> {
    if ivs == [] || InOrder(iv, ivs[0]) then [iv] + ivs else [ivs[0]] + Insert(ivs[1..], iv)
  }

  function SortOf(ivs: seq<Interval>): seq<Interval> {
    if ivs == [] then [] else Insert(SortOf(ivs[1..]), ivs[0])
  }

  lemma {:induction false} InsertSorts(ivs: seq<Interval>, iv: Interval)
    requires Sorted(ivs)
    ensures Sorted(Insert(ivs, iv)) && multiset(Insert(ivs, iv)) == multiset(ivs) + multiset{iv}
    decreases |ivs|
  {
    if ivs != [] && !InOrder(iv, ivs[0]) {
      InsertSorts(ivs[1..], iv);
      var r := Insert(ivs[1..], iv);
      assert ivs == [ivs[0]] + ivs[1..];
      forall i | 0 <= i < |r| ensures InOrder(ivs[0], r[i]) {
        assert r[i] in multiset(r);
        assert r[i] == iv || r[i] in ivs[1..];
      }
    }
  }

  lemma {:induction false} SortOfSorts(ivs: seq<Interval>)
    ensures Sorted(SortOf(ivs)) && multiset(SortOf(ivs)) == multiset(ivs)
    decreases |ivs|
  {
    if ivs != [] {
      SortOfSorts(ivs[1..]);
      InsertSorts(SortOf(ivs[1..]), ivs[0]);
      assert ivs == [ivs[0]] + ivs[1..];
    }
  }

  /** The one normal list with the same transactions. */
  function NormalForm(ivs: seq<Interval>): seq<Interval> { MergeAll(SortOf(ivs)) }

  lemma NormalFormKeeps(ivs: seq<Interval>)
    requires Valid(ivs)
    ensures Normal(NormalForm(ivs)) && (NormalForm(ivs) == [] <==> ivs == [])
    ensures forall t: nat :: Has(NormalForm(ivs), t) <==> Has(ivs, t)
  {
    SortOfSorts(ivs);
    var s := SortOf(ivs);
    SameLength(s, ivs);
    forall i | 0 <= i < |s| ensures s[i].start < s[i].stop { assert s[i] in multiset(ivs); }
    MergeNormal(s, |s|);
    forall t: nat ensures Has(NormalForm(ivs), t) <==> Has(ivs, t) {
      MergeHas(s, |s|, t);
      HasBeforeAll(s, |s|, t);
      HasSame(s, ivs, t);
    }
  }

  lemma SameLength(s: seq<Interval>, t: seq<Interval>)
    requires multiset(s) == multiset(t)
    ensures |s| == |t|
  {
    assert |multiset(s)| == |s| && |multiset(t)| == |t|;
  }

  /** Any normal list with the same transactions is the normal form. */
  lemma NormalFormUnique(ivs: seq<Interval>, r: seq<Interval>)
    requires Valid(ivs) && Normal(r)
    requires forall t: nat :: Has(r, t) <==> Has(ivs, t)
    ensures r == NormalForm(ivs)
  {
    NormalFormKeeps(ivs);
    CoversIsInclusion(r, NormalForm(ivs));
    CoversIsInclusion(NormalForm(ivs), r);
    NormalIsCanonical(r, NormalForm(ivs));
  }

  /** The merge loop of normalize: it overwrites the front of the array it is
      still reading, always behind the reading index. */
  method MergeInPlace(a: array<Interval>) returns (n: nat)
    modifies a
    ensures n <= a.Length && a[..n] == MergeAll(old(a[..]))
  {
    if a.Length == 0 { return 0; }
    ghost var was := a[..];
    n := 1;
    assert a[..1] == [] + [was[0]];
    var i := 1;
    while i < a.Length
      invariant 1 <= n <= i <= a.Length
      invariant forall k :: i <= k < a.Length ==> a[k] == was[k]
      invariant a[..n] == Merged(was, i)
    {
      ghost var acc := a[..n];
      var iv := a[i];
      if iv.start > a[n - 1].stop {
        a[n] := iv;
        n := n + 1;
      } else if iv.stop > a[n - 1].stop {
        a[n - 1] := Interval(a[n - 1].start, iv.stop);
      }
      assert a[..n] == Absorb(acc, iv);
      i := i + 1;
    }
  }

  /** normalize: sorts, then merges overlapping and adjacent ranges into the
      front of the same array; the first n entries are the result. */
  method Normalize(a: array<Interval>) returns (n: nat)
    requires Valid(a[..])
    modifies a
    ensures n <= a.Length && Normal(a[..n]) && (n == 0 <==> a.Length == 0)
    ensures forall t: nat :: Has(a[..n], t) <==> Has(old(a[..]), t)
  {
    if a.Length < 2 { return a.Length; }
    ghost var given := a[..];
    Sort(a);
    ghost var sorted := a[..];
    forall i | 0 <= i < |sorted| ensures sorted[i].start < sorted[i].stop { assert sorted[i] in multiset(given); }
    n := MergeInPlace(a);
    forall t: nat ensures Has(a[..n], t) <==> Has(given, t) {
      HasSame(sorted, given, t);
      MergeHas(sorted, |sorted|, t);
      HasBeforeAll(sorted, |sorted|, t);
    }
    MergeNormal(sorted, |sorted|);
  }

  method NormalizeSeq(ivs: seq<Interval>) returns (r: seq<Interval>)
    requires Valid(ivs)
    ensures Normal(r) && (r == [] <==> ivs == [])
    ensures forall t: nat :: Has(r, t) <==> Has(ivs, t)
  {
    var a := new Interval[|ivs|](i requires 0 <= i < |ivs| => ivs[i]);
    assert a[..] == ivs;
    var n := Normalize(a);
    r := a[..n];
  }

  // ------------------------------------------------- containment, order, join

  predicate Within(iv: Interval, c: Interval) { c.start <= iv.start && iv.stop <= c.stop }

  /** The range lies inside one range of s. */
  predicate Covered(s: seq<Interval>, iv: Interval) {
    exists j :: 0 <= j < |s| && Within(iv, s[j])
  }

  predicate CoversAll(s: seq<Interval>, sub: seq<Interval>) {
    forall i :: 0 <= i < |sub| ==> Covered(s, sub[i])
  }

  predicate Contains(g: Set, o: Set) {
    forall u :: u in o ==> u in g && CoversAll(g[u], o[u])
  }

  function Compare(g: Set, o: Set): int { ByContainment(Contains(g, o), Contains(o, g)) }

  /** A range whose numbers all lie in a normal list lies in one of its ranges:
      the list has a gap after each of them. */
  lemma OneRange(s: seq<Interval>, iv: Interval)
    requires Normal(s) && iv.start < iv.stop
    requires forall n: nat :: iv.start <= n < iv.stop ==> Has(s, n)
    ensures Covered(s, iv)
  {
    assert Has(s, iv.start);
    var j :| 0 <= j < |s| && s[j].start <= iv.start < s[j].stop;
    NotAfter(s, j);
    assert Within(iv, s[j]);
  }

  lemma NotAfter(s: seq<Interval>, j: nat)
    requires Normal(s) && j < |s|
    ensures !Has(s, s[j].stop)
  {
  }

  lemma CoversIsInclusion(s: seq<Interval>, sub: seq<Interval>)
    requires Normal(s) && Valid(sub)
    ensures CoversAll(s, sub) <==> forall n: nat :: Has(sub, n) ==> Has(s, n)
  {
    if CoversAll(s, sub) {
      forall n: nat | Has(sub, n) ensures Has(s, n) {
        var i :| 0 <= i < |sub| && sub[i].start <= n < sub[i].stop;
        assert Covered(s, sub[i]);
      }
    }
    if forall n: nat :: Has(sub, n) ==> Has(s, n) {
      forall i | 0 <= i < |sub| ensures Covered(s, sub[i]) {
        forall n: nat | sub[i].start <= n < sub[i].stop ensures Has(s, n) { assert Has(sub, n); }
        OneRange(s, sub[i]);
      }
    }
  }

  /** On well-formed sets Contains is exactly inclusion of transactions. */
  lemma ContainsIsInclusion(g: Set, o: Set)
    requires WellFormed(g) && WellFormed(o)
    ensures Contains(g, o) <==> Transactions(o) <= Transactions(g)
  {
    forall u | u in g && u in o
      ensures CoversAll(g[u], o[u]) <==> forall n: nat :: Has(o[u], n) ==> Has(g[u], n)
    {
      CoversIsInclusion(g[u], o[u]);
    }
    if Transactions(o) <= Transactions(g) {
      forall u | u in o ensures u in g && CoversAll(g[u], o[u]) {
        assert Has(o[u], o[u][0].start);
        assert (u, o[u][0].start) in Transactions(o);
        forall n: nat | Has(o[u], n) ensures Has(g[u], n) { assert (u, n) in Transactions(o); }
      }
    }
  }

  /** Compare decides the inclusion order of transactions, and says so when
      neither set includes the other. */
  lemma CompareDecides(g: Set, o: Set)
    requires WellFormed(g) && WellFormed(o)
    ensures Compare(g, o) == 0 <==> Transactions(g) == Transactions(o)
    ensures Compare(g, o) == 1 <==> Transactions(o) < Transactions(g)
    ensures Compare(g, o) == -1 <==> Transactions(g) < Transactions(o)
    ensures Compare(g, o) == INCOMPARABLE <==>
      !(Transactions(g) <= Transactions(o)) && !(Transactions(o) <= Transactions(g))
  {
    ContainsIsInclusion(g, o);
    ContainsIsInclusion(o, g);
  }

  /** Two normal lists with the same numbers are the same list. */
  lemma {:induction false} NormalIsCanonical(s: seq<Interval>, t: seq<Interval>)
    requires Normal(s) && Normal(t) && CoversAll(s, t) && CoversAll(t, s)
    ensures s == t
    decreases |s|
  {
    if s == [] || t == [] {
      assert s != [] ==> Covered(t, s[0]);
      assert t != [] ==> Covered(s, t[0]);
    } else {
      FirstSame(s, t);
      TailCovered(s, t);
      TailCovered(t, s);
      NormalTail(s);
      NormalTail(t);
      NormalIsCanonical(s[1..], t[1..]);
      HeadTail(s, t);
    }
  }

  lemma NormalTail(s: seq<Interval>)
    requires Normal(s) && s != []
    ensures Normal(s[1..])
  {
  }

  lemma HeadTail(s: seq<Interval>, t: seq<Interval>)
    requires s != [] && t != [] && s[0] == t[0] && s[1..] == t[1..]
    ensures s == t
  {
    assert s == [s[0]] + s[1..] && t == [t[0]] + t[1..];
  }

  lemma FirstSame(s: seq<Interval>, t: seq<Interval>)
    requires Normal(s) && Normal(t) && s != [] && t != [] && Covered(s, t[0]) && Covered(t, s[0])
    ensures s[0] == t[0]
  {
    FirstWithin(s[0], t);
    FirstWithin(t[0], s);
  }

  lemma FirstWithin(iv: Interval, t: seq<Interval>)
    requires Normal(t) && Covered(t, iv)
    ensures t != [] && t[0].start <= iv.start
    ensures iv.start == t[0].start ==> iv.stop <= t[0].stop
  {
    var j :| 0 <= j < |t| && Within(iv, t[j]);
    assert j > 0 ==> t[0].stop < t[j].start;
  }

  lemma TailCovered(s: seq<Interval>, t: seq<Interval>)
    requires Normal(s) && Normal(t) && s != [] && t != [] && s[0] == t[0] && CoversAll(s, t)
    ensures CoversAll(s[1..], t[1..])
  {
    forall i | 0 <= i < |t[1..]| ensures Covered(s[1..], t[1..][i]) {
      var iv := t[i + 1];
      assert Covered(s, iv);
      var j :| 0 <= j < |s| && Within(iv, s[j]);
      assert t[0].stop < iv.start;
      assert s[1..][j - 1] == s[j];
    }
  }

  /** Sets that contain each other are the same map, so they print the same. */
  lemma MutualContainmentIsEquality(g: Set, o: Set)
    requires WellFormed(g) && WellFormed(o) && Contains(g, o) && Contains(o, g)
    ensures g == o
  {
    forall u | u in g ensures g[u] == o[u] { NormalIsCanonical(g[u], o[u]); }
    assert g.Keys == o.Keys;
  }

  lemma CoversReflexive(s: seq<Interval>)
    ensures CoversAll(s, s)
  {
    forall i | 0 <= i < |s| ensures Covered(s, s[i]) { assert Within(s[i], s[i]); }
  }

  lemma CoversTransitive(s: seq<Interval>, t: seq<Interval>, u: seq<Interval>)
    requires CoversAll(s, t) && CoversAll(t, u)
    ensures CoversAll(s, u)
  {
    forall i | 0 <= i < |u| ensures Covered(s, u[i]) {
      assert Covered(t, u[i]);
      var k :| 0 <= k < |t| && Within(u[i], t[k]);
      assert Covered(s, t[k]);
      var j :| 0 <= j < |s| && Within(t[k], s[j]);
      assert Within(u[i], s[j]);
    }
  }

  /** Containment of GTID sets is a preorder, normal or not. */
  lemma ContainsPreorder(g: Set, o: Set, p: Set)
    ensures Contains(g, g)
    ensures Contains(g, o) && Contains(o, p) ==> Contains(g, p)
  {
    forall u | u in g ensures CoversAll(g[u], g[u]) { CoversReflexive(g[u]); }
    if Contains(g, o) && Contains(o, p) {
      forall u | u in p ensures u in g && CoversAll(g[u], p[u]) { CoversTransitive(g[u], o[u], p[u]); }
    }
  }

  /** A well-formed set with the transactions of both is their least upper bound. */
  lemma UnionIsLeastUpperBound(g: Set, o: Set, r: Set)
    requires WellFormed(g) && WellFormed(o) && WellFormed(r)
    requires Transactions(r) == Transactions(g) + Transactions(o)
    ensures Contains(r, g) && Contains(r, o)
    ensures forall u :: WellFormed(u) && Contains(u, g) && Contains(u, o) ==> Contains(u, r)
  {
    ContainsIsInclusion(r, g);
    ContainsIsInclusion(r, o);
    forall u | WellFormed(u) && Contains(u, g) && Contains(u, o) ensures Contains(u, r) {
      ContainsIsInclusion(u, g);
      ContainsIsInclusion(u, o);
      ContainsIsInclusion(u, r);
    }
  }

  /** containsIntervals: a scan of s for each range of sub. */
  method ContainsIntervals(s: seq<Interval>, sub: seq<Interval>) returns (r: bool)
    ensures r == CoversAll(s, sub)
  {
    for i := 0 to |sub|
      invariant forall k :: 0 <= k < i ==> Covered(s, sub[k])
    {
      var covered := false;
      var j := 0;
      while j < |s| && !covered
        invariant 0 <= j <= |s|
        invariant covered ==> Covered(s, sub[i])
        invariant !covered ==> forall k :: 0 <= k < j ==> !Within(sub[i], s[k])
      {
        covered := Within(sub[i], s[j]);
        j := j + 1;
      }
      if !covered {
        assert !Covered(s, sub[i]);
        return false;
      }
    }
    return true;
  }

  class Gtid {
    var sets: Set

    constructor (sets: Set)
      ensures this.sets == sets
    {
      this.sets := sets;
    }

    method ContainsSet(o: Gtid) returns (r: bool)
      ensures r == Contains(sets, o.sets)
    {
      var todo := o.sets.Keys;
      while todo != {}
        invariant todo <= o.sets.Keys
        invariant forall u :: u in o.sets && u !in todo ==> u in sets && CoversAll(sets[u], o.sets[u])
        decreases todo
      {
        var u :| u in todo;
        todo := todo - {u};
        if u !in sets { return false; }
        var ok := ContainsIntervals(sets[u], o.sets[u]);
        if !ok { return false; }
      }
      return true;
    }

    method AddServer(u: string, theirs: seq<Interval>)
      requires WellFormed(sets) && Normal(theirs) && theirs != []
      modifies this
      ensures WellFormed(sets) && u in sets && sets == old(sets)[u := sets[u]]
      ensures Joined(sets[u], Ranges(old(sets), u), theirs)
    {
      var merged := MergeRanges(Ranges(sets, u), theirs);
      sets := sets[u := merged];
    }

    /** Add merges the other set's transactions in, server by server. */
    method Add(o: Gtid)
      requires WellFormed(sets) && WellFormed(o.sets)
      modifies this
      ensures WellFormed(sets)
      ensures Transactions(sets) == old(Transactions(sets)) + old(Transactions(o.sets))
    {
      ghost var was := sets;
      var other := o.sets;
      var todo := other.Keys;
      while todo != {}
        invariant todo <= other.Keys && WellFormed(sets)
        invariant MergedSoFar(sets, was, other, other.Keys - todo)
        decreases todo
      {
        var u :| u in todo;
        ghost var before := sets;
        AddServer(u, other[u]);
        MergeOne(before, was, other, other.Keys - todo, u, sets[u]);
        assert other.Keys - (todo - {u}) == other.Keys - todo + {u};
        todo := todo - {u};
      }
      assert other.Keys - todo == other.Keys;
      MergedAll(sets, was, other);
    }
  }

  /** Both lists' ranges in one normal list. */
  method MergeRanges(a: seq<Interval>, b: seq<Interval>) returns (r: seq<Interval>)
    requires Valid(a) && Valid(b)
    ensures Normal(r) && (r == [] <==> a + b == []) && Joined(r, a, b)
  {
    r := NormalizeSeq(a + b);
    forall n: nat ensures Has(r, n) <==> Has(a, n) || Has(b, n) { HasConcat(a, b, n); }
  }

  function Ranges(s: Set, u: string): seq<Interval> { if u in s then s[u] else [] }

  ghost predicate Joined(r: seq<Interval>, a: seq<Interval>, b: seq<Interval>) {
    forall n: nat :: Has(r, n) <==> Has(a, n) || Has(b, n)
  }

  /** The servers in done hold the union of both sets, the others are as before. */
  ghost predicate MergedSoFar(s: Set, was: Set, other: Set, done: set<string>) {
    && done <= other.Keys && s.Keys == was.Keys + done
    && (forall u :: u in was && u !in done ==> s[u] == was[u])
    && (forall u :: u in done ==> Joined(s[u], Ranges(was, u), Ranges(other, u)))
  }

  lemma MergeOne(s: Set, was: Set, other: Set, done: set<string>, u: string, merged: seq<Interval>)
    requires MergedSoFar(s, was, other, done) && u in other && u !in done
    requires Joined(merged, Ranges(s, u), other[u])
    ensures MergedSoFar(s[u := merged], was, other, done + {u})
  {
    assert Ranges(s, u) == Ranges(was, u);
  }

  lemma MergedAll(s: Set, was: Set, other: Set)
    requires MergedSoFar(s, was, other, other.Keys)
    ensures Transactions(s) == Transactions(was) + Transactions(other)
  {
    forall u: string, n: nat
      ensures (u, n) in Transactions(s) <==> (u, n) in Transactions(was) || (u, n) in Transactions(other)
    {
      if u in other { assert Joined(s[u], Ranges(was, u), Ranges(other, u)); }
    }
  }

  lemma HasConcat(a: seq<Interval>, b: seq<Interval>, n: nat)
    ensures Has(a + b, n) <==> Has(a, n) || Has(b, n)
  {
    if i :| 0 <= i < |a| && a[i].start <= n < a[i].stop { assert (a + b)[i] == a[i]; }
    if i :| 0 <= i < |b| && b[i].start <= n < b[i].stop { assert (a + b)[|a| + i] == b[i]; }
  }
}
