/** The position contract (position/position.go) over the three kinds, and the
    safe minimum a resume or retention decision takes. */
module PositionOrder {
  import opened Text
  import opened Order
  import Lsn
  import Gtid
  import Offsets

  datatype Position =
    | Lsn(n: nat)
    | Gtid(sets: Gtid.Set)
    | Offsets(topics: Offsets.Topics)

  predicate SameKind(a: Position, b: Position) {
    (a.Lsn? && b.Lsn?) || (a.Gtid? && b.Gtid?) || (a.Offsets? && b.Offsets?)
  }

  /** One source has one kind of position: comparing across kinds panics. */
  ghost predicate Homogeneous(ps: seq<Position>) {
    forall i, j :: 0 <= i < |ps| && 0 <= j < |ps| ==> SameKind(ps[i], ps[j])
  }

  predicate Contains(a: Position, b: Position)
    requires SameKind(a, b)
  {
    match a
    case Lsn(n) => Lsn.Contains(n, b.n)
    case Gtid(s) => Gtid.Contains(s, b.sets)
    case Offsets(o) => Offsets.Contains(o, b.topics)
  }

  function Compare(a: Position, b: Position): int
    requires SameKind(a, b)
  {
    match a
    case Lsn(n) => Lsn.Compare(n, b.n)
    case Gtid(s) => Gtid.Compare(s, b.sets)
    case Offsets(o) => Offsets.Compare(o, b.topics)
  }

  /** Only Kafka offsets have a meet. */
  function Meet(a: Position, b: Position): Option<Position>
    requires SameKind(a, b)
  {
    if a.Offsets? then Some(Offsets(Offsets.Meet(a.topics, b.topics))) else None
  }

  lemma Preorder(a: Position, b: Position, c: Position)
    requires SameKind(a, b) && SameKind(b, c)
    ensures Contains(a, a)
    ensures Contains(a, b) && Contains(b, c) ==> Contains(a, c)
  {
    match a
    case Lsn(n) =>
    case Gtid(s) => Gtid.ContainsPreorder(s, b.sets, c.sets);
    case Offsets(o) => Offsets.ContainsPreorder(o, b.topics, c.topics);
  }

  /** Compare is the containment order for every kind. */
  lemma CompareIsContainment(a: Position, b: Position)
    requires SameKind(a, b)
    ensures Compare(a, b) == ByContainment(Contains(a, b), Contains(b, a))
  {
  }

  /** Contains and Compare for two positions of any kind. The source panics on
      two kinds; one source has one kind, and here they have no order. */
  predicate Holds(a: Position, b: Position) { SameKind(a, b) && Contains(a, b) }

  function Cmp(a: Position, b: Position): int { if SameKind(a, b) then Compare(a, b) else INCOMPARABLE }

  lemma HoldsTransitive(a: Position, b: Position, c: Position)
    requires Holds(a, b) && Holds(b, c)
    ensures Holds(a, c)
  {
    Preorder(a, b, c);
  }

  lemma CmpIsContainment(a: Position, b: Position)
    ensures Cmp(a, b) == ByContainment(Holds(a, b), Holds(b, a))
    ensures Cmp(a, b) == INCOMPARABLE || Cmp(a, b) == 0 || Cmp(a, b) == 1 || Cmp(a, b) == -1
  {
    if SameKind(a, b) { CompareIsContainment(a, b); }
  }

  // ------------------------------------------------------- what has been read

  /** What a source has to tell: a place of the log, a server's transaction, a
      message. */
  datatype Change = Wal(at: int) | Transaction(server: string, num: nat) | Of(message: Offsets.Message)

  /** A log position has read the log up to itself, a GTID set its transactions,
      offsets the messages up to each. */
  ghost predicate HasRead(p: Position, c: Change) {
    match p
    case Lsn(n) => c.Wal? && c.at <= n
    case Gtid(s) => c.Transaction? && c.server in s && Gtid.Has(s[c.server], c.num)
    case Offsets(o) => c.Of? && Offsets.HasRead(o, c.message)
  }

  ghost predicate WellFormed(p: Position) { p.Gtid? ==> Gtid.WellFormed(p.sets) }

  /** For every kind, one position contains another exactly when it has read all the
      other has; so Compare orders positions by what they have read. */
  lemma ContainsIsReading(a: Position, b: Position)
    requires SameKind(a, b) && WellFormed(a) && WellFormed(b)
    ensures Contains(a, b) <==> forall c :: HasRead(b, c) ==> HasRead(a, c)
    ensures Compare(a, b) < 0 <==>
      (forall c :: HasRead(a, c) ==> HasRead(b, c)) && exists c :: HasRead(b, c) && !HasRead(a, c)
  {
    ReadingInclusion(a, b);
    ReadingInclusion(b, a);
    CompareIsContainment(a, b);
  }

  lemma ReadingInclusion(a: Position, b: Position)
    requires SameKind(a, b) && WellFormed(a) && WellFormed(b)
    ensures Contains(a, b) <==> forall c :: HasRead(b, c) ==> HasRead(a, c)
  {
    match a
    case Lsn(n) => assert HasRead(b, Wal(b.n)) && (HasRead(a, Wal(b.n)) <==> b.n <= n);
    case Gtid(s) => SetsByReading(s, b.sets);
    case Offsets(o) => OffsetsByReading(o, b.topics);
  }

  lemma SetsByReading(s: Gtid.Set, t: Gtid.Set)
    requires Gtid.WellFormed(s) && Gtid.WellFormed(t)
    ensures Gtid.Contains(s, t) <==> forall c :: HasRead(Gtid(t), c) ==> HasRead(Gtid(s), c)
  {
    Gtid.ContainsIsInclusion(s, t);
    forall u: string, n: nat
      ensures (u, n) in Gtid.Transactions(s) <==> HasRead(Gtid(s), Transaction(u, n))
      ensures (u, n) in Gtid.Transactions(t) <==> HasRead(Gtid(t), Transaction(u, n))
    {
    }
    if Gtid.Contains(s, t) {
      forall c | HasRead(Gtid(t), c) ensures HasRead(Gtid(s), c) {
        assert (c.server, c.num) in Gtid.Transactions(t);
      }
    }
  }

  lemma OffsetsByReading(o: Offsets.Topics, other: Offsets.Topics)
    ensures Offsets.Contains(o, other) <==> forall c :: HasRead(Offsets(other), c) ==> HasRead(Offsets(o), c)
  {
    Offsets.ContainsIsReading(o, other);
    if forall c :: HasRead(Offsets(other), c) ==> HasRead(Offsets(o), c) {
      forall m | Offsets.HasRead(other, m) ensures Offsets.HasRead(o, m) {
        assert HasRead(Offsets(other), Of(m));
      }
    }
  }

  // ----------------------------------------------------------------- MinSafe

  /** One turn of MinSafe's loop: the smaller of the two, their meet when neither
      contains the other, or no safe choice. */
  function Lower(p: Position, best: Position): Option<Position>
    requires SameKind(p, best)
  {
    var c := Compare(p, best);
    if c == INCOMPARABLE then Meet(p, best) else if c < 0 then Some(p) else Some(best)
  }

  lemma LowerIsGreatestLowerBound(p: Position, best: Position)
    requires SameKind(p, best) && Lower(p, best).Some?
    ensures var m := Lower(p, best).value;
      && SameKind(m, p) && Contains(p, m) && Contains(best, m)
      && forall l :: SameKind(l, p) && Contains(p, l) && Contains(best, l) ==> Contains(m, l)
  {
    CompareIsContainment(p, best);
    Preorder(p, p, p);
    Preorder(best, best, best);
    if p.Offsets? { Offsets.MeetIsGreatestLowerBound(p.topics, best.topics); }
  }

  datatype Minimum = NoPosition | Least(pos: Position) | NoSafeMinimum

  ghost predicate AllKind(ps: seq<Position>, p: Position) {
    forall i :: 0 <= i < |ps| ==> SameKind(ps[i], p)
  }

  function MinFrom(best: Position, rest: seq<Position>): Minimum
    requires AllKind(rest, best)
    decreases |rest|
  {
    if rest == [] then Least(best)
    else
      match Lower(rest[0], best)
      case None => NoSafeMinimum
      case Some(low) =>
        LowerIsGreatestLowerBound(rest[0], best);
        MinFrom(low, rest[1..])
  }

  function MinSafeOf(ps: seq<Position>): Minimum
    requires Homogeneous(ps)
  {
    if ps == [] then NoPosition else MinFrom(ps[0], ps[1..])
  }

  method MinSafe(ps: seq<Position>) returns (r: Minimum)
    requires Homogeneous(ps)
    ensures r == MinSafeOf(ps)
  {
    if |ps| == 0 { return NoPosition; }
    var best := ps[0];
    var i := 1;
    while i < |ps|
      invariant 1 <= i <= |ps|
      invariant AllKind(ps[i..], best) && MinFrom(best, ps[i..]) == MinSafeOf(ps)
    {
      assert ps[i..][0] == ps[i] && ps[i..][1..] == ps[i + 1..];
      assert SameKind(ps[i], best);
      var low := Lower(ps[i], best);
      if low.None? { return NoSafeMinimum; }
      LowerIsGreatestLowerBound(ps[i], best);
      best := low.value;
      i := i + 1;
    }
    r := Least(best);
  }

  /** m lies below every position of ps. */
  ghost predicate LowerBound(m: Position, ps: seq<Position>)
    requires AllKind(ps, m)
  {
    forall i :: 0 <= i < |ps| ==> Contains(ps[i], m)
  }

  lemma {:induction false} MinFromIsBelow(best: Position, rest: seq<Position>)
    requires AllKind(rest, best) && MinFrom(best, rest).Least?
    ensures var m := MinFrom(best, rest).pos;
      SameKind(m, best) && AllKind(rest, m) && Contains(best, m) && LowerBound(m, rest)
    decreases |rest|
  {
    if rest == [] {
      Preorder(best, best, best);
    } else {
      LowerIsGreatestLowerBound(rest[0], best);
      var low := Lower(rest[0], best).value;
      MinFromIsBelow(low, rest[1..]);
      var m := MinFrom(low, rest[1..]).pos;
      Preorder(best, low, m);
      Preorder(rest[0], low, m);
      forall i | 0 <= i < |rest| ensures SameKind(rest[i], m) && Contains(rest[i], m) {
        if i > 0 { assert rest[i] == rest[1..][i - 1]; }
      }
    }
  }

  lemma {:induction false} MinFromIsGreatest(best: Position, rest: seq<Position>, l: Position)
    requires AllKind(rest, best) && MinFrom(best, rest).Least?
    requires SameKind(l, best) && AllKind(rest, l) && Contains(best, l) && LowerBound(l, rest)
    ensures SameKind(MinFrom(best, rest).pos, l) && Contains(MinFrom(best, rest).pos, l)
    decreases |rest|
  {
    if rest != [] {
      LowerIsGreatestLowerBound(rest[0], best);
      MinFromIsGreatest(Lower(rest[0], best).value, rest[1..], l);
    }
  }

  /** Whatever the kind, a minimum MinSafe returns is the greatest position every
      input contains: resuming or retaining from it skips nothing, and nothing
      higher would do. */
  lemma MinSafeIsGreatestLowerBound(ps: seq<Position>)
    requires Homogeneous(ps) && MinSafeOf(ps).Least?
    ensures var m := MinSafeOf(ps).pos;
      && AllKind(ps, m) && LowerBound(m, ps)
      && forall l :: AllKind(ps, l) && LowerBound(l, ps) ==> SameKind(m, l) && Contains(m, l)
  {
    MinFromIsBelow(ps[0], ps[1..]);
    var m := MinSafeOf(ps).pos;
    forall i | 0 <= i < |ps| ensures SameKind(ps[i], m) && Contains(ps[i], m) {
      if i > 0 { assert ps[i] == ps[1..][i - 1]; }
    }
    forall l | AllKind(ps, l) && LowerBound(l, ps) ensures SameKind(m, l) && Contains(m, l) {
      assert AllKind(ps[1..], l) && LowerBound(l, ps[1..]);
      assert SameKind(ps[0], l) && Contains(ps[0], l);
      MinFromIsGreatest(ps[0], ps[1..], l);
    }
  }

  /** With a meet, or a linear order, there is always a safe minimum. */
  lemma {:induction false} MinFromAlways(best: Position, rest: seq<Position>)
    requires AllKind(rest, best) && !best.Gtid?
    ensures MinFrom(best, rest).Least?
    decreases |rest|
  {
    if rest != [] {
      CompareIsContainment(rest[0], best);
      LowerIsGreatestLowerBound(rest[0], best);
      MinFromAlways(Lower(rest[0], best).value, rest[1..]);
    }
  }

  lemma MinSafeNeverFails(ps: seq<Position>)
    requires Homogeneous(ps) && ps != [] && !ps[0].Gtid?
    ensures MinSafeOf(ps).Least?
  {
    MinFromAlways(ps[0], ps[1..]);
  }

  /** Two orders of the same positions that both have a minimum have equal ones. */
  lemma OrderDoesNotMatter(ps: seq<Position>, qs: seq<Position>)
    requires Homogeneous(ps) && Homogeneous(qs)
    requires forall p :: p in ps <==> p in qs
    requires MinSafeOf(ps).Least? && MinSafeOf(qs).Least?
    ensures SameKind(MinSafeOf(ps).pos, MinSafeOf(qs).pos)
    ensures Compare(MinSafeOf(ps).pos, MinSafeOf(qs).pos) == 0
  {
    MinSafeIsGreatestLowerBound(ps);
    MinSafeIsGreatestLowerBound(qs);
    SameBound(ps, qs, MinSafeOf(qs).pos);
    SameBound(qs, ps, MinSafeOf(ps).pos);
    CompareIsContainment(MinSafeOf(ps).pos, MinSafeOf(qs).pos);
  }

  lemma SameBound(ps: seq<Position>, qs: seq<Position>, m: Position)
    requires forall p :: p in ps <==> p in qs
    requires AllKind(qs, m) && LowerBound(m, qs)
    ensures AllKind(ps, m) && LowerBound(m, ps)
  {
    forall i | 0 <= i < |ps| ensures SameKind(ps[i], m) && Contains(ps[i], m) {
      assert ps[i] in qs;
    }
  }

  /** Every order of Kafka offsets (or of LSNs) has a minimum, and they agree. */
  lemma PermutationsAgree(ps: seq<Position>, qs: seq<Position>)
    requires Homogeneous(ps) && ps != [] && !ps[0].Gtid? && multiset(ps) == multiset(qs)
    ensures Homogeneous(qs) && MinSafeOf(ps).Least? && MinSafeOf(qs).Least?
    ensures SameKind(MinSafeOf(ps).pos, MinSafeOf(qs).pos)
    ensures Compare(MinSafeOf(ps).pos, MinSafeOf(qs).pos) == 0
  {
    forall p ensures p in ps <==> p in qs { assert p in multiset(ps) <==> p in multiset(qs); }
    assert forall i :: 0 <= i < |qs| ==> qs[i] in ps;
    assert ps[0] in qs;
    MinSafeNeverFails(ps);
    MinSafeNeverFails(qs);
    OrderDoesNotMatter(ps, qs);
  }

  /** Any two of the positions are ordered. */
  ghost predicate Chain(ps: seq<Position>)
    requires Homogeneous(ps)
  {
    forall i, j :: 0 <= i < |ps| && 0 <= j < |ps| ==> Compare(ps[i], ps[j]) != INCOMPARABLE
  }

  lemma {:induction false} ChainFrom(best: Position, rest: seq<Position>)
    requires Homogeneous([best] + rest) && Chain([best] + rest) && AllKind(rest, best)
    ensures MinFrom(best, rest).Least?
    decreases |rest|
  {
    if rest != [] {
      var all := [best] + rest;
      assert all[0] == best && all[1] == rest[0];
      LowerIsGreatestLowerBound(rest[0], best);
      var low := Lower(rest[0], best).value;
      var next := [low] + rest[1..];
      forall i | 0 <= i < |next| ensures next[i] in all {
        if i > 0 { assert next[i] == rest[i] == all[i + 1]; } else { assert low == all[0] || low == all[1]; }
      }
      ChainSub(all, next);
      ChainFrom(low, rest[1..]);
    }
  }

  lemma {:induction false} MinFromAnswers(best: Position, rest: seq<Position>)
    requires AllKind(rest, best)
    ensures !MinFrom(best, rest).NoPosition?
    decreases |rest|
  {
    if rest != [] && Lower(rest[0], best).Some? {
      LowerIsGreatestLowerBound(rest[0], best);
      MinFromAnswers(Lower(rest[0], best).value, rest[1..]);
    }
  }

  /** Where there is no safe minimum, two GTID sets have no order. */
  lemma NoMinimumPair(ps: seq<Position>) returns (i: nat, j: nat)
    requires Homogeneous(ps) && ps != [] && !MinSafeOf(ps).Least?
    ensures MinSafeOf(ps).NoSafeMinimum? && i < |ps| && j < |ps|
    ensures ps[i].Gtid? && ps[j].Gtid? && !Holds(ps[i], ps[j]) && !Holds(ps[j], ps[i])
  {
    MinFromAnswers(ps[0], ps[1..]);
    if !ps[0].Gtid? { MinSafeNeverFails(ps); }
    if Chain(ps) {
      assert [ps[0]] + ps[1..] == ps;
      ChainFrom(ps[0], ps[1..]);
    }
    i, j :| 0 <= i < |ps| && 0 <= j < |ps| && Compare(ps[i], ps[j]) == INCOMPARABLE;
    CompareIsContainment(ps[i], ps[j]);
    assert SameKind(ps[0], ps[i]) && SameKind(ps[0], ps[j]);
  }

  lemma ChainSub(ps: seq<Position>, qs: seq<Position>)
    requires Homogeneous(ps) && Chain(ps) && forall i :: 0 <= i < |qs| ==> qs[i] in ps
    ensures Homogeneous(qs) && Chain(qs)
  {
  }

  lemma PermutationKind(ps: seq<Position>, qs: seq<Position>)
    requires Homogeneous(ps) && multiset(ps) == multiset(qs)
    ensures Homogeneous(qs) && forall i :: 0 <= i < |qs| ==> qs[i] in ps
  {
    forall i | 0 <= i < |qs| ensures qs[i] in ps { assert qs[i] in multiset(ps); }
  }

  /** Two incomparable GTID sets met first have no safe minimum, whatever follows. */
  lemma PairInFront(ps: seq<Position>, i: nat, j: nat)
    requires i < j < |ps|
    ensures multiset([ps[i], ps[j]] + (ps[..i] + ps[i + 1..j] + ps[j + 1..])) == multiset(ps)
  {
    assert ps == ps[..i] + [ps[i]] + ps[i + 1..j] + [ps[j]] + ps[j + 1..];
  }

  lemma PairFirstFails(ps: seq<Position>, i: nat, j: nat) returns (qs: seq<Position>)
    requires Homogeneous(ps) && ps != [] && ps[0].Gtid?
    requires i < j < |ps| && Compare(ps[j], ps[i]) == INCOMPARABLE
    ensures multiset(qs) == multiset(ps) && Homogeneous(qs) && MinSafeOf(qs).NoSafeMinimum?
  {
    var rest := ps[..i] + ps[i + 1..j] + ps[j + 1..];
    qs := [ps[i], ps[j]] + rest;
    PairInFront(ps, i, j);
    PermutationKind(ps, qs);
    assert SameKind(ps[0], ps[i]) && SameKind(ps[0], ps[j]);
    assert qs[1..][0] == ps[j];
  }

  /** GTID sets have a safe minimum in every order exactly when every two of them
      are ordered: MinSafe has no meet to fall back on. */
  lemma GtidMinimumInEveryOrder(ps: seq<Position>)
    requires Homogeneous(ps) && ps != [] && ps[0].Gtid?
    ensures Chain(ps) <==>
      forall qs :: Homogeneous(qs) && multiset(qs) == multiset(ps) ==> MinSafeOf(qs).Least?
  {
    if Chain(ps) {
      forall qs | Homogeneous(qs) && multiset(qs) == multiset(ps) ensures MinSafeOf(qs).Least? {
        PermutationKind(ps, qs);
        ChainSub(ps, qs);
        assert ps[0] in multiset(qs);
        assert [qs[0]] + qs[1..] == qs;
        ChainFrom(qs[0], qs[1..]);
      }
    } else {
      var i, j :| 0 <= i < |ps| && 0 <= j < |ps| && Compare(ps[i], ps[j]) == INCOMPARABLE;
      CompareIsContainment(ps[i], ps[j]);
      CompareIsContainment(ps[j], ps[i]);
      Preorder(ps[i], ps[i], ps[i]);
      var qs := PairFirstFails(ps, if i < j then i else j, if i < j then j else i);
    }
  }

  // ------------------------------------------------------------------- Ahead

  /** The names whose position Compare puts above zero against global: strictly
      after it, or with no order to it. */
  predicate CountsAsAhead(global: Position, p: Option<Position>) {
    p.Some? && SameKind(p.value, global) && Compare(p.value, global) > 0
  }

  /** Ahead: a pass over the map, then a sort of the names. */
  method Ahead(global: Option<Position>, ps: map<string, Option<Position>>) returns (out: seq<string>)
    requires global.Some? ==> forall k :: k in ps && ps[k].Some? ==> SameKind(ps[k].value, global.value)
    ensures global.None? ==> out == []
    ensures global.Some? ==> SortedKeys(out, set k | k in ps && CountsAsAhead(global.value, ps[k]))
  {
    out := [];
    if global.None? { return; }
    var todo := ps.Keys;
    while todo != {}
      invariant todo <= ps.Keys
      invariant SortedKeys(out, set k | k in ps && k !in todo && CountsAsAhead(global.value, ps[k]))
      decreases todo
    {
      var k :| k in todo;
      ghost var listed := set k | k in ps && k !in todo && CountsAsAhead(global.value, ps[k]);
      todo := todo - {k};
      if ps[k].Some? && Compare(ps[k].value, global.value) > 0 {
        assert k !in listed;
        out := InsertName(out, k, listed);
        assert listed + {k} == set k | k in ps && k !in todo && CountsAsAhead(global.value, ps[k]);
      } else {
        assert listed == set k | k in ps && k !in todo && CountsAsAhead(global.value, ps[k]);
      }
    }
  }

  /** When global is the safe minimum of the map's positions, Ahead lists exactly
      the names strictly beyond it: containing it and not contained in it. */
  lemma AheadOfTheMinimum(ps: seq<Position>, p: Position)
    requires Homogeneous(ps) && p in ps && MinSafeOf(ps).Least?
    ensures var g := MinSafeOf(ps).pos;
      SameKind(p, g) && (CountsAsAhead(g, Some(p)) <==> Contains(p, g) && !Contains(g, p))
  {
    MinSafeIsGreatestLowerBound(ps);
    var g := MinSafeOf(ps).pos;
    CompareIsContainment(p, g);
  }
}
