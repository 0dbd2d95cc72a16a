/** Runs on which the confirmed position does contain a batch that is not durable
    or not yet sent: one for each hypothesis of the theorems in Retention. */
module RetentionCases {
  import opened Text
  import opened Order
  import opened PositionOrder
  import opened Inflight
  import opened Confirmed
  import opened Retention

  /** Two workers: "a" on table "t", "b" on table "u". */
  function Two(a: Worker, b: Worker, sent: map<string, Position>, known: set<Position>): Net {
    Net(map["a" := a, "b" := b], sent, known)
  }

  lemma PutA(a: Worker, b: Worker, sent: map<string, Position>, known: set<Position>, x: Worker)
    ensures Put(Two(a, b, sent, known), "a", x) == Two(x, b, sent, known)
  {
    assert map["a" := a, "b" := b]["a" := x] == map["a" := x, "b" := b];
  }

  lemma PutB(a: Worker, b: Worker, sent: map<string, Position>, known: set<Position>, x: Worker)
    ensures Put(Two(a, b, sent, known), "b", x) == Two(a, x, sent, known)
  {
    assert map["a" := a, "b" := b]["b" := x] == map["a" := a, "b" := x];
  }

  ghost predicate Reaches(r: Run, n: nat, s: Net) {
    r.Valid() && |r.states| == n + 1 && r.states[n] == s
  }

  /** A run goes on with any enabled step. */
  lemma Goes(r: Run, n: nat, s: Net, a: Act, s': Net) returns (r': Run)
    requires Reaches(r, n, s) && Step(s, a, s')
    ensures Reaches(r', n + 1, s') && r' == Run(r.states + [s'], r.acts + [a])
  {
    r' := Run(r.states + [s'], r.acts + [a]);
    forall m | 0 <= m < |r'.acts| ensures r'.StepsAt(m) {
      if m < |r.acts| { assert r.StepsAt(m); }
    }
  }

  function Idle(p: Position): Worker { Joining(true, Some(p)) }

  lemma Starts(p: Position) returns (r: Run)
    ensures Reaches(r, 0, Two(Idle(p), Idle(p), map[], {p})) && r.acts == []
  {
    var s := Boot({"a", "b"}, Some(p));
    assert Boots(s);
    assert s.workers == map["a" := Idle(p), "b" := Idle(p)];
    r := Run([s], []);
  }

  lemma OneOwes(m: ByWorker, w: string, p: Position, f: Option<Position>)
    requires w in m && m[w] == Some(p)
    ensures MinAnswer(m, {w}, f, Pos(p))
  {
    assert m.Keys * {w} == {w};
    assert ListsIn([w], [p], m, {w});
    assert Lists([p], m, {w}) && MinSafeOf([p]) == Least(p);
  }

  /** With only "a" seen owing, the answer is its committed position. */
  lemma OnlyAOwes(r: Run, j: nat, k: nat, a: Worker, b: Worker, sent: map<string, Position>, known: set<Position>,
                  g: Position)
    requires j <= k < |r.states| && OwingIs(r.states[j], {"a"})
    requires r.states[0].sent == map[]
    requires r.states[k] == Two(a, b, sent, known) && a.listed && a.committed == Some(g)
    ensures Read(r, 0, j, k, None, {"a"}, Pos(g))
  {
    assert FrontierIn([], [], map[], None);
    OneOwes(ByWorkerOf(Two(a, b, sent, known)), "a", g, None);
  }

  lemma OneNoted(t: string, g: Position)
    ensures FrontierRead(map[t := g], Some(g))
  {
    assert FrontierFrom(Some(g), []) == Pos(g) && [Some(g)][1..] == [];
    assert FrontierIn([t], [Some(g)], map[t := g], Some(g));
  }

  lemma TwoNoted(q: Position, g: Position)
    requires Holds(g, q) && !Holds(q, g)
    ensures FrontierRead(map["t" := q, "u" := g], Some(g))
  {
    var vals := [Some(q), Some(g)];
    CmpIsContainment(g, q);
    assert vals[1..] == [Some(g)] && [Some(g)][1..] == [];
    assert FrontierFrom(Some(q), [Some(g)]) == FrontierFrom(Some(g), []) == Pos(g);
    assert FrontierIn(["t", "u"], vals, map["t" := q, "u" := g], Some(g));
  }

  /** With neither worker owing, the read at one moment answers the frontier. */
  lemma NobodyOwes(r: Run, n: nat, a: Worker, b: Worker, sent: map<string, Position>, known: set<Position>, g: Position)
    requires n < |r.states| && r.states[n] == Two(a, b, sent, known) && FrontierRead(sent, Some(g))
    requires !a.Owes() && !b.Owes() && a.listed
    ensures Read(r, n, n, n, Some(g), {}, Pos(g))
  {
    var m := ByWorkerOf(Two(a, b, sent, known));
    assert "a" in m;
    assert m.Keys * {} == {};
  }

  // ------------------------------------------------- a batch's way, in general

  lemma PutTwice(s: Net, w: string, x: Worker, y: Worker)
    ensures Put(Put(s, w, x), w, y) == Put(s, w, y)
  {
    assert s.workers[w := x][w := y] == s.workers[w := y];
  }

  function Sent(x: Worker, e: Entry): Worker {
    x.(index := x.index.(head := x.index.head + [e.batch]), log := x.log + [e])
  }

  function AfterSend(s: Net, w: string, x: Worker, e: Entry): Net
    requires e.batch.high.Some?
  {
    Put(s, w, Sent(x, e)).(sent := s.sent[e.batch.table := e.batch.high.value],
                           known := s.known + {e.batch.high.value})
  }

  /** It enters, is delivered, and its position is noted. */
  lemma Sends(r: Run, n: nat, s: Net, w: string, x: Worker, e: Entry) returns (r': Run)
    requires Reaches(r, n, s) && w in s.workers && s.workers[w] == x && x.buffered == []
    requires Fresh(s, x, e) && e.batch.high.Some?
    ensures Reaches(r', n + 3, AfterSend(s, w, x, e)) && r.states <= r'.states && r.acts <= r'.acts
  {
    var p := e.batch.high.value;
    var x1 := x.(buffered := x.buffered + [e]);
    var s1 := Put(s, w, x1).(known := s.known + {p});
    r' := Goes(r, n, s, Enter(w, e), s1);
    assert x1.buffered[0] == e && x1.buffered[1..] == [];
    var s2 := Put(s1, w, Sent(x, e));
    assert Sent(x, e) == x.(index := x.index.(head := x.index.head + [e.batch]), log := x.log + [e], buffered := []);
    r' := Goes(r', n + 1, s1, Deliver(w), s2);
    PutTwice(s, w, x1, Sent(x, e));
    assert Sent(x, e).log[|x.log|] == e;
    r' := Goes(r', n + 2, s2, Note(w, |x.log|), AfterSend(s, w, x, e));
  }

  function AfterAck(x: Worker, n: nat, j: nat): Worker
    requires j < |x.log| && x.log[j].batch.high.Some?
  {
    var b := x.log[j].batch;
    x.(listed := true, durable := n, index := Truncated(x.index, b.table, b.high.value), committed := b.high)
  }

  /** The worker commits its first n batches and acks the j-th. */
  lemma Acks(r: Run, m: nat, s: Net, w: string, x: Worker, n: nat, j: nat) returns (r': Run)
    requires Reaches(r, m, s) && w in s.workers && s.workers[w] == x
    requires x.durable <= n <= |x.log| && j < n && Carries(x.log[j])
    ensures Reaches(r', m + 2, Put(s, w, AfterAck(x, n, j))) && r.states <= r'.states && r.acts <= r'.acts
  {
    var x1 := x.(durable := n);
    r' := Goes(r, m, s, Commit(w, n), Put(s, w, x1));
    PutTwice(s, w, x1, AfterAck(x, n, j));
    r' := Goes(r', m + 1, Put(s, w, x1), AckAt(w, j), Put(s, w, AfterAck(x, n, j)));
  }

  function At(id: nat, table: string, p: Position): Entry {
    Entry(Batch(id, table, Some(p), false, false), Some(p))
  }

  lemma CoversItself(p: Position)
    ensures Holds(p, p) && CoveredBy(p, p)
  {
    Preorder(p, p, p);
    CmpIsContainment(p, p);
  }

  /** A worker whose only batch is durable and acked owes nothing. */
  lemma AckedOne(x: Worker, e: Entry, g: Position)
    requires x == Joining(x.listed, x.seed) && e.batch.high == Some(g) && !e.batch.marker && !e.batch.partial
    ensures AfterAck(Sent(x, e), 1, 0) ==
      Worker(true, x.seed, Some(g), Index([], map[e.batch.table := g]), [e], 1, [])
  {
    CoversItself(g);
    var y := Sent(x, e);
    assert y.index.head == [e.batch] && y.log == [e];
    assert Pops(e.batch, map[e.batch.table := g]);
    assert PopCovered([e.batch], map[e.batch.table := g]) == [];
  }

  // ----------------------------- one position on two tables, the second not sent

  /** A transaction at g on two tables, any kind of position: the first table's
      batch is sent, noted, durable and acked before the second's enters. Nobody
      owes, so the frontier g is confirmed, and it contains the second batch. */
  lemma SecondTableIsConfirmedUnsent(p: Position, g: Position) returns (r: Run)
    requires SameKind(p, g) && !Holds(p, g)
    ensures r.Valid() && |r.acts| == 6 && r.acts[5] == Enter("b", At(2, "u", g))
    ensures Read(r, 5, 5, 5, Some(g), {}, Pos(g)) && Holds(g, r.acts[5].e.data.value)
  {
    var e := At(1, "t", g);
    var s0 := Two(Idle(p), Idle(p), map[], {p});
    r := Starts(p);
    r := Sends(r, 0, s0, "a", Idle(p), e);
    PutA(Idle(p), Idle(p), map[], {p}, Sent(Idle(p), e));
    var s3 := Two(Sent(Idle(p), e), Idle(p), map["t" := g], {p} + {g});
    assert AfterSend(s0, "a", Idle(p), e) == s3;
    r := Acks(r, 3, s3, "a", Sent(Idle(p), e), 1, 0);
    AckedOne(Idle(p), e, g);
    var done := Worker(true, Some(p), Some(g), Index([], map["t" := g]), [e], 1, []);
    PutA(Sent(Idle(p), e), Idle(p), map["t" := g], {p} + {g}, done);
    var s5 := Two(done, Idle(p), map["t" := g], {p} + {g});
    r := Goes(r, 5, s5, Enter("b", At(2, "u", g)), After(s5, Enter("b", At(2, "u", g))));
    OneNoted("t", g);
    NobodyOwes(r, 5, done, Idle(p), map["t" := g], {p} + {g}, g);
    CoversItself(g);
  }

  // ------------------------- an earlier piece of a transaction, carrying no mark

  /** A piece of a transaction at g that carries the previous position q. */
  function Piece(id: nat, table: string, q: Position, g: Position): Entry {
    Entry(Batch(id, table, Some(q), false, false), Some(g))
  }

  /** Worker "a" once q is acked, and worker "b" once g is. */
  function PieceGone(p: Position, q: Position, g: Position): Worker {
    Worker(true, Some(p), Some(q), Index([], map["t" := q]), [At(1, "t", q), Piece(2, "t", q, g)], 1, [])
  }

  function AllDone(p: Position, g: Position): Worker {
    Worker(true, Some(p), Some(g), Index([], map["u" := g]), [At(3, "u", g)], 1, [])
  }

  /** An ack of q, for the first batch alone, pops the piece behind it as well. */
  lemma PieceLeaves(p: Position, q: Position, g: Position)
    requires !Holds(q, g)
    ensures AfterAck(Sent(Sent(Idle(p), At(1, "t", q)), Piece(2, "t", q, g)), 1, 0) == PieceGone(p, q, g)
    ensures var x := PieceGone(p, q, g);
      x.Uncommitted() == [Piece(2, "t", q, g)] && LeftEarly(x, Piece(2, "t", q, g))
  {
    var a, c := At(1, "t", q), Piece(2, "t", q, g);
    CoversItself(q);
    var x := Sent(Sent(Idle(p), a), c);
    assert x.index.head == [a.batch, c.batch] && x.log == [a, c];
    var acked := map["t" := q];
    assert [a.batch, c.batch][1..] == [c.batch];
    assert Pops(a.batch, acked) && Pops(c.batch, acked);
    assert PopCovered([a.batch, c.batch], acked) == PopCovered([c.batch], acked) == [];
  }

  /** A transaction at g on tables "t" and "u" after one at q on "t", as a source
      without partial marks sends it. The ack of q releases t's piece, the ack of g
      u's batch, and the frontier g is confirmed while the piece is not durable. */
  lemma UnmarkedPieceIsMissed(p: Position, q: Position, g: Position) returns (r: Run)
    requires SameKind(p, q) && Holds(g, q) && !Holds(p, q) && !Holds(p, g) && !Holds(q, g)
    ensures r.Valid() && |r.states| == 14 && Read(r, 13, 13, 13, Some(g), {}, Pos(g))
    ensures Owed(r.states[13], "a", Piece(2, "t", q, g)) && Holds(g, Piece(2, "t", q, g).data.value)
  {
    r := BothAcked(p, q, g);
    PieceLeaves(p, q, g);
    TwoNoted(q, g);
    NobodyOwes(r, 13, PieceGone(p, q, g), AllDone(p, g), map["t" := q, "u" := g], {p, q, g}, g);
    CoversItself(g);
  }

  lemma BothAcked(p: Position, q: Position, g: Position) returns (r: Run)
    requires SameKind(p, q) && SameKind(p, g) && !Holds(p, q) && !Holds(p, g) && !Holds(q, g)
    ensures Reaches(r, 13, Two(PieceGone(p, q, g), AllDone(p, g), map["t" := q, "u" := g], {p, q, g}))
  {
    r := ThreeSent(p, q, g);
    var x, y := Sent(Sent(Idle(p), At(1, "t", q)), Piece(2, "t", q, g)), Sent(Idle(p), At(3, "u", g));
    var sent, known := map["t" := q, "u" := g], {p, q, g};
    PieceLeaves(p, q, g);
    AckedOne(Idle(p), At(3, "u", g), g);
    r := Acks(r, 9, Two(x, y, sent, known), "a", x, 1, 0);
    PutA(x, y, sent, known, PieceGone(p, q, g));
    r := Acks(r, 11, Two(PieceGone(p, q, g), y, sent, known), "b", y, 1, 0);
    PutB(PieceGone(p, q, g), y, sent, known, AllDone(p, g));
  }

  lemma TwoSent(p: Position, q: Position, g: Position) returns (r: Run)
    requires SameKind(p, q) && SameKind(p, g) && !Holds(p, q) && !Holds(p, g) && !Holds(q, g)
    ensures Reaches(r, 6, Two(Sent(Sent(Idle(p), At(1, "t", q)), Piece(2, "t", q, g)), Idle(p), map["t" := q], {p, q}))
  {
    var f := Idle(p);
    var a, c := At(1, "t", q), Piece(2, "t", q, g);
    r := Starts(p);
    r := Sends(r, 0, Two(f, f, map[], {p}), "a", f, a);
    PutA(f, f, map[], {p}, Sent(f, a));
    var s3 := Two(Sent(f, a), f, map["t" := q], {p, q});
    assert AfterSend(Two(f, f, map[], {p}), "a", f, a) == s3;
    r := Sends(r, 3, s3, "a", Sent(f, a), c);
    PutA(Sent(f, a), f, map["t" := q], {p, q}, Sent(Sent(f, a), c));
    assert AfterSend(s3, "a", Sent(f, a), c) == Two(Sent(Sent(f, a), c), f, map["t" := q], {p, q});
  }

  lemma ThreeSent(p: Position, q: Position, g: Position) returns (r: Run)
    requires SameKind(p, q) && SameKind(p, g) && !Holds(p, q) && !Holds(p, g) && !Holds(q, g)
    ensures var x, y := Sent(Sent(Idle(p), At(1, "t", q)), Piece(2, "t", q, g)), Sent(Idle(p), At(3, "u", g));
      Reaches(r, 9, Two(x, y, map["t" := q, "u" := g], {p, q, g}))
  {
    var f, b := Idle(p), At(3, "u", g);
    var x := Sent(Sent(f, At(1, "t", q)), Piece(2, "t", q, g));
    r := TwoSent(p, q, g);
    var s6 := Two(x, f, map["t" := q], {p, q});
    r := Sends(r, 6, s6, "b", f, b);
    PutB(x, f, map["t" := q], {p, q}, Sent(f, b));
    assert AfterSend(s6, "b", f, b) == Two(x, Sent(f, b), map["t" := q, "u" := g], {p, q, g});
  }

  // ------------------------------ a batch entering between the two reads

  /** The owing set is read while only "a" owes; then d enters for "b", and g, which
      contains d, for "a". With g durable and acked it is the minimum of the owing
      workers, and it contains the batch still buffered for "b". */
  lemma BatchEnteringBetweenTheReadsIsMissed(p: Position, q: Position, d: Position, g: Position) returns (r: Run)
    requires SameKind(p, q) && SameKind(p, d) && SameKind(p, g)
    requires !Holds(p, q) && !Holds(p, d) && !Holds(p, g) && !Holds(q, g) && Holds(g, d)
    ensures r.Valid() && |r.states| == 9 && Read(r, 0, 1, 8, None, {"a"}, Pos(g))
    ensures Owed(r.states[8], "b", At(2, "u", d)) && Holds(g, At(2, "u", d).data.value)
  {
    var x, y := Sent(Sent(Idle(p), At(1, "t", q)), At(3, "t", g)), Idle(p).(buffered := [At(2, "u", d)]);
    var sent, known := map["t" := g], {p, q, d, g};
    var before := LaterOneSent(p, q, d, g);
    r := LastAcked(before, 6, x, y, sent, known, g);
    assert r.states[1] == before.states[1];
    var x' := AfterAck(x, 2, 1);
    OnlyAOwes(r, 1, 8, x', y, sent, known, g);
    BufferedIsOwed(x', p, At(2, "u", d), sent, known);
  }

  /** Worker "a" commits its two batches and acks the second. */
  lemma LastAcked(r: Run, n: nat, x: Worker, y: Worker, sent: map<string, Position>, known: set<Position>, g: Position)
    returns (r': Run)
    requires Reaches(r, n, Two(x, y, sent, known))
    requires x.durable == 0 && |x.log| == 2 && Carries(x.log[1]) && x.log[1].batch.high == Some(g)
    ensures Reaches(r', n + 2, Two(AfterAck(x, 2, 1), y, sent, known)) && r.states <= r'.states
    ensures AfterAck(x, 2, 1).committed == Some(g) && AfterAck(x, 2, 1).listed
  {
    r' := Acks(r, n, Two(x, y, sent, known), "a", x, 2, 1);
    PutA(x, y, sent, known, AfterAck(x, 2, 1));
  }

  lemma BufferedIsOwed(a: Worker, p: Position, e: Entry, sent: map<string, Position>, known: set<Position>)
    requires e.data.Some?
    ensures Owed(Two(a, Idle(p).(buffered := [e]), sent, known), "b", e)
  {
    assert Idle(p).(buffered := [e]).Uncommitted() == [e];
  }

  lemma LaterOneSent(p: Position, q: Position, d: Position, g: Position) returns (r: Run)
    requires SameKind(p, q) && SameKind(p, d) && SameKind(p, g)
    requires !Holds(p, q) && !Holds(p, d) && !Holds(p, g) && !Holds(q, g)
    ensures var x, y := Sent(Sent(Idle(p), At(1, "t", q)), At(3, "t", g)), Idle(p).(buffered := [At(2, "u", d)]);
      Reaches(r, 6, Two(x, y, map["t" := g], {p, q, d, g}))
    ensures OwingIs(r.states[1], {"a"})
  {
    r := OneEntersEach(p, q, d);
    var x, y, c := Sent(Idle(p), At(1, "t", q)), Idle(p).(buffered := [At(2, "u", d)]), At(3, "t", g);
    var s3 := Two(x, y, map[], {p, q, d});
    r := Sends(r, 3, s3, "a", x, c);
    PutA(x, y, map[], {p, q, d}, Sent(x, c));
    assert AfterSend(s3, "a", x, c) == Two(Sent(x, c), y, map["t" := g], {p, q, d, g});
  }

  lemma OneDelivered(p: Position, q: Position) returns (r: Run)
    requires SameKind(p, q) && !Holds(p, q)
    ensures Reaches(r, 2, Two(Sent(Idle(p), At(1, "t", q)), Idle(p), map[], {p, q}))
    ensures OwingIs(r.states[1], {"a"})
  {
    var f, a := Idle(p), At(1, "t", q);
    r := Starts(p);
    var x := f.(buffered := [a]);
    assert f.buffered + [a] == [a];
    PutA(f, f, map[], {p}, x);
    r := Goes(r, 0, Two(f, f, map[], {p}), Enter("a", a), Two(x, f, map[], {p, q}));
    PutA(x, f, map[], {p, q}, Sent(f, a));
    assert x.buffered[1..] == [];
    r := Goes(r, 1, Two(x, f, map[], {p, q}), Deliver("a"), Two(Sent(f, a), f, map[], {p, q}));
  }

  lemma OneEntersEach(p: Position, q: Position, d: Position) returns (r: Run)
    requires SameKind(p, q) && SameKind(p, d) && !Holds(p, q) && !Holds(p, d)
    ensures var x, y := Sent(Idle(p), At(1, "t", q)), Idle(p).(buffered := [At(2, "u", d)]);
      Reaches(r, 3, Two(x, y, map[], {p, q, d}))
    ensures OwingIs(r.states[1], {"a"})
  {
    var f, b := Idle(p), At(2, "u", d);
    r := OneDelivered(p, q);
    var x, y := Sent(f, At(1, "t", q)), f.(buffered := [b]);
    assert f.buffered + [b] == [b];
    PutB(x, f, map[], {p, q}, y);
    r := Goes(r, 2, Two(x, f, map[], {p, q}), Enter("b", b), Two(x, y, map[], {p, q, d}));
  }

  // ------------------------------------- a marker past batches still to come

  /** A window's Closes marker at g. */
  function Closing(id: nat, table: string, g: Position): Entry {
    Entry(Batch(id, table, Some(g), true, false), None)
  }

  /** Worker "a" once the marker was sent, and acked by its id. */
  function Closed(p: Position, g: Position): Worker {
    Idle(p).(log := [Closing(1, "t", g)])
  }

  lemma MarkerAcked(p: Position, g: Position) returns (r: Run)
    requires SameKind(p, g)
    ensures Reaches(r, 4, Two(Closed(p, g), Idle(p), map["t" := g], {p, g})) && |r.acts| == 4
  {
    var f, e := Idle(p), Closing(1, "t", g);
    var s0 := Two(f, f, map[], {p});
    r := Starts(p);
    r := Sends(r, 0, s0, "a", f, e);
    PutA(f, f, map[], {p}, Sent(f, e));
    var s3 := Two(Sent(f, e), f, map["t" := g], {p, g});
    assert AfterSend(s0, "a", f, e) == s3;
    assert WithoutMarker([e.batch], 1) == [] && [] + [e] == [e] && [] + [e.batch] == [e.batch];
    assert Closed(p, g) == Sent(f, e).(index := MarkerReleased(Sent(f, e).index, 1));
    PutA(Sent(f, e), f, map["t" := g], {p, g}, Closed(p, g));
    r := Goes(r, 3, s3, AckMarker("a", 1), Two(Closed(p, g), f, map["t" := g], {p, g}));
  }

  /** The marker of a window at g is sent, noted and acked by its id, so nobody owes
      and g is confirmed; then a batch of its own table at d, which g contains,
      enters. */
  lemma MarkerConfirmsTheUnsent(p: Position, d: Position, g: Position) returns (r: Run)
    requires SameKind(p, g) && Holds(g, d)
    ensures r.Valid() && |r.acts| == 5 && r.acts[4] == Enter("a", At(2, "t", d))
    ensures Read(r, 4, 4, 4, Some(g), {}, Pos(g)) && Holds(g, r.acts[4].e.data.value)
  {
    var s4 := Two(Closed(p, g), Idle(p), map["t" := g], {p, g});
    r := MarkerAcked(p, g);
    assert Fresh(s4, Closed(p, g), At(2, "t", d));
    r := Goes(r, 4, s4, Enter("a", At(2, "t", d)), After(s4, Enter("a", At(2, "t", d))));
    OneNoted("t", g);
    NobodyOwes(r, 4, Closed(p, g), Idle(p), map["t" := g], {p, g}, g);
  }

  /** A worker added at that moment is listed at g, so its own committed position
      contains the batch it is then sent: owing and all, g stays confirmed. */
  lemma SeededPastIsCovered(p: Position, d: Position, g: Position) returns (r: Run)
    requires SameKind(p, g) && Holds(g, d)
    ensures r.Valid() && |r.states| == 8 && r.acts[5] == Register("b", Some(g))
    ensures Read(r, 5, 5, 5, Some(g), {}, Pos(g)) && Read(r, 7, 7, 7, Some(g), {"b"}, Pos(g))
    ensures Owed(r.states[7], "b", At(2, "u", d)) && Holds(g, At(2, "u", d).data.value)
  {
    var a, sent, known := Closed(p, g), map["t" := g], {p, g};
    var before := Reseated(p, g);
    var e := At(2, "u", d);
    r := EntersIdle(before, 6, a, g, e, sent, known);
    OneNoted("t", g);
    AloneOwesNothing(r, a, sent, known, g);
    OnlyBOwes(r, 7, a, Idle(g).(buffered := [e]), sent, known + {d}, g);
    BufferedIsOwed(a, g, e, sent, known + {d});
  }

  /** Worker "b" is retired, and added again at the position confirmed since. */
  lemma Reseated(p: Position, g: Position) returns (r: Run)
    requires SameKind(p, g)
    ensures Reaches(r, 6, Two(Closed(p, g), Idle(g), map["t" := g], {p, g}))
    ensures r.states[5] == Net(map["a" := Closed(p, g)], map["t" := g], {p, g})
    ensures |r.acts| == 6 && r.acts[5] == Register("b", Some(g))
  {
    var a, f, sent, known := Closed(p, g), Idle(p), map["t" := g], {p, g};
    r := MarkerAcked(p, g);
    var s5 := Net(map["a" := a], sent, known);
    assert map["a" := a, "b" := f] - {"b"} == map["a" := a];
    r := Goes(r, 4, Two(a, f, sent, known), Retire("b"), s5);
    CoversItself(g);
    assert map["a" := a]["b" := Idle(g)] == map["a" := a, "b" := Idle(g)];
    r := Goes(r, 5, s5, Register("b", Some(g)), Two(a, Idle(g), sent, known));
  }

  lemma EntersIdle(r: Run, n: nat, a: Worker, g: Position, e: Entry, sent: map<string, Position>, known: set<Position>)
    returns (r': Run)
    requires Reaches(r, n, Two(a, Idle(g), sent, known)) && e.batch.high.Some?
    requires Fresh(Two(a, Idle(g), sent, known), Idle(g), e)
    ensures Reaches(r', n + 1, Two(a, Idle(g).(buffered := [e]), sent, known + {e.batch.high.value}))
    ensures r.states <= r'.states && r.acts <= r'.acts
  {
    var y := Idle(g).(buffered := [e]);
    assert [] + [e] == [e];
    PutB(a, Idle(g), sent, known, y);
    r' := Goes(r, n, Two(a, Idle(g), sent, known), Enter("b", e), Two(a, y, sent, known + {e.batch.high.value}));
  }

  /** With only "b" owing, the read at one moment answers its committed position. */
  lemma OnlyBOwes(r: Run, n: nat, a: Worker, b: Worker, sent: map<string, Position>, known: set<Position>, g: Position)
    requires n < |r.states| && r.states[n] == Two(a, b, sent, known) && FrontierRead(sent, Some(g))
    requires !a.Owes() && b.Owes() && b.listed && b.committed == Some(g)
    ensures Read(r, n, n, n, Some(g), {"b"}, Pos(g))
  {
    OneOwes(ByWorkerOf(Two(a, b, sent, known)), "b", g, Some(g));
  }

  lemma AloneOwesNothing(r: Run, a: Worker, sent: map<string, Position>, known: set<Position>, g: Position)
    requires 5 < |r.states| && r.states[5] == Net(map["a" := a], sent, known)
    requires FrontierRead(sent, Some(g)) && a.listed && !a.Owes()
    ensures Read(r, 5, 5, 5, Some(g), {}, Pos(g))
  {
    var m := ByWorkerOf(r.states[5]);
    assert "a" in m;
    assert m.Keys * {} == {};
  }

  // ----------------------------------------------- an owner that is not listed

  /** A worker added while nothing is confirmed is not listed, so it decides nothing
      until its first ack: what it owes is confirmed with the others' frontier. */
  lemma UnlistedOwnerIsMissed(d: Position, g: Position) returns (r: Run)
    requires Holds(g, d)
    ensures r.Valid() && |r.states| == 8 && Read(r, 7, 7, 7, Some(g), {"b"}, Pos(g))
    ensures Owed(r.states[7], "b", At(2, "u", d)) && Holds(g, At(2, "u", d).data.value)
  {
    var x, y := Joining(true, None), Joining(false, None);
    r := OneUnlisted();
    var s1 := Two(x, y, map[], {});
    r := Sends(r, 1, s1, "a", x, At(1, "t", g));
    PutA(x, y, map[], {}, Sent(x, At(1, "t", g)));
    var s4 := Two(Sent(x, At(1, "t", g)), y, map["t" := g], {g});
    assert AfterSend(s1, "a", x, At(1, "t", g)) == s4;
    r := Acks(r, 4, s4, "a", Sent(x, At(1, "t", g)), 1, 0);
    AckedOne(x, At(1, "t", g), g);
    var done := Worker(true, None, Some(g), Index([], map["t" := g]), [At(1, "t", g)], 1, []);
    PutA(Sent(x, At(1, "t", g)), y, map["t" := g], {g}, done);
    r := OwesUnlisted(r, done, y, d, g);
  }

  lemma OneUnlisted() returns (r: Run)
    ensures Reaches(r, 1, Two(Joining(true, None), Joining(false, None), map[], {}))
  {
    var s0 := Boot({"a"}, None);
    assert Boots(s0);
    assert s0.workers == map["a" := Joining(true, None)];
    r := Run([s0], []);
    assert s0.workers["b" := Joining(false, None)] == map["a" := Joining(true, None), "b" := Joining(false, None)];
    r := Goes(r, 0, s0, Register("b", None), Two(Joining(true, None), Joining(false, None), map[], {}));
  }

  lemma OwesUnlisted(r: Run, a: Worker, b: Worker, d: Position, g: Position) returns (r': Run)
    requires Reaches(r, 6, Two(a, b, map["t" := g], {g})) && b == Joining(false, None) && Holds(g, d)
    requires a.listed && !a.Owes()
    ensures r'.Valid() && |r'.states| == 8 && Read(r', 7, 7, 7, Some(g), {"b"}, Pos(g))
    ensures Owed(r'.states[7], "b", At(2, "u", d))
  {
    var e := At(2, "u", d);
    var y := b.(buffered := [e]);
    assert [] + [e] == [e];
    PutB(a, b, map["t" := g], {g}, y);
    var s7 := Two(a, y, map["t" := g], {g, d});
    r' := Goes(r, 6, Two(a, b, map["t" := g], {g}), Enter("b", e), s7);
    OneNoted("t", g);
    var m := ByWorkerOf(s7);
    assert "a" in m && "b" !in m;
    assert m.Keys * {"b"} == {};
    assert y.Uncommitted() == [e];
  }

  // ------------------------------------------------- the two reads the other way

  /** The owing set read first, then a batch at g is sent and noted, then the
      frontier: g would be confirmed with the batch not durable. */
  lemma OtherOrderWouldMiss(p: Position, g: Position) returns (r: Run)
    requires SameKind(p, g) && !Holds(p, g)
    ensures r.Valid() && |r.states| == 4 && OwingIs(r.states[0], {})
    ensures FrontierRead(r.states[3].sent, Some(g)) && MinAnswer(ByWorkerOf(r.states[3]), {}, Some(g), Pos(g))
    ensures Owed(r.states[3], "a", At(1, "t", g)) && Holds(g, At(1, "t", g).data.value)
  {
    var f, e := Idle(p), At(1, "t", g);
    var first := Starts(p);
    r := FirstSent(first, p, g);
    assert r.states[0] == first.states[0];
    OneNoted("t", g);
    var m := ByWorkerOf(r.states[3]);
    assert "a" in m && m.Keys * {} == {};
    assert Sent(f, e).Uncommitted() == [e];
    CoversItself(g);
  }

  lemma FirstSent(r: Run, p: Position, g: Position) returns (r': Run)
    requires Reaches(r, 0, Two(Idle(p), Idle(p), map[], {p})) && SameKind(p, g)
    ensures Reaches(r', 3, Two(Sent(Idle(p), At(1, "t", g)), Idle(p), map["t" := g], {p, g}))
    ensures r.states <= r'.states
  {
    var f, e := Idle(p), At(1, "t", g);
    r' := Sends(r, 0, Two(f, f, map[], {p}), "a", f, e);
    PutA(f, f, map[], {p}, Sent(f, e));
    assert AfterSend(Two(f, f, map[], {p}), "a", f, e) == Two(Sent(f, e), f, map["t" := g], {p, g});
  }
}
