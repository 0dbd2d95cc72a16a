/** Retention safety over whole runs: exactly when what the coordinator tells the
    source it may discard covers a batch that is not durably committed.

    The protocol is on tables the workers commit themselves. A worker serves one
    table and commits serially, so what is durable is a prefix of what it was
    sent. A batch becomes visible (buffered) before anything else happens to it,
    moves from its buffer to the in-flight index in one step, and its position is
    noted as sent only after that. */
module Retention {
  import opened Text
  import opened Order
  import opened PositionOrder
  import opened Inflight
  import opened Confirmed

  /** A batch and the position that must not be confirmed before it is durable:
      its transaction's. An earlier piece of a transaction carries the previous
      safe position instead, or none at the start; MySQL marks it partial and
      Postgres does not. Snapshot rows and markers need no retention. */
  datatype Entry = Entry(batch: Batch, data: Option<Position>)

  ghost predicate Shaped(e: Entry) { e.data.Some? ==> !e.batch.marker }

  /** Neither the position a batch carries nor a partial mark tells the index
      that its rows are later than an ack of that position. */
  ghost predicate Unguarded(e: Entry) {
    && e.data.Some?
    && (e.batch.high.None? || (!e.batch.partial && !Holds(e.batch.high.value, e.data.value)))
  }

  /** The batch's table is acked at or beyond the position the batch carries. */
  ghost predicate Reached(acked: map<string, Position>, b: Batch) {
    b.table in acked && (b.high.Some? ==> Holds(acked[b.table], b.high.value))
  }

  /** One worker: whether the committed positions list it and the position it was
      listed at, its committed position, its in-flight index, every batch it was
      sent, how many of those are durable, and what is buffered ahead of the send. */
  datatype Worker = Worker(
    listed: bool,
    seed: Option<Position>,
    committed: Option<Position>,
    index: Index,
    log: seq<Entry>,
    durable: nat,
    buffered: seq<Entry>)
  {
    function All(): seq<Entry> { log + buffered }

    function Uncommitted(): seq<Entry> {
      if durable <= |All()| then All()[durable..] else []
    }

    /** Queued, in flight or buffered: what the owing set looks at. */
    predicate Owes() { index.head != [] || buffered != [] }
  }

  /** The coordinator: its workers, each table's last noted position, and every
      position seen so far (the boot baseline and the batches'). */
  datatype Net = Net(workers: map<string, Worker>, sent: map<string, Position>, known: set<Position>)

  datatype Act =
    | Enter(w: string, e: Entry)
    | Deliver(w: string)
    | Note(w: string, i: nat)
    | Commit(w: string, n: nat)
    | AckAt(w: string, j: nat)
    | AckMarker(w: string, id: nat)
    | Register(w: string, p: Option<Position>)
    | Retire(w: string)

  function Joining(listed: bool, p: Option<Position>): Worker {
    Worker(listed, p, p, Index([], map[]), [], 0, [])
  }

  function Put(s: Net, w: string, x: Worker): Net { s.(workers := s.workers[w := x]) }

  /** A worker's batches come in stream order: a later one is contained in no
      earlier one's position, and a partial one carries a position at or beyond
      every earlier one. A window's Closes marker is outside that order: its
      position is the reader's, past batches of its table still to come. Two
      workers may be sent the same position. */
  ghost predicate Fresh(s: Net, x: Worker, e: Entry) {
    && Shaped(e)
    && (e.data.Some? ==> PastAll(e.data.value, x.All()))
    && (e.batch.high.Some? ==> forall k :: k in s.known ==> SameKind(k, e.batch.high.value))
    && (e.data.Some? && e.batch.partial && e.batch.high.Some? ==> CarriesAll(e.batch.high.value, x.All()))
  }

  /** The position a batch of the stream carries; a marker's is not the stream's. */
  predicate Carries(e: Entry) { !e.batch.marker && e.batch.high.Some? }

  ghost predicate PastAll(p: Position, es: seq<Entry>) {
    forall i :: 0 <= i < |es| && Carries(es[i]) ==> !Holds(es[i].batch.high.value, p)
  }

  ghost predicate CarriesAll(p: Position, es: seq<Entry>) {
    forall i :: 0 <= i < |es| && Carries(es[i]) ==> Holds(p, es[i].batch.high.value)
  }

  ghost predicate Enabled(s: Net, a: Act) {
    if a.Register? then
      a.w !in s.workers && (a.p.Some? ==> Below(a.p.value, s.known))
    else
      && a.w in s.workers
      && var x := s.workers[a.w];
         match a
         case Enter(_, e) => Fresh(s, x, e)
         case Deliver(_) => x.buffered != []
         case Note(_, i) => i < |x.log| && x.log[i].batch.high.Some?
         case Commit(_, n) => x.durable <= n <= |x.log|
         case AckAt(_, j) => j < x.durable && j < |x.log| && Carries(x.log[j])
         case AckMarker(_, _) => true
         case Retire(_) => !x.Owes()
  }

  ghost function After(s: Net, a: Act): Net
    requires Enabled(s, a)
  {
    if a.Register? then Put(s, a.w, Joining(a.p.Some?, a.p))
    else
      var x := s.workers[a.w];
      match a
      case Enter(w, e) =>
        Put(s, w, x.(buffered := x.buffered + [e]))
          .(known := s.known + if e.batch.high.Some? then {e.batch.high.value} else {})
      case Deliver(w) =>
        Put(s, w, x.(index := x.index.(head := x.index.head + [x.buffered[0].batch]),
                     log := x.log + [x.buffered[0]], buffered := x.buffered[1..]))
      case Note(w, i) => s.(sent := s.sent[x.log[i].batch.table := x.log[i].batch.high.value])
      case Commit(w, n) => Put(s, w, x.(durable := n))
      case AckAt(w, j) =>
        var b := x.log[j].batch;
        Put(s, w, x.(listed := true, index := Truncated(x.index, b.table, b.high.value), committed := b.high))
      case AckMarker(w, id) => Put(s, w, x.(index := MarkerReleased(x.index, id)))
      case Retire(w) => s.(workers := s.workers - {w})
  }

  ghost predicate Step(s: Net, a: Act, s': Net) { Enabled(s, a) && s' == After(s, a) }

  // -------------------------------------------------------------- invariants

  ghost predicate InOrder(es: seq<Entry>) {
    forall i, j :: 0 <= j < i < |es| && es[i].data.Some? && Carries(es[j]) ==>
      && !Holds(es[j].batch.high.value, es[i].data.value)
      && (es[i].batch.partial && es[i].batch.high.Some? ==> Holds(es[i].batch.high.value, es[j].batch.high.value))
  }

  /** Every acked position is the high of a durable batch. */
  ghost predicate AcksDurable(x: Worker) {
    forall t :: t in x.index.acked ==> DurableHigh(x, x.index.acked[t])
  }

  ghost predicate DurableHigh(x: Worker, p: Position) {
    exists j :: 0 <= j < x.durable && j < |x.log| && Carries(x.log[j]) && x.log[j].batch.high == Some(p)
  }

  /** What is sent and not durable, and needs retention, is still in flight, unless
      it is unguarded and an ack reached the position it carries. */
  ghost predicate StillInFlight(x: Worker) {
    forall i :: x.durable <= i < |x.log| && x.log[i].data.Some? ==> InFlightOrLeft(x, x.log[i])
  }

  ghost predicate InFlightOrLeft(x: Worker, e: Entry) { e.batch in x.index.head || LeftEarly(x, e) }

  ghost predicate LeftEarly(x: Worker, e: Entry) { Unguarded(e) && Reached(x.index.acked, e.batch) }

  ghost predicate Below(p: Position, known: set<Position>) { exists k :: k in known && Holds(k, p) }

  /** A committed position is a durable batch's, or still the one it was listed at. */
  ghost predicate Earned(x: Worker, c: Position) { x.seed == Some(c) || DurableHigh(x, c) }

  ghost predicate WorkerInv(x: Worker, known: set<Position>) {
    && x.durable <= |x.log|
    && (forall i :: 0 <= i < |x.All()| ==>
          Shaped(x.All()[i]) && (x.All()[i].batch.high.Some? ==> x.All()[i].batch.high.value in known))
    && InOrder(x.All())
    && AcksDurable(x)
    && StillInFlight(x)
    && (x.committed.Some? ==> Below(x.committed.value, known) && Earned(x, x.committed.value))
  }

  ghost predicate NetInv(s: Net) {
    && (forall w :: w in s.workers ==> WorkerInv(s.workers[w], s.known))
    && (forall a, b :: a in s.known && b in s.known ==> SameKind(a, b))
    && (forall t :: t in s.sent ==> s.sent[t] in s.known)
  }

  // ------------------------------------------------ each step keeps a worker

  /** A batch that is not durable pops exactly when it is unguarded and its table
      is acked at or beyond the position it carries. */
  lemma PopsBeforeDurable(x: Worker, acked: map<string, Position>, i: nat)
    requires x.durable <= i < |x.log| && x.log[i].data.Some?
    requires InOrder(x.All()) && Shaped(x.log[i])
    requires forall t :: t in acked ==> DurableHigh(x, acked[t])
    ensures Pops(x.log[i].batch, acked) <==> Unguarded(x.log[i]) && Reached(acked, x.log[i].batch)
  {
    var b := x.log[i].batch;
    if b.table in acked && b.high.Some? {
      var p := acked[b.table];
      assert DurableHigh(x, p);
      var j :| 0 <= j < x.durable && j < |x.log| && Carries(x.log[j]) && x.log[j].batch.high == Some(p);
      assert x.All()[i] == x.log[i] && x.All()[j] == x.log[j];
      OrderedPops(b.high.value, p, x.log[i].data.value, b.partial);
    }
  }

  /** The positions of it: h carried, p acked, d the rows' own. */
  lemma OrderedPops(h: Position, p: Position, d: Position, partial: bool)
    requires !Holds(p, d) && (partial ==> Holds(h, p))
    ensures CoveredBy(h, p) && (partial ==> Advances(p, h)) <==> !partial && !Holds(h, d) && Holds(p, h)
  {
    CmpIsContainment(h, p);
    CmpIsContainment(p, h);
    if Holds(p, h) && Holds(h, d) { HoldsTransitive(p, h, d); }
  }

  /** An ack never takes a table's acked position back. */
  lemma AckReachesFurther(acked: map<string, Position>, table: string, p: Position, b: Batch)
    requires Reached(acked, b)
    ensures Reached(Acked(acked, table, p), b)
  {
    if b.table == table && Advances(p, acked[table]) {
      CmpIsContainment(p, acked[table]);
      if b.high.Some? { HoldsTransitive(p, acked[table], b.high.value); }
    }
  }

  lemma AckKeepsInFlight(x: Worker, table: string, p: Position, i: nat)
    requires x.durable <= i < |x.log| && x.log[i].data.Some? && InFlightOrLeft(x, x.log[i])
    requires InOrder(x.All()) && Shaped(x.log[i])
    requires forall t :: t in Acked(x.index.acked, table, p) ==> DurableHigh(x, Acked(x.index.acked, table, p)[t])
    ensures InFlightOrLeft(x.(index := Truncated(x.index, table, p)), x.log[i])
  {
    var acked := Acked(x.index.acked, table, p);
    PopsBeforeDurable(x, acked, i);
    if LeftEarly(x, x.log[i]) {
      AckReachesFurther(x.index.acked, table, p, x.log[i].batch);
    } else if !Pops(x.log[i].batch, acked) {
      KeptUnlessPopped(x.index.head, acked, x.log[i].batch);
    }
  }

  lemma AckKeepsWorker(x: Worker, known: set<Position>, j: nat)
    requires WorkerInv(x, known) && j < x.durable && Carries(x.log[j])
    ensures var b := x.log[j].batch;
      WorkerInv(x.(listed := true, index := Truncated(x.index, b.table, b.high.value), committed := b.high), known)
  {
    var b := x.log[j].batch;
    var p := b.high.value;
    var x' := x.(listed := true, index := Truncated(x.index, b.table, p), committed := b.high);
    assert x.All()[j] == x.log[j];
    assert DurableHigh(x, p);
    assert forall t :: t in x'.index.acked ==> DurableHigh(x, x'.index.acked[t]) && DurableHigh(x', x'.index.acked[t]);
    forall i | x'.durable <= i < |x'.log| && x'.log[i].data.Some? ensures InFlightOrLeft(x', x'.log[i]) {
      assert x.All()[i] == x.log[i];
      AckKeepsInFlight(x, b.table, p, i);
    }
    Preorder(p, p, p);
    assert x'.All() == x.All();
  }

  lemma MarkerKeepsInFlight(x: Worker, id: nat, i: nat)
    requires x.durable <= i < |x.log| && x.log[i].data.Some? && InFlightOrLeft(x, x.log[i])
    requires InOrder(x.All()) && Shaped(x.log[i]) && AcksDurable(x)
    ensures InFlightOrLeft(x.(index := MarkerReleased(x.index, id)), x.log[i])
  {
    PopsBeforeDurable(x, x.index.acked, i);
    if !LeftEarly(x, x.log[i]) {
      KeptUnlessMarker(x.index.head, id, x.log[i].batch);
      KeptUnlessPopped(WithoutMarker(x.index.head, id), x.index.acked, x.log[i].batch);
    }
  }

  lemma MarkerKeepsWorker(x: Worker, known: set<Position>, id: nat)
    requires WorkerInv(x, known)
    ensures WorkerInv(x.(index := MarkerReleased(x.index, id)), known)
  {
    var x' := x.(index := MarkerReleased(x.index, id));
    assert forall t :: t in x.index.acked ==> DurableHigh(x', x.index.acked[t]) by {
      assert forall t :: t in x.index.acked ==> DurableHigh(x, x.index.acked[t]);
    }
    forall i | x'.durable <= i < |x'.log| && x'.log[i].data.Some? ensures InFlightOrLeft(x', x'.log[i]) {
      assert x.All()[i] == x.log[i];
      MarkerKeepsInFlight(x, id, i);
    }
    assert forall c :: DurableHigh(x, c) ==> DurableHigh(x', c);
    assert x'.All() == x.All();
  }

  lemma EnterKeepsWorker(s: Net, w: string, e: Entry)
    requires NetInv(s) && w in s.workers && Fresh(s, s.workers[w], e)
    ensures var known := s.known + if e.batch.high.Some? then {e.batch.high.value} else {};
      WorkerInv(s.workers[w].(buffered := s.workers[w].buffered + [e]), known)
  {
    var x := s.workers[w];
    var x' := x.(buffered := x.buffered + [e]);
    assert x'.All() == x.All() + [e];
    SameAcks(x, x');
    SameFlight(x, x');
    if x.committed.Some? {
      var k :| k in s.known && Holds(k, x.committed.value);
    }
  }

  lemma SameFlight(x: Worker, x': Worker)
    requires StillInFlight(x) && x'.index == x.index && x'.log == x.log && x.durable <= x'.durable
    ensures StillInFlight(x')
  {
    forall i | x'.durable <= i < |x'.log| && x'.log[i].data.Some? ensures InFlightOrLeft(x', x'.log[i]) {
      assert InFlightOrLeft(x, x.log[i]);
    }
  }

  lemma SameAcks(x: Worker, x': Worker)
    requires AcksDurable(x) && x'.index.acked == x.index.acked
    requires x.durable <= x'.durable && x.log <= x'.log && x'.committed == x.committed && x'.seed == x.seed
    ensures AcksDurable(x')
    ensures forall c :: Earned(x, c) ==> Earned(x', c)
  {
    forall t | t in x'.index.acked ensures DurableHigh(x', x'.index.acked[t]) {
      DurableStays(x, x', x.index.acked[t]);
    }
    forall c | Earned(x, c) ensures Earned(x', c) {
      if DurableHigh(x, c) { DurableStays(x, x', c); }
    }
  }

  lemma DurableStays(x: Worker, x': Worker, p: Position)
    requires DurableHigh(x, p) && x.durable <= x'.durable && x.log <= x'.log
    ensures DurableHigh(x', p)
  {
    var j :| 0 <= j < x.durable && j < |x.log| && Carries(x.log[j]) && x.log[j].batch.high == Some(p);
    assert x'.log[j] == x.log[j];
  }

  lemma DeliverKeepsWorker(x: Worker, known: set<Position>)
    requires WorkerInv(x, known) && x.buffered != []
    ensures WorkerInv(x.(index := x.index.(head := x.index.head + [x.buffered[0].batch]),
                         log := x.log + [x.buffered[0]], buffered := x.buffered[1..]), known)
  {
    var x' := x.(index := x.index.(head := x.index.head + [x.buffered[0].batch]),
                 log := x.log + [x.buffered[0]], buffered := x.buffered[1..]);
    assert x'.All() == x.All();
    SameAcks(x, x');
    forall i | x'.durable <= i < |x'.log| && x'.log[i].data.Some? ensures InFlightOrLeft(x', x'.log[i]) {
      if i < |x.log| { assert InFlightOrLeft(x, x.log[i]); }
    }
  }

  lemma CommitKeepsWorker(x: Worker, known: set<Position>, n: nat)
    requires WorkerInv(x, known) && x.durable <= n <= |x.log|
    ensures WorkerInv(x.(durable := n), known)
  {
    var x' := x.(durable := n);
    assert x'.All() == x.All();
    SameAcks(x, x');
    SameFlight(x, x');
  }

  lemma MoreKnown(x: Worker, known: set<Position>, more: set<Position>)
    requires WorkerInv(x, known) && known <= more
    ensures WorkerInv(x, more)
  {
    if x.committed.Some? {
      var k :| k in known && Holds(k, x.committed.value);
      assert k in more;
    }
  }

  /** The worker a step changes, and what it becomes. */
  lemma StepKeepsWorkers(s: Net, a: Act, s': Net, w: string)
    requires NetInv(s) && Step(s, a, s') && w in s'.workers
    ensures WorkerInv(s'.workers[w], s'.known)
  {
    if w in s.workers && s'.workers[w] == s.workers[w] {
      MoreKnown(s.workers[w], s.known, s'.known);
    } else {
      match a
      case Enter(_, e) => EnterKeepsWorker(s, w, e);
      case Deliver(_) => DeliverKeepsWorker(s.workers[w], s.known);
      case Commit(_, n) => CommitKeepsWorker(s.workers[w], s.known, n);
      case AckAt(_, j) => AckKeepsWorker(s.workers[w], s.known, j);
      case AckMarker(_, id) => MarkerKeepsWorker(s.workers[w], s.known, id);
      case _ =>
    }
  }

  lemma StepKeepsNet(s: Net, a: Act, s': Net)
    requires NetInv(s) && Step(s, a, s')
    ensures NetInv(s')
  {
    forall w | w in s'.workers ensures WorkerInv(s'.workers[w], s'.known) { StepKeepsWorkers(s, a, s', w); }
    if a.Note? {
      var x := s.workers[a.w];
      assert x.All()[a.i] == x.log[a.i];
    }
  }

  // ---------------------------------------------------------------- whole runs

  /** Boot: every worker is registered at the resume position, or at none. */
  function Boot(ws: set<string>, resume: Option<Position>): Net {
    Net(map w | w in ws :: Joining(true, resume), map[], if resume.Some? then {resume.value} else {})
  }

  ghost predicate Boots(s: Net) { exists ws, resume :: s == Boot(ws, resume) }

  datatype Run = Run(states: seq<Net>, acts: seq<Act>) {
    ghost predicate Valid() {
      && |states| == |acts| + 1
      && Boots(states[0])
      && forall n :: 0 <= n < |acts| ==> StepsAt(n)
    }

    ghost predicate StepsAt(n: nat) {
      n < |acts| && n + 1 < |states| && Step(states[n], acts[n], states[n + 1])
    }
  }

  lemma BootInv(ws: set<string>, resume: Option<Position>)
    ensures NetInv(Boot(ws, resume))
  {
    if resume.Some? { Preorder(resume.value, resume.value, resume.value); }
  }

  lemma {:induction false} RunInv(r: Run, n: nat)
    requires r.Valid() && n < |r.states|
    ensures NetInv(r.states[n])
    decreases n
  {
    if n == 0 {
      var ws, resume :| r.states[0] == Boot(ws, resume);
      BootInv(ws, resume);
    } else {
      RunInv(r, n - 1);
      assert r.StepsAt(n - 1);
      StepKeepsNet(r.states[n - 1], r.acts[n - 1], r.states[n]);
    }
  }

  /** A batch of worker w, needing retention, that is not durably committed. */
  ghost predicate Owed(s: Net, w: string, e: Entry) {
    w in s.workers && e in s.workers[w].Uncommitted() && e.data.Some?
  }

  /** The workers that owe work, among those registered. */
  ghost predicate OwingIs(s: Net, owing: set<string>) {
    forall w :: w in s.workers ==> (s.workers[w].Owes() <==> w in owing)
  }

  /** The committed positions, of the workers listed there. */
  ghost function ByWorkerOf(s: Net): ByWorker {
    map w | w in s.workers && s.workers[w].listed :: s.workers[w].committed
  }

  /** A batch that is not durable makes its worker owe, unless it left early. */
  lemma OwedIsOwing(s: Net, w: string, e: Entry)
    requires NetInv(s) && Owed(s, w, e) && !LeftEarly(s.workers[w], e)
    ensures s.workers[w].Owes()
  {
    var x := s.workers[w];
    var i :| 0 <= i < |x.Uncommitted()| && x.Uncommitted()[i] == e;
    var at := x.durable + i;
    assert e == x.All()[at];
    if at < |x.log| { assert x.log[at] == e && InFlightOrLeft(x, e); }
  }

  lemma StaysUncommitted(x: Worker, x': Worker, e: Entry)
    requires x'.All() == x.All() && x.durable <= x'.durable && e in x'.Uncommitted()
    ensures e in x.Uncommitted()
  {
    var i :| 0 <= i < |x'.Uncommitted()| && x'.Uncommitted()[i] == e;
    assert x.Uncommitted()[x'.durable - x.durable + i] == e;
  }

  ghost predicate EntersFor(a: Act, w: string) { a.Enter? && a.w == w }

  /** Without new batches for its worker, what is owed now was owed before. */
  lemma OwedBefore(s: Net, a: Act, s': Net, w: string, e: Entry)
    requires Step(s, a, s') && !EntersFor(a, w) && Owed(s', w, e)
    ensures Owed(s, w, e)
  {
    if a.w == w && !a.Note? {
      var x' := s'.workers[w];
      match a {
        case Deliver(_) =>
          assert x'.All() == s.workers[w].All();
          StaysUncommitted(s.workers[w], x', e);
        case Commit(_, _) => StaysUncommitted(s.workers[w], x', e);
        case _ =>
      }
    }
  }

  /** Between the two moments no batch enters for the worker. */
  ghost predicate NoneEntersFor(r: Run, j: nat, k: nat, w: string) {
    forall n :: j <= n < k && n < |r.acts| ==> !EntersFor(r.acts[n], w)
  }

  lemma {:induction false} OwedSince(r: Run, j: nat, k: nat, w: string, e: Entry)
    requires r.Valid() && j <= k < |r.states| && Owed(r.states[k], w, e) && NoneEntersFor(r, j, k, w)
    ensures Owed(r.states[j], w, e)
    decreases k - j
  {
    if j < k {
      assert r.StepsAt(k - 1);
      OwedBefore(r.states[k - 1], r.acts[k - 1], r.states[k], w, e);
      OwedSince(r, j, k - 1, w, e);
    }
  }

  lemma {:induction false} KnownGrows(r: Run, i: nat, k: nat)
    requires r.Valid() && i <= k < |r.states|
    ensures r.states[i].known <= r.states[k].known
    decreases k - i
  {
    if i < k {
      KnownGrows(r, i, k - 1);
      assert r.StepsAt(k - 1);
    }
  }

  /** The frontier of the positions sent, walking the tables in some order: nothing
      before any was sent, or when two of them have no order. */
  ghost predicate FrontierRead(sent: map<string, Position>, f: Option<Position>) {
    exists order, vals :: FrontierIn(order, vals, sent, f)
  }

  ghost predicate FrontierIn(order: seq<string>, vals: seq<Option<Position>>, sent: map<string, Position>,
                             f: Option<Position>) {
    && Once(order, sent.Keys) && |vals| == |order|
    && (forall i :: 0 <= i < |order| ==> order[i] in sent && vals[i] == Some(sent[order[i]]))
    && f == Reported(FrontierFrom(None, vals))
  }

  function Reported(a: Answer): Option<Position> { if a.Pos? then Some(a.p) else None }

  /** A frontier is the position of some table, and contains every other's. */
  lemma FrontierIsNoted(sent: map<string, Position>, f: Option<Position>)
    requires FrontierRead(sent, f) && f.Some?
    ensures exists t :: t in sent && sent[t] == f.value
    ensures forall t :: t in sent ==> Holds(f.value, sent[t])
  {
    var order, vals :| FrontierIn(order, vals, sent, f);
    FrontierIsGreatest(None, vals);
    var i :| 0 <= i < |vals| && vals[i] == f;
    assert order[i] in sent && sent[order[i]] == f.value;
    forall t | t in sent ensures Holds(f.value, sent[t]) {
      assert t in sent.Keys;
      var j :| 0 <= j < |order| && order[j] == t;
      assert vals[j] == Some(sent[t]);
    }
  }

  /** The confirmed position as the source reads it: the frontier from the
      positions sent at some moment, the owing set at a second moment, the
      committed positions at a third. */
  ghost predicate Read(r: Run, i: nat, j: nat, k: nat, f: Option<Position>, owing: set<string>, ans: Answer) {
    && i <= j <= k < |r.states|
    && FrontierRead(r.states[i].sent, f)
    && OwingIs(r.states[j], owing)
    && MinAnswer(ByWorkerOf(r.states[k]), owing, f, ans)
  }

  // ------------------------------------------------- what the answer contains

  /** With a frontier and none owing, the frontier decides. */
  predicate ByFrontier(m: ByWorker, owing: set<string>, f: Option<Position>) { m.Keys * owing == {} && f.Some? }

  ghost predicate Decided(m: ByWorker, owing: set<string>, f: Option<Position>, d: Position) {
    AllHold(m, Deciders(m, owing, f), d) && (ByFrontier(m, owing, f) ==> Holds(f.value, d))
  }

  /** A safe minimum over workers contains exactly what each of them contains. */
  lemma MinOverHolds(m: ByWorker, ws: set<string>, ans: Answer, d: Position)
    requires MinOver(m, ws, ans) && ans.Pos? && ws <= m.Keys
    ensures Holds(ans.p, d) <==> AllHold(m, ws, d)
  {
    var vals :| Lists(vals, m, ws) && Homogeneous(vals) && ans == FromMinimum(MinSafeOf(vals));
    var order :| ListsIn(order, vals, m, ws);
    MinSafeIsGreatestLowerBound(vals);
    if Holds(ans.p, d) {
      forall v | v in ws ensures m[v].Some? && Holds(m[v].value, d) {
        assert v in order;
        var i :| 0 <= i < |order| && order[i] == v;
        assert m[v] == Some(vals[i]) && Holds(vals[i], ans.p);
        HoldsTransitive(vals[i], ans.p, d);
      }
    }
    if AllHold(m, ws, d) {
      forall i | 0 <= i < |vals| ensures Holds(vals[i], d) {
        assert order[i] in ws && m[order[i]] == Some(vals[i]);
      }
      assert AllKind(vals, d) && LowerBound(d, vals);
    }
  }

  lemma AnswerHolds(m: ByWorker, owing: set<string>, f: Option<Position>, ans: Answer, d: Position)
    requires MinAnswer(m, owing, f, ans) && ans.Pos?
    ensures Holds(ans.p, d) <==> Decided(m, owing, f, d)
  {
    var owed := m.Keys * owing;
    if owed != {} {
      MinOverHolds(m, owed, ans, d);
    } else if f.None? {
      MinOverHolds(m, m.Keys, ans, d);
    }
  }

  /** The worker was listed at a position past the batch, and has acked none since. */
  ghost predicate SeededPast(x: Worker, e: Entry)
    requires e.data.Some?
  {
    x.seed.Some? && x.committed == x.seed && Holds(x.seed.value, e.data.value)
  }

  /** A worker's own committed position contains a batch behind all it was sent
      exactly when the worker was listed past it. */
  lemma OwnPosition(x: Worker, known: set<Position>, e: Entry)
    requires WorkerInv(x, known) && e.data.Some?
    requires forall i :: 0 <= i < x.durable && Carries(x.log[i]) ==> !Holds(x.log[i].batch.high.value, e.data.value)
    ensures x.committed.Some? && Holds(x.committed.value, e.data.value) <==> SeededPast(x, e)
  {
    if x.committed.Some? && DurableHigh(x, x.committed.value) {
      var c := x.committed.value;
      var j :| 0 <= j < x.durable && j < |x.log| && Carries(x.log[j]) && x.log[j].batch.high == Some(c);
      assert !Holds(c, e.data.value);
    }
  }

  lemma OwedIsPast(s: Net, w: string, e: Entry)
    requires NetInv(s) && Owed(s, w, e)
    ensures var x := s.workers[w];
      x.committed.Some? && Holds(x.committed.value, e.data.value) <==> SeededPast(x, e)
  {
    var x := s.workers[w];
    assert WorkerInv(x, s.known);
    var at :| 0 <= at < |x.Uncommitted()| && x.Uncommitted()[at] == e;
    assert x.All()[x.durable + at] == e;
    forall i | 0 <= i < x.durable && Carries(x.log[i]) ensures !Holds(x.log[i].batch.high.value, e.data.value) {
      assert x.All()[i] == x.log[i];
    }
    OwnPosition(x, s.known, e);
  }

  /** A batch of worker w is confirmed: w is no decider, or was listed past it, and
      every other decider, or the frontier, contains it. */
  ghost predicate Covering(m: ByWorker, owing: set<string>, f: Option<Position>, w: string, past: bool, d: Position) {
    && (w in Deciders(m, owing, f) ==> past)
    && AllHold(m, Deciders(m, owing, f) - {w}, d)
    && (ByFrontier(m, owing, f) ==> Holds(f.value, d))
  }

  lemma CoveringIsDecided(m: ByWorker, owing: set<string>, f: Option<Position>, w: string, past: bool, d: Position)
    requires w in m ==> (m[w].Some? && Holds(m[w].value, d) <==> past)
    ensures Covering(m, owing, f, w, past, d) <==> Decided(m, owing, f, d)
  {
    var ws := Deciders(m, owing, f);
    assert ws <= m.Keys;
    if Covering(m, owing, f, w, past, d) {
      forall v | v in ws && v in m ensures m[v].Some? && Holds(m[v].value, d) {
        if v != w { assert v in ws - {w}; }
      }
    }
  }

  /** Exactly when a confirmed position contains a batch that is not durable. */
  lemma CoversUndurableExactly(r: Run, i: nat, j: nat, k: nat, f: Option<Position>, owing: set<string>, ans: Answer,
                               w: string, e: Entry)
    requires r.Valid() && Read(r, i, j, k, f, owing, ans) && ans.Pos?
    requires Owed(r.states[k], w, e)
    ensures Holds(ans.p, e.data.value) <==>
      Covering(ByWorkerOf(r.states[k]), owing, f, w, SeededPast(r.states[k].workers[w], e), e.data.value)
  {
    var m := ByWorkerOf(r.states[k]);
    RunInv(r, k);
    OwedIsPast(r.states[k], w, e);
    AnswerHolds(m, owing, f, ans, e.data.value);
    CoveringIsDecided(m, owing, f, w, SeededPast(r.states[k].workers[w], e), e.data.value);
  }

  /** A batch that is not durable and whose worker was not seen owing, though none
      entered for it since, had left the index early. */
  lemma UnseenLeftEarly(r: Run, j: nat, k: nat, owing: set<string>, w: string, e: Entry)
    requires r.Valid() && j <= k < |r.states| && OwingIs(r.states[j], owing)
    requires Owed(r.states[k], w, e) && w !in owing && NoneEntersFor(r, j, k, w)
    ensures w in r.states[j].workers && LeftEarly(r.states[j].workers[w], e)
  {
    OwedSince(r, j, k, w, e);
    RunInv(r, j);
    if !LeftEarly(r.states[j].workers[w], e) { OwedIsOwing(r.states[j], w, e); }
  }

  /** Retention safety: a confirmed position never contains the position of a batch
      that is not durable, given that none entered for its worker between the reads
      unless that was seen owing, that an ack had not taken the batch out of the
      index early, and that its worker is listed, at no position past it. */
  lemma ConfirmedCoversOnlyDurable(r: Run, i: nat, j: nat, k: nat, f: Option<Position>, owing: set<string>,
                                   ans: Answer, w: string, e: Entry)
    requires r.Valid() && Read(r, i, j, k, f, owing, ans) && ans.Pos?
    requires Owed(r.states[k], w, e) && (w in owing || NoneEntersFor(r, j, k, w))
    requires w in r.states[j].workers ==> !LeftEarly(r.states[j].workers[w], e)
    requires r.states[k].workers[w].listed && !SeededPast(r.states[k].workers[w], e)
    ensures !Holds(ans.p, e.data.value)
  {
    if w !in owing { UnseenLeftEarly(r, j, k, owing, w, e); }
    CoversUndurableExactly(r, i, j, k, f, owing, ans, w, e);
    var m := ByWorkerOf(r.states[k]);
    assert w in m.Keys * owing;
  }

  // ------------------------------------------------------- what enters later

  /** The worker stays registered from one moment to another. */
  ghost predicate Stays(r: Run, k: nat, n: nat, w: string) {
    && k <= n < |r.states| && w in r.states[k].workers
    && forall i :: k <= i < n && i < |r.acts| ==> r.acts[i] != Retire(w)
  }

  lemma {:induction false} LogGrows(r: Run, k: nat, n: nat, w: string)
    requires r.Valid() && Stays(r, k, n, w)
    ensures w in r.states[n].workers && r.states[k].workers[w].log <= r.states[n].workers[w].log
    ensures r.states[k].workers[w].durable <= r.states[n].workers[w].durable
    decreases n - k
  {
    if k < n {
      assert Stays(r, k, n - 1, w);
      LogGrows(r, k, n - 1, w);
      assert r.StepsAt(n - 1);
      StepGrows(r.states[n - 1], r.acts[n - 1], r.states[n], w);
    }
  }

  lemma StepGrows(s: Net, a: Act, s': Net, w: string)
    requires Step(s, a, s') && w in s.workers && a != Retire(w)
    ensures w in s'.workers && s.workers[w].log <= s'.workers[w].log && s.workers[w].durable <= s'.workers[w].durable
  {
  }

  /** Exactly when it contains a batch that enters later, for a worker that stays. */
  lemma CoversLaterExactly(r: Run, i: nat, j: nat, k: nat, f: Option<Position>, owing: set<string>, ans: Answer, n: nat)
    requires r.Valid() && Read(r, i, j, k, f, owing, ans) && ans.Pos?
    requires k <= n < |r.acts| && r.acts[n].Enter? && r.acts[n].e.data.Some? && Stays(r, k, n, r.acts[n].w)
    ensures var a := r.acts[n];
      Holds(ans.p, a.e.data.value) <==>
        Covering(ByWorkerOf(r.states[k]), owing, f, a.w, SeededPast(r.states[k].workers[a.w], a.e), a.e.data.value)
  {
    var m, a := ByWorkerOf(r.states[k]), r.acts[n];
    RunInv(r, k);
    LaterIsPast(r, k, n);
    OwnPosition(r.states[k].workers[a.w], r.states[k].known, a.e);
    AnswerHolds(m, owing, f, ans, a.e.data.value);
    CoveringIsDecided(m, owing, f, a.w, SeededPast(r.states[k].workers[a.w], a.e), a.e.data.value);
  }

  lemma LaterIsPast(r: Run, k: nat, n: nat)
    requires r.Valid() && k <= n < |r.acts| && r.acts[n].Enter? && r.acts[n].e.data.Some?
    requires Stays(r, k, n, r.acts[n].w)
    ensures var x, d := r.states[k].workers[r.acts[n].w], r.acts[n].e.data.value;
      forall i :: 0 <= i < |x.log| && Carries(x.log[i]) ==> !Holds(x.log[i].batch.high.value, d)
  {
    var w, d := r.acts[n].w, r.acts[n].e.data.value;
    LogGrows(r, k, n, w);
    var x, y := r.states[k].workers[w], r.states[n].workers[w];
    assert r.StepsAt(n);
    forall i | 0 <= i < |x.log| && Carries(x.log[i]) ensures !Holds(x.log[i].batch.high.value, d) {
      assert y.All()[i] == y.log[i] == x.log[i];
    }
  }

  lemma CommittedBelow(s: Net, w: string, p: Position)
    requires NetInv(s) && w in s.workers && s.workers[w].committed.Some? && Holds(s.workers[w].committed.value, p)
    ensures Below(p, s.known)
  {
    assert WorkerInv(s.workers[w], s.known);
    var c := s.workers[w].committed.value;
    var q :| q in s.known && Holds(q, c);
    HoldsTransitive(q, c, p);
  }

  lemma MinimumBelowKnown(s: Net, owing: set<string>, f: Option<Position>, ans: Answer)
    requires NetInv(s) && MinAnswer(ByWorkerOf(s), owing, f, ans) && ans.Pos?
    requires !ByFrontier(ByWorkerOf(s), owing, f)
    ensures Below(ans.p, s.known)
  {
    var m := ByWorkerOf(s);
    Preorder(ans.p, ans.p, ans.p);
    AnswerHolds(m, owing, f, ans, ans.p);
    assert m.Keys == {} ==> m == map[];
    var w :| w in Deciders(m, owing, f);
    CommittedBelow(s, w, ans.p);
  }

  lemma AnswerBelowKnown(r: Run, i: nat, j: nat, k: nat, f: Option<Position>, owing: set<string>, ans: Answer)
    requires r.Valid() && Read(r, i, j, k, f, owing, ans) && ans.Pos?
    ensures Below(ans.p, r.states[k].known)
  {
    if ByFrontier(ByWorkerOf(r.states[k]), owing, f) {
      RunInv(r, i);
      KnownGrows(r, i, k);
      FrontierIsNoted(r.states[i].sent, f);
      Preorder(f.value, f.value, f.value);
    } else {
      RunInv(r, k);
      MinimumBelowKnown(r.states[k], owing, f, ans);
    }
  }

  /** Never, while no position of the time of the read, a marker's included, is at
      or beyond what is still to come. */
  lemma ConfirmedCoversNothingLater(r: Run, i: nat, j: nat, k: nat, f: Option<Position>, owing: set<string>,
                                    ans: Answer, d: Position)
    requires r.Valid() && Read(r, i, j, k, f, owing, ans) && ans.Pos?
    requires forall q :: q in r.states[k].known ==> !Holds(q, d)
    ensures !Holds(ans.p, d)
  {
    AnswerBelowKnown(r, i, j, k, f, owing, ans);
    var q :| q in r.states[k].known && Holds(q, ans.p);
    if Holds(ans.p, d) { HoldsTransitive(q, ans.p, d); }
  }

  /** Why the frontier is read first: every batch sent by then, so every batch whose
      position it may name, is durable, or its worker is seen owing, or the batch
      left the index early. */
  lemma FrontierNamesNothingMissed(r: Run, i: nat, j: nat, owing: set<string>, w: string, at: nat)
    requires r.Valid() && Stays(r, i, j, w) && OwingIs(r.states[j], owing)
    requires at < |r.states[i].workers[w].log| && r.states[i].workers[w].log[at].data.Some?
    ensures w in r.states[j].workers
    ensures var e, y := r.states[i].workers[w].log[at], r.states[j].workers[w];
      at < |y.log| && y.log[at] == e && (at < y.durable || w in owing || LeftEarly(y, e))
  {
    LogGrows(r, i, j, w);
    RunInv(r, j);
    var e, y := r.states[i].workers[w].log[at], r.states[j].workers[w];
    assert y.log[at] == e && y.All()[at] == e;
    if at >= y.durable && !LeftEarly(y, e) {
      assert y.Uncommitted()[at - y.durable] == e;
      OwedIsOwing(r.states[j], w, e);
    }
  }
}
