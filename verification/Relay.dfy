/** What reaches a worker's queue when the snapshot relays drive the gate: the
    bracket each window draws with its rows and its Closes marker. */
module Queues {
  import opened Text
  import opened Gate
  import opened GateRuns

  /** One entry of an owner's queue: a window's snapshot rows, a live batch
      tagged for a window, an untagged live batch, a window's Closes marker. */
  datatype Msg<T> = Rows(id: nat) | Tagged(id: nat, x: T) | Plain(x: T) | Closes(id: nat)

  datatype Bracket = Shut | In(id: nat)

  /** The window a queue is inside of after its last entry. */
  function BracketOf<T>(q: seq<Msg<T>>): Bracket {
    if q == [] then Shut
    else
      match q[|q| - 1]
      case Rows(id) => In(id)
      case Closes(_) => Shut
      case _ => BracketOf(q[..|q| - 1])
  }

  /** Rows open a window nobody is in, tagged batches and the Closes marker name
      the window the queue is in. */
  predicate Nested<T>(q: seq<Msg<T>>) {
    q == [] ||
    (&& Nested(q[..|q| - 1])
     && match q[|q| - 1]
        case Rows(_) => BracketOf(q[..|q| - 1]) == Shut
        case Tagged(id, _) => BracketOf(q[..|q| - 1]) == In(id)
        case Closes(id) => BracketOf(q[..|q| - 1]) == In(id)
        case Plain(_) => true)
  }

  lemma Push<T>(q: seq<Msg<T>>, m: Msg<T>)
    ensures BracketOf(q + [m]) == match m { case Rows(id) => In(id) case Closes(_) => Shut case _ => BracketOf(q) }
    ensures Nested(q + [m]) <==> Nested(q) && match m {
      case Rows(_) => BracketOf(q) == Shut
      case Tagged(id, _) => BracketOf(q) == In(id)
      case Closes(id) => BracketOf(q) == In(id)
      case Plain(_) => true }
  {
    assert (q + [m])[..|q|] == q;
  }

  /** In a nested queue a tagged batch comes after its window's rows, with no
      bracket of any window between them. */
  lemma {:induction false} TaggedAfterRows<T>(q: seq<Msg<T>>, i: nat) returns (j: nat)
    requires Nested(q) && i < |q| && q[i].Tagged?
    ensures j < i && q[j] == Rows(q[i].id)
    ensures forall m :: j < m < i ==> !q[m].Rows? && !q[m].Closes?
    decreases |q|
  {
    if i < |q| - 1 {
      j := TaggedAfterRows(q[..|q| - 1], i);
    } else {
      j := BracketOpens(q[..i], q[i].id);
    }
  }

  lemma {:induction false} BracketOpens<T>(q: seq<Msg<T>>, id: nat) returns (j: nat)
    requires BracketOf(q) == In(id)
    ensures j < |q| && q[j] == Rows(id)
    ensures forall m :: j < m < |q| ==> !q[m].Rows? && !q[m].Closes?
    decreases |q|
  {
    if q[|q| - 1].Rows? {
      j := |q| - 1;
    } else {
      j := BracketOpens(q[..|q| - 1], id);
    }
  }

  /** In a nested queue the first bracket after a tagged batch, when there is
      one, is its own window's Closes marker. */
  lemma {:induction false} ClosesAfterTagged<T>(q: seq<Msg<T>>, i: nat, k: nat)
    requires Nested(q) && i < k < |q| && q[i].Tagged?
    requires q[k].Rows? || q[k].Closes?
    requires forall m :: i < m < k ==> !q[m].Rows? && !q[m].Closes?
    ensures q[k] == Closes(q[i].id)
    decreases |q|
  {
    if k < |q| - 1 {
      ClosesAfterTagged(q[..|q| - 1], i, k);
    } else {
      StillInside(q[..k], i);
    }
  }

  lemma {:induction false} StillInside<T>(q: seq<Msg<T>>, i: nat)
    requires Nested(q) && i < |q| && q[i].Tagged?
    requires forall m :: i < m < |q| ==> !q[m].Rows? && !q[m].Closes?
    ensures BracketOf(q) == In(q[i].id)
    decreases |q|
  {
    if i < |q| - 1 {
      StillInside(q[..|q| - 1], i);
    } else {
      assert BracketOf(q) == BracketOf(q[..|q| - 1]);
    }
  }

  /** Entry i lies strictly inside the bracket of its own window: its rows come
      before it and its Closes marker is the next bracket after it, if any. */
  ghost predicate Enclosed<T>(q: seq<Msg<T>>, i: nat)
    requires i < |q| && q[i].Tagged?
  {
    && (exists j :: 0 <= j < i && q[j] == Rows(q[i].id) && Quiet(q, j, i))
    && (forall k :: i < k < |q| && (q[k].Rows? || q[k].Closes?) && Quiet(q, i, k) ==> q[k] == Closes(q[i].id))
  }

  /** No bracket of any window strictly between i and k. */
  ghost predicate Quiet<T>(q: seq<Msg<T>>, i: nat, k: nat) {
    forall m :: i < m < k < |q| ==> !q[m].Rows? && !q[m].Closes?
  }

  lemma NestedEncloses<T>(q: seq<Msg<T>>, i: nat)
    requires Nested(q) && i < |q| && q[i].Tagged?
    ensures Enclosed(q, i)
  {
    var j := TaggedAfterRows(q, i);
    assert Quiet(q, j, i);
    forall k | i < k < |q| && (q[k].Rows? || q[k].Closes?) && Quiet(q, i, k)
      ensures q[k] == Closes(q[i].id)
    {
      ClosesAfterTagged(q, i, k);
    }
  }

  /** The batch a step hands to the queues of `table`'s owners, if any. */
  function Handed<T>(s: Sys<T>, a: Action<T>, table: string): Option<Msg<T>> {
    if a.Send? && s.lock.Sending? && s.lock.items != [] && s.lock.w.target == table then
      Some(if s.lock.tag.InWindow? then Tagged(s.lock.tag.id, s.lock.items[0]) else Plain(s.lock.items[0]))
    else if a.Route? && s.prod.Routing? && s.prod.t == table then Some(Plain(s.prod.x))
    else None
  }

  /** A batch goes to the queues of the owners its rows hash to. */
  function Fan<T>(qs: seq<seq<Msg<T>>>, route: T -> set<nat>, m: Option<Msg<T>>): seq<seq<Msg<T>>> {
    match m
    case Some(Tagged(_, x)) => seq(|qs|, p requires 0 <= p < |qs| => if p in route(x) then qs[p] + [m.value] else qs[p])
    case Some(Plain(x)) => seq(|qs|, p requires 0 <= p < |qs| => if p in route(x) then qs[p] + [m.value] else qs[p])
    case _ => qs
  }

  // ----------------------------------------- which batches a queue holds, in order

  /** A live batch on a queue, with the window it is tagged for, if any. */
  datatype Arrival<T> = Arrival(x: T, window: Option<nat>)

  /** The live batches of a queue, in order: everything but rows and markers. */
  function LiveOf<T>(q: seq<Msg<T>>): seq<Arrival<T>> {
    if q == [] then []
    else
      LiveOf(q[..|q| - 1]) +
      match q[|q| - 1]
      case Tagged(id, x) => [Arrival(x, Some(id))]
      case Plain(x) => [Arrival(x, None)]
      case _ => []
  }

  /** What was delivered for a table, as owner p is to see it: the items that hash to
      it, each with the window it was delivered for, if any. */
  function Shared<T>(out: seq<Sent<T>>, route: T -> set<nat>, p: nat): seq<Arrival<T>> {
    if out == [] then []
    else
      var last := out[|out| - 1];
      Shared(out[..|out| - 1], route, p) +
      if p in route(last.item) then [Arrival(last.item, WindowOf(last.tag))] else []
  }

  function WindowOf(tag: Tag): Option<nat> { if tag.InWindow? then Some(tag.id) else None }

  lemma LiveOfMore<T>(q: seq<Msg<T>>, m: Msg<T>)
    ensures LiveOf(q + [m]) == LiveOf(q) + match m {
      case Tagged(id, x) => [Arrival(x, Some(id))] case Plain(x) => [Arrival(x, None)] case _ => [] }
  {
    assert (q + [m])[..|q|] == q;
  }

  lemma SharedMore<T>(out: seq<Sent<T>>, d: Sent<T>, route: T -> set<nat>, p: nat)
    ensures Shared(out + [d], route, p) ==
      Shared(out, route, p) + if p in route(d.item) then [Arrival(d.item, WindowOf(d.tag))] else []
  {
    assert (out + [d])[..|out|] == out;
  }

  /** A step delivers for a table exactly what it hands to its queues. */
  lemma HandedIsDelivered<T>(cfg: Config<T>, s: Sys<T>, a: Action<T>, s': Sys<T>, table: string)
    requires Step(cfg, s, a, s')
    ensures match Handed(s, a, table)
      case None => At(s'.out, table) == At(s.out, table)
      case Some(Tagged(id, x)) => At(s'.out, table) == At(s.out, table) + [Sent(x, InWindow(id))]
      case Some(Plain(x)) => exists tag: Tag :: !tag.InWindow? && At(s'.out, table) == At(s.out, table) + [Sent(x, tag)]
      case Some(_) => false
  {
    if a.Send? && s.lock.w.target == table && !s.lock.tag.InWindow? {
      assert At(s'.out, table) == At(s.out, table) + [Sent(s.lock.items[0], s.lock.tag)];
    } else if a.Route? && s.prod.t == table {
      assert At(s'.out, table) == At(s.out, table) + [Sent(s.prod.x, Live)];
    } else if !a.Send? && !a.Route? {
      assert s'.out == s.out;
    }
  }

  predicate Takes<T>(a: Action<T>) { a.TakeDrain? || a.TakeFlush? || a.TakeClose? }

  lemma LockStays<T>(cfg: Config<T>, s: Sys<T>, a: Action<T>, s': Sys<T>)
    requires !UsesLock(a) && Step(cfg, s, a, s')
    ensures s'.lock == s.lock
  {
  }

  /** Whose the lock is after such a step, by what it was before. */
  ghost predicate Passes<T>(l: Lock<T>, a: Action<T>, l': Lock<T>) {
    match a
    case LockDrain => l.Free? && l'.DrainEntry?
    case LockFlush(w, id) => l.Free? && l' == FlushEntry(w, id)
    case LockClose(w) => l.Free? && l' == CloseEntry(w)
    case Borrow => l.Free? && l'.Borrowed?
    case Return => l.Borrowed? && l'.Free?
    case TakeDrain => l.DrainEntry? && (l'.Free? || (l'.Sending? && l'.who.Drainer?))
    case TakeFlush => l.FlushEntry? && (l'.Free? || (l'.Sending? && l'.who.Flusher? && l'.w == l.w))
    case TakeClose => l.CloseEntry? && (l'.Free? || (l'.Sending? && l'.who.Closer? && l'.w == l.w))
    case Send => l.Sending? && l'.Sending? && l'.who == l.who && l'.w == l.w && l'.tag == l.tag
    case Unlock => l.Sending? && (l'.Free? || (l.who.Closer? && l' == CloseEntry(l.w)))
    case _ => true
  }

  lemma LockLeaves<T>(cfg: Config<T>, s: Sys<T>, a: Action<T>, s': Sys<T>)
    requires UsesLock(a) && Step(cfg, s, a, s')
    ensures Passes(s.lock, a, s'.lock)
  {
  }

  /** An early drain leaves the windows and their marks as they are, and sends what
      it took tagged for the window as it is marked. */
  ghost predicate DrainedTo<T>(s: Sys<T>, s': Sys<T>) {
    && s'.g.on == s.g.on && s'.g.ready == s.g.ready
    && (|| s'.lock.Free?
        || (&& s'.lock.Sending? && s'.lock.w in s.g.ready
            && s'.lock.tag == InWindow(s.g.ready[s'.lock.w])))
  }

  lemma DrainLeaves<T>(cfg: Config<T>, s: Sys<T>, s': Sys<T>)
    requires Step(cfg, s, TakeDrain, s')
    ensures DrainedTo(s, s')
  {
  }

  predicate Marks<T>(a: Action<T>) { a.Open? || a.MarkReady? || a.ClearReady? }

  /** Anything but the relay: the producer and its early drains, and every other
      table's snapshot. `mine` says the relay holds the flush lock. */
  predicate EnvMay<T>(table: string, mine: bool, a: Action<T>) {
    match a
    case Open(w) => w.target != table
    case MarkReady(w, _) => w.target != table
    case ClearReady(w) => w.target != table
    case LockFlush(w, _) => w.target != table
    case LockClose(w) => w.target != table
    case TakeFlush => !mine
    case TakeClose => !mine
    case Send => !mine
    case Unlock => !mine
    case Return => !mine
    case _ => true
  }
}

/** The fan-out relay (internal/coordinator/snapshot_hash.go): the coordinator
    reads each chunk and queues its rows to every owner, while live batches are
    held by the gate and drained early at any moment. */
module FanoutRelay {
  import opened Text
  import opened Gate
  import opened GateRuns
  import opened Queues

  /** One table's snapshot: its gate bounds, its number of owners, and which
      owners a live batch's rows hash to. */
  datatype Setup<!T> = Setup(cfg: Config<T>, table: string, owners: nat, route: T -> set<nat>) {
    function Win(): Window { Window(table, 0) }
  }

  /** Where the relay stands: GateOn, AddWindowRows, GateFlush and Release of
      one chunk, or Close of the whole pass. */
  datatype Pc =
    | Between
    | GateOnLocked(id: nat) | GateOnOpened(id: nat)
    | RowsTo(id: nat, p: nat)
    | Catching(id: nat)
    | Flushing(id: nat) | FlushDone(id: nat)
    | ReadyAgain(id: nat)
    | Ending(id: nat) | Ended(id: nat)
    | ClosesTo(id: nat, p: nat)
    | Sealing

  datatype Relay<T> = Relay(sys: Sys<T>, pc: Pc, qs: seq<seq<Msg<T>>>)

  datatype Move<T> =
    | Env(a: Action<T>)
    | GateOn(id: nat) | OpenGate | GateOnReturn
    | QueueRows | RowsReady
    | FlushLock | FlushTake | FlushSend | FlushUnlock
    | ReadyOnce
    | EndLock | EndClear | EndReturn
    | QueueCloses | ChunkDone
    | SealLock | SealTake | SealSend | SealUnlock

  /** The relay itself holds the flush lock. */
  predicate Mine(pc: Pc) {
    pc.GateOnLocked? || pc.GateOnOpened? || pc.Flushing? || pc.Ending? || pc.Ended? || pc.Sealing?
  }

  /** A gate step taken as `a`, its batch queued, and the relay moved to pc. */
  ghost predicate Via<T>(e: Setup<T>, r: Relay<T>, a: Action<T>, pc: Pc, r': Relay<T>) {
    && Step(e.cfg, r.sys, a, r'.sys)
    && r'.qs == Fan(r.qs, e.route, Handed(r.sys, a, e.table))
    && r'.pc == pc
  }

  ghost predicate RStep<T>(e: Setup<T>, r: Relay<T>, m: Move<T>, r': Relay<T>) {
    match m
    case Env(a) => EnvMay(e.table, Mine(r.pc), a) && Via(e, r, a, r.pc, r')
    case GateOn(id) => r.pc.Between? && Via(e, r, Borrow, GateOnLocked(id), r')
    case OpenGate => r.pc.GateOnLocked? && Via(e, r, Open(e.Win()), GateOnOpened(r.pc.id), r')
    case GateOnReturn => r.pc.GateOnOpened? && Via(e, r, Return, RowsTo(r.pc.id, 0), r')
    case QueueRows =>
      && r.pc.RowsTo? && r.pc.p < e.owners && r.pc.p < |r.qs|
      && r' == r.(qs := r.qs[r.pc.p := r.qs[r.pc.p] + [Rows(r.pc.id)]], pc := RowsTo(r.pc.id, r.pc.p + 1))
    case RowsReady =>
      && r.pc.RowsTo? && r.pc.p == e.owners
      && Via(e, r, MarkReady(e.Win(), r.pc.id), Catching(r.pc.id), r')
    case FlushLock => r.pc.Catching? && Via(e, r, LockFlush(e.Win(), r.pc.id), Flushing(r.pc.id), r')
    case FlushTake =>
      && r.pc.Flushing? && r.sys.lock.FlushEntry?
      && Via(e, r, TakeFlush, if r'.sys.lock.Free? then FlushDone(r.pc.id) else r.pc, r')
    case FlushSend => r.pc.Flushing? && Via(e, r, Send, r.pc, r')
    case FlushUnlock => r.pc.Flushing? && Via(e, r, Unlock, FlushDone(r.pc.id), r')
    case ReadyOnce => r.pc.FlushDone? && Via(e, r, MarkReady(e.Win(), r.pc.id), ReadyAgain(r.pc.id), r')
    case EndLock => r.pc.ReadyAgain? && Via(e, r, Borrow, Ending(r.pc.id), r')
    case EndClear => r.pc.Ending? && Via(e, r, ClearReady(e.Win()), Ended(r.pc.id), r')
    case EndReturn => r.pc.Ended? && Via(e, r, Return, ClosesTo(r.pc.id, 0), r')
    case QueueCloses =>
      && r.pc.ClosesTo? && r.pc.p < e.owners && r.pc.p < |r.qs|
      && r' == r.(qs := r.qs[r.pc.p := r.qs[r.pc.p] + [Closes(r.pc.id)]], pc := ClosesTo(r.pc.id, r.pc.p + 1))
    case ChunkDone => r.pc.ClosesTo? && r.pc.p == e.owners && r' == r.(pc := Between)
    case SealLock => r.pc.Between? && Via(e, r, LockClose(e.Win()), Sealing, r')
    case SealTake =>
      && r.pc.Sealing? && r.sys.lock.CloseEntry?
      && Via(e, r, TakeClose, if r'.sys.lock.Free? then Between else Sealing, r')
    case SealSend => r.pc.Sealing? && Via(e, r, Send, Sealing, r')
    case SealUnlock => r.pc.Sealing? && Via(e, r, Unlock, Sealing, r')
  }

  /** Every relay step is a gate step or leaves the gate alone, so what GateRuns
      proves of every run holds here too. */
  lemma RefinesGate<T(!new)>(e: Setup<T>, r: Relay<T>, m: Move<T>, r': Relay<T>)
    requires RStep(e, r, m, r')
    ensures r'.sys == r.sys || Next(e.cfg, r.sys, r'.sys)
  {
  }

  // ------------------------------------------------------------- invariants

  /** The window a tagged batch may name while the relay stands at pc. */
  function Allowed(pc: Pc): Option<nat> {
    match pc
    case Catching(id) => Some(id)
    case Flushing(id) => Some(id)
    case FlushDone(id) => Some(id)
    case ReadyAgain(id) => Some(id)
    case Ending(id) => Some(id)
    case _ => None
  }

  /** The bracket owner p's queue is in while the relay stands at pc. */
  function Expected(pc: Pc, p: nat): Bracket {
    match pc
    case RowsTo(id, q) => if p < q then In(id) else Shut
    case ClosesTo(id, q) => if p < q then Shut else In(id)
    case Ended(id) => In(id)
    case _ => if Allowed(pc).Some? then In(Allowed(pc).value) else Shut
  }

  ghost predicate LockRole<T>(e: Setup<T>, pc: Pc, l: Lock<T>) {
    && (pc.GateOnLocked? || pc.GateOnOpened? || pc.Ending? || pc.Ended? ==> l.Borrowed?)
    && (pc.Flushing? ==>
          || l == FlushEntry(e.Win(), pc.id)
          || (l.Sending? && l.who.Flusher? && l.w == e.Win() && l.tag == InWindow(pc.id)))
    && (pc.Sealing? ==>
          || l == CloseEntry(e.Win())
          || (l.Sending? && l.who.Closer? && l.w == e.Win() && l.tag == Trailing))
    && (!Mine(pc) && (l.FlushEntry? || l.CloseEntry? || (l.Sending? && !l.who.Drainer?)) ==> l.w.target != e.table)
  }

  ghost predicate TagsAllowed<T>(e: Setup<T>, pc: Pc, s: Sys<T>) {
    && (forall k :: k in s.g.on && k.target == e.table ==> k == e.Win())
    && (e.Win() in s.g.ready ==> Allowed(pc) == Some(s.g.ready[e.Win()]))
    && (s.lock.Sending? && s.lock.w.target == e.table && s.lock.tag.InWindow? ==>
          Allowed(pc) == Some(s.lock.tag.id))
  }

  ghost predicate QueuesFit<T>(e: Setup<T>, pc: Pc, qs: seq<seq<Msg<T>>>) {
    && |qs| == e.owners
    && forall p :: 0 <= p < |qs| ==> Nested(qs[p]) && BracketOf(qs[p]) == Expected(pc, p)
  }

  ghost predicate RInv<T>(e: Setup<T>, r: Relay<T>) {
    Inv(e.cfg, r.sys) && LockRole(e, r.pc, r.sys.lock) && TagsAllowed(e, r.pc, r.sys) && QueuesFit(e, r.pc, r.qs)
  }

  // --------------------------------------------------- every step keeps RInv

  /** A handed batch fits the queues when a tagged one names the allowed window. */
  lemma FanFits<T>(e: Setup<T>, pc: Pc, qs: seq<seq<Msg<T>>>, m: Option<Msg<T>>)
    requires QueuesFit(e, pc, qs)
    requires m.Some? && m.value.Tagged? ==> Allowed(pc) == Some(m.value.id)
    ensures QueuesFit(e, pc, Fan(qs, e.route, m))
  {
    if m.Some? {
      forall p | 0 <= p < |qs|
        ensures Nested(Fan(qs, e.route, m)[p]) && BracketOf(Fan(qs, e.route, m)[p]) == Expected(pc, p)
      {
        Push(qs[p], m.value);
      }
    }
  }

  lemma HandedFits<T>(e: Setup<T>, r: Relay<T>, a: Action<T>, r': Relay<T>)
    requires TagsAllowed(e, r.pc, r.sys) && QueuesFit(e, r.pc, r.qs) && Via(e, r, a, r.pc, r')
    ensures QueuesFit(e, r'.pc, r'.qs)
  {
    FanFits(e, r.pc, r.qs, Handed(r.sys, a, e.table));
  }

  lemma QueuesKept<T>(e: Setup<T>, r: Relay<T>, m: Move<T>, r': Relay<T>)
    requires TagsAllowed(e, r.pc, r.sys) && QueuesFit(e, r.pc, r.qs) && RStep(e, r, m, r')
    ensures QueuesFit(e, r'.pc, r'.qs)
  {
    match m
    case QueueRows => MarkerFits(e, r.pc, r'.pc, r.qs, r.pc.p, Rows(r.pc.id));
    case QueueCloses => MarkerFits(e, r.pc, r'.pc, r.qs, r.pc.p, Closes(r.pc.id));
    case Env(a) => HandedFits(e, r, a, r');
    case FlushSend => HandedFits(e, r, Send, r');
    case SealSend => HandedFits(e, r, Send, r');
    case _ =>
      NothingQueued(e, r, m, r');
      SameQueues(e, r.pc, r'.pc, r.qs);
  }

  /** A marker on owner p's queue moves the relay on to the next owner. */
  lemma MarkerFits<T>(e: Setup<T>, pc: Pc, pc': Pc, qs: seq<seq<Msg<T>>>, p: nat, m: Msg<T>)
    requires QueuesFit(e, pc, qs) && p < |qs|
    requires (m.Rows? && pc == RowsTo(m.id, p) && pc' == RowsTo(m.id, p + 1))
          || (m.Closes? && pc == ClosesTo(m.id, p) && pc' == ClosesTo(m.id, p + 1))
    ensures QueuesFit(e, pc', qs[p := qs[p] + [m]])
  {
    Push(qs[p], m);
    var out := qs[p := qs[p] + [m]];
    forall o | 0 <= o < |out| ensures Nested(out[o]) && BracketOf(out[o]) == Expected(pc', o) {
      if o != p { assert out[o] == qs[o]; }
    }
  }

  /** Moving on without queueing anything, to a place that expects the same. */
  lemma SameQueues<T>(e: Setup<T>, pc: Pc, pc': Pc, qs: seq<seq<Msg<T>>>)
    requires QueuesFit(e, pc, qs) && forall p :: 0 <= p < e.owners ==> Expected(pc', p) == Expected(pc, p)
    ensures QueuesFit(e, pc', qs)
  {
  }

  /** The gate steps the relay takes itself queue nothing, except a send. */
  lemma NothingQueued<T>(e: Setup<T>, r: Relay<T>, m: Move<T>, r': Relay<T>)
    requires !m.QueueRows? && !m.QueueCloses? && !m.Env? && !m.FlushSend? && !m.SealSend? && RStep(e, r, m, r')
    ensures r'.qs == r.qs && forall p :: 0 <= p < e.owners ==> Expected(r'.pc, p) == Expected(r.pc, p)
  {
  }

  /** What the relay relies on: who holds the flush lock for it, and which
      window a tagged batch may name. */
  ghost predicate Control<T>(e: Setup<T>, pc: Pc, s: Sys<T>) {
    GateShape(s.g) && LockRole(e, pc, s.lock) && TagsAllowed(e, pc, s)
  }

  lemma EnvRoles<T>(e: Setup<T>, pc: Pc, s: Sys<T>, a: Action<T>, s': Sys<T>)
    requires LockRole(e, pc, s.lock) && EnvMay(e.table, Mine(pc), a) && Step(e.cfg, s, a, s')
    ensures LockRole(e, pc, s'.lock)
  {
    if UsesLock(a) { LockLeaves(e.cfg, s, a, s'); } else { LockStays(e.cfg, s, a, s'); }
  }

  lemma EnvTags<T>(e: Setup<T>, pc: Pc, s: Sys<T>, a: Action<T>, s': Sys<T>)
    requires Control(e, pc, s) && EnvMay(e.table, Mine(pc), a) && Step(e.cfg, s, a, s')
    ensures TagsAllowed(e, pc, s')
  {
    if a.TakeDrain? {
      DrainLeaves(e.cfg, s, s');
      EnvDrains(e, pc, s, s');
    } else if Takes(a) {
      EnvTakes(e, pc, s, a, s');
    } else if Marks(a) {
      EnvMarks(e, pc, s, a, s');
    } else {
      EnvRest(e, pc, s, a, s');
    }
  }

  lemma EnvDrains<T>(e: Setup<T>, pc: Pc, s: Sys<T>, s': Sys<T>)
    requires Control(e, pc, s) && DrainedTo(s, s')
    ensures TagsAllowed(e, pc, s')
  {
  }

  lemma EnvTakes<T>(e: Setup<T>, pc: Pc, s: Sys<T>, a: Action<T>, s': Sys<T>)
    requires (a.TakeFlush? || a.TakeClose?) && Control(e, pc, s)
    requires EnvMay(e.table, Mine(pc), a) && Step(e.cfg, s, a, s')
    ensures TagsAllowed(e, pc, s')
  {
  }

  lemma EnvMarks<T>(e: Setup<T>, pc: Pc, s: Sys<T>, a: Action<T>, s': Sys<T>)
    requires Marks(a) && Control(e, pc, s) && EnvMay(e.table, Mine(pc), a) && Step(e.cfg, s, a, s')
    ensures TagsAllowed(e, pc, s')
  {
  }

  lemma EnvRest<T>(e: Setup<T>, pc: Pc, s: Sys<T>, a: Action<T>, s': Sys<T>)
    requires !Takes(a) && !Marks(a) && Control(e, pc, s) && EnvMay(e.table, Mine(pc), a) && Step(e.cfg, s, a, s')
    ensures TagsAllowed(e, pc, s')
  {
  }

  lemma GateOnKeeps<T>(e: Setup<T>, r: Relay<T>, id: nat, r': Relay<T>)
    requires Control(e, r.pc, r.sys) && r.pc.Between? && Via(e, r, Borrow, GateOnLocked(id), r')
    ensures LockRole(e, r'.pc, r'.sys.lock) && TagsAllowed(e, r'.pc, r'.sys)
  {
  }

  lemma OpenGateKeeps<T>(e: Setup<T>, r: Relay<T>, r': Relay<T>)
    requires Control(e, r.pc, r.sys) && r.pc.GateOnLocked? && Via(e, r, Open(e.Win()), GateOnOpened(r.pc.id), r')
    ensures LockRole(e, r'.pc, r'.sys.lock) && TagsAllowed(e, r'.pc, r'.sys)
  {
  }

  lemma GateOnReturnKeeps<T>(e: Setup<T>, r: Relay<T>, r': Relay<T>)
    requires Control(e, r.pc, r.sys) && r.pc.GateOnOpened? && Via(e, r, Return, RowsTo(r.pc.id, 0), r')
    ensures LockRole(e, r'.pc, r'.sys.lock) && TagsAllowed(e, r'.pc, r'.sys)
  {
  }

  lemma RowsKeep<T>(e: Setup<T>, r: Relay<T>, m: Move<T>, r': Relay<T>)
    requires m.QueueRows? || m.RowsReady?
    requires Control(e, r.pc, r.sys) && RStep(e, r, m, r')
    ensures LockRole(e, r'.pc, r'.sys.lock) && TagsAllowed(e, r'.pc, r'.sys)
  {
  }

  lemma FlushLockKeeps<T>(e: Setup<T>, r: Relay<T>, r': Relay<T>)
    requires Control(e, r.pc, r.sys) && r.pc.Catching? && Via(e, r, LockFlush(e.Win(), r.pc.id), Flushing(r.pc.id), r')
    ensures LockRole(e, r'.pc, r'.sys.lock) && TagsAllowed(e, r'.pc, r'.sys)
  {
  }

  lemma ReadyOnceKeeps<T>(e: Setup<T>, r: Relay<T>, r': Relay<T>)
    requires Control(e, r.pc, r.sys) && r.pc.FlushDone?
    requires Via(e, r, MarkReady(e.Win(), r.pc.id), ReadyAgain(r.pc.id), r')
    ensures LockRole(e, r'.pc, r'.sys.lock) && TagsAllowed(e, r'.pc, r'.sys)
  {
  }

  lemma FlushSendKeeps<T>(e: Setup<T>, r: Relay<T>, r': Relay<T>)
    requires Control(e, r.pc, r.sys) && r.pc.Flushing? && Via(e, r, Send, r.pc, r')
    ensures LockRole(e, r'.pc, r'.sys.lock) && TagsAllowed(e, r'.pc, r'.sys)
  {
  }

  lemma FlushUnlockKeeps<T>(e: Setup<T>, r: Relay<T>, r': Relay<T>)
    requires Control(e, r.pc, r.sys) && r.pc.Flushing? && Via(e, r, Unlock, FlushDone(r.pc.id), r')
    ensures LockRole(e, r'.pc, r'.sys.lock) && TagsAllowed(e, r'.pc, r'.sys)
  {
  }

  lemma FlushTakeKeeps<T>(e: Setup<T>, r: Relay<T>, r': Relay<T>)
    requires Control(e, r.pc, r.sys) && r.pc.Flushing?
    requires Via(e, r, TakeFlush, if r'.sys.lock.Free? then FlushDone(r.pc.id) else r.pc, r')
    ensures LockRole(e, r'.pc, r'.sys.lock) && TagsAllowed(e, r'.pc, r'.sys)
  {
  }

  lemma EndLockKeeps<T>(e: Setup<T>, r: Relay<T>, r': Relay<T>)
    requires Control(e, r.pc, r.sys) && r.pc.ReadyAgain? && Via(e, r, Borrow, Ending(r.pc.id), r')
    ensures LockRole(e, r'.pc, r'.sys.lock) && TagsAllowed(e, r'.pc, r'.sys)
  {
  }

  lemma EndReturnKeeps<T>(e: Setup<T>, r: Relay<T>, r': Relay<T>)
    requires Control(e, r.pc, r.sys) && r.pc.Ended? && Via(e, r, Return, ClosesTo(r.pc.id, 0), r')
    ensures LockRole(e, r'.pc, r'.sys.lock) && TagsAllowed(e, r'.pc, r'.sys)
  {
  }

  lemma ClosesKeep<T>(e: Setup<T>, r: Relay<T>, m: Move<T>, r': Relay<T>)
    requires m.QueueCloses? || m.ChunkDone?
    requires Control(e, r.pc, r.sys) && RStep(e, r, m, r')
    ensures LockRole(e, r'.pc, r'.sys.lock) && TagsAllowed(e, r'.pc, r'.sys)
  {
  }

  lemma EndClearKeeps<T>(e: Setup<T>, r: Relay<T>, r': Relay<T>)
    requires Control(e, r.pc, r.sys) && r.pc.Ending? && Via(e, r, ClearReady(e.Win()), Ended(r.pc.id), r')
    ensures LockRole(e, r'.pc, r'.sys.lock) && TagsAllowed(e, r'.pc, r'.sys)
  {
  }

  lemma SealTakeKeeps<T>(e: Setup<T>, r: Relay<T>, r': Relay<T>)
    requires Control(e, r.pc, r.sys) && r.pc.Sealing?
    requires Via(e, r, TakeClose, if r'.sys.lock.Free? then Between else Sealing, r')
    ensures LockRole(e, r'.pc, r'.sys.lock) && TagsAllowed(e, r'.pc, r'.sys)
  {
    assert r'.sys.g == CloseRound(r.sys.g, e.Win());
  }

  lemma SealLockKeeps<T>(e: Setup<T>, r: Relay<T>, r': Relay<T>)
    requires Control(e, r.pc, r.sys) && r.pc.Between? && Via(e, r, LockClose(e.Win()), Sealing, r')
    ensures LockRole(e, r'.pc, r'.sys.lock) && TagsAllowed(e, r'.pc, r'.sys)
  {
  }

  lemma SealSendKeeps<T>(e: Setup<T>, r: Relay<T>, r': Relay<T>)
    requires Control(e, r.pc, r.sys) && r.pc.Sealing? && Via(e, r, Send, Sealing, r')
    ensures LockRole(e, r'.pc, r'.sys.lock) && TagsAllowed(e, r'.pc, r'.sys)
  {
  }

  lemma SealUnlockKeeps<T>(e: Setup<T>, r: Relay<T>, r': Relay<T>)
    requires Control(e, r.pc, r.sys) && r.pc.Sealing? && Via(e, r, Unlock, Sealing, r')
    ensures LockRole(e, r'.pc, r'.sys.lock) && TagsAllowed(e, r'.pc, r'.sys)
  {
  }

  lemma ControlKept<T>(e: Setup<T>, r: Relay<T>, m: Move<T>, r': Relay<T>)
    requires Control(e, r.pc, r.sys) && RStep(e, r, m, r')
    ensures LockRole(e, r'.pc, r'.sys.lock) && TagsAllowed(e, r'.pc, r'.sys)
  {
    match m
    case Env(a) =>
      EnvRoles(e, r.pc, r.sys, a, r'.sys);
      EnvTags(e, r.pc, r.sys, a, r'.sys);
    case GateOn(id) => GateOnKeeps(e, r, id, r');
    case OpenGate => OpenGateKeeps(e, r, r');
    case GateOnReturn => GateOnReturnKeeps(e, r, r');
    case QueueRows => RowsKeep(e, r, m, r');
    case RowsReady => RowsKeep(e, r, m, r');
    case FlushLock => FlushLockKeeps(e, r, r');
    case FlushTake => FlushTakeKeeps(e, r, r');
    case FlushSend => FlushSendKeeps(e, r, r');
    case FlushUnlock => FlushUnlockKeeps(e, r, r');
    case ReadyOnce => ReadyOnceKeeps(e, r, r');
    case EndLock => EndLockKeeps(e, r, r');
    case EndClear => EndClearKeeps(e, r, r');
    case EndReturn => EndReturnKeeps(e, r, r');
    case QueueCloses => ClosesKeep(e, r, m, r');
    case ChunkDone => ClosesKeep(e, r, m, r');
    case SealLock => SealLockKeeps(e, r, r');
    case SealTake => SealTakeKeeps(e, r, r');
    case SealSend => SealSendKeeps(e, r, r');
    case SealUnlock => SealUnlockKeeps(e, r, r');
  }

  // ------------------------------------------------------------- whole runs

  ghost predicate RNext<T(!new)>(e: Setup<T>, r: Relay<T>, r': Relay<T>) {
    exists m :: RStep(e, r, m, r')
  }

  ghost predicate RRun<T(!new)>(e: Setup<T>, rs: seq<Relay<T>>) {
    && rs != []
    && rs[0] == Relay(Start(), Between, seq(e.owners, p => []))
    && forall i :: 0 <= i < |rs| - 1 ==> RNext(e, rs[i], rs[i + 1])
  }

  lemma {:induction false} RRunInv<T(!new)>(e: Setup<T>, rs: seq<Relay<T>>, i: nat)
    requires RRun(e, rs) && i < |rs|
    ensures RInv(e, rs[i])
    decreases i
  {
    if i > 0 {
      RRunInv(e, rs, i - 1);
      var r, r' := rs[i - 1], rs[i];
      assert RNext(e, r, r');
      var m :| RStep(e, r, m, r');
      RefinesGate(e, r, m, r');
      if r'.sys != r.sys {
        var a :| Step(e.cfg, r.sys, a, r'.sys);
        StepInv(e.cfg, r.sys, a, r'.sys);
      }
      QueuesKept(e, r, m, r');
      ControlKept(e, r, m, r');
    }
  }

  // ----------------------------------------------- which batches each owner gets

  ghost predicate SharesFit<T>(e: Setup<T>, r: Relay<T>) {
    && |r.qs| == e.owners
    && forall p :: 0 <= p < e.owners ==> LiveOf(r.qs[p]) == Shared(At(r.sys.out, e.table), e.route, p)
  }

  lemma FanShares<T>(e: Setup<T>, r: Relay<T>, a: Action<T>, pc: Pc, r': Relay<T>, p: nat)
    requires SharesFit(e, r) && Via(e, r, a, pc, r') && p < e.owners
    ensures |r'.qs| == e.owners && LiveOf(r'.qs[p]) == Shared(At(r'.sys.out, e.table), e.route, p)
  {
    HandedIsDelivered(e.cfg, r.sys, a, r'.sys, e.table);
    var m, out := Handed(r.sys, a, e.table), At(r.sys.out, e.table);
    match m
    case None =>
    case Some(Tagged(id, x)) =>
      LiveOfMore(r.qs[p], m.value);
      SharedMore(out, Sent(x, InWindow(id)), e.route, p);
    case Some(Plain(x)) =>
      var tag: Tag :| !tag.InWindow? && At(r'.sys.out, e.table) == out + [Sent(x, tag)];
      LiveOfMore(r.qs[p], m.value);
      SharedMore(out, Sent(x, tag), e.route, p);
    case Some(_) =>
  }

  lemma ViaShares<T>(e: Setup<T>, r: Relay<T>, a: Action<T>, pc: Pc, r': Relay<T>)
    requires SharesFit(e, r) && Via(e, r, a, pc, r')
    ensures SharesFit(e, r')
  {
    assert |r'.qs| == |r.qs|;
    forall p | 0 <= p < e.owners ensures LiveOf(r'.qs[p]) == Shared(At(r'.sys.out, e.table), e.route, p) {
      FanShares(e, r, a, pc, r', p);
    }
  }

  lemma MarkerShares<T>(e: Setup<T>, r: Relay<T>, r': Relay<T>, p: nat, m: Msg<T>)
    requires SharesFit(e, r) && p < |r.qs| && (m.Rows? || m.Closes?)
    requires r'.sys == r.sys && r'.qs == r.qs[p := r.qs[p] + [m]]
    ensures SharesFit(e, r')
  {
    LiveOfMore(r.qs[p], m);
  }

  /** The gate step a move takes, if it takes one. */
  function GateStep<T>(e: Setup<T>, r: Relay<T>, m: Move<T>): Option<Action<T>> {
    match m
    case Env(a) => Some(a)
    case GateOn(_) => Some(Borrow)
    case OpenGate => Some(Open(e.Win()))
    case GateOnReturn => Some(Return)
    case QueueRows => None
    case RowsReady => if r.pc.RowsTo? then Some(MarkReady(e.Win(), r.pc.id)) else None
    case FlushLock => if r.pc.Catching? then Some(LockFlush(e.Win(), r.pc.id)) else None
    case FlushTake => Some(TakeFlush)
    case FlushSend => Some(Send)
    case FlushUnlock => Some(Unlock)
    case ReadyOnce => if r.pc.FlushDone? then Some(MarkReady(e.Win(), r.pc.id)) else None
    case EndLock => Some(Borrow)
    case EndClear => Some(ClearReady(e.Win()))
    case EndReturn => Some(Return)
    case QueueCloses => None
    case ChunkDone => None
    case SealLock => Some(LockClose(e.Win()))
    case SealTake => Some(TakeClose)
    case SealSend => Some(Send)
    case SealUnlock => Some(Unlock)
  }

  lemma GateStepIs<T>(e: Setup<T>, r: Relay<T>, m: Move<T>, r': Relay<T>)
    requires RStep(e, r, m, r') && !m.QueueRows? && !m.QueueCloses? && !m.ChunkDone?
    ensures GateStep(e, r, m).Some? && Via(e, r, GateStep(e, r, m).value, r'.pc, r')
  {
  }

  lemma SharesKept<T>(e: Setup<T>, r: Relay<T>, m: Move<T>, r': Relay<T>)
    requires SharesFit(e, r) && RStep(e, r, m, r')
    ensures SharesFit(e, r')
  {
    if m.QueueRows? {
      MarkerShares(e, r, r', r.pc.p, Rows(r.pc.id));
    } else if m.QueueCloses? {
      MarkerShares(e, r, r', r.pc.p, Closes(r.pc.id));
    } else if !m.ChunkDone? {
      GateStepIs(e, r, m, r');
      ViaShares(e, r, GateStep(e, r, m).value, r'.pc, r');
    }
  }

  /** In every run, the live batches on owner p's queue, in order, are exactly the
      items delivered for the table that hash to p, each tagged as it was delivered. */
  lemma {:induction false} OwnersGetTheirShares<T(!new)>(e: Setup<T>, rs: seq<Relay<T>>, i: nat)
    requires RRun(e, rs) && i < |rs|
    ensures |rs[i].qs| == e.owners
    ensures forall p :: 0 <= p < e.owners ==>
      LiveOf(rs[i].qs[p]) == Shared(At(rs[i].sys.out, e.table), e.route, p)
    decreases i
  {
    if i > 0 {
      OwnersGetTheirShares(e, rs, i - 1);
      assert RNext(e, rs[i - 1], rs[i - 1 + 1]);
      var m :| RStep(e, rs[i - 1], m, rs[i]);
      SharesKept(e, rs[i - 1], m, rs[i]);
    }
  }

  /** On every owner's queue, in every run of any number of chunks with early
      drains at any moment, a batch tagged for a window sits after that
      window's rows and before its Closes marker, with no other window's rows or
      marker in between. */
  lemma TaggedInsideItsWindow<T(!new)>(e: Setup<T>, rs: seq<Relay<T>>, i: nat, p: nat, j: nat)
    requires RRun(e, rs) && i < |rs| && p < e.owners
    requires p < |rs[i].qs| && j < |rs[i].qs[p]| && rs[i].qs[p][j].Tagged?
    ensures Enclosed(rs[i].qs[p], j)
  {
    RRunInv(e, rs, i);
    NestedEncloses(rs[i].qs[p], j);
  }
}

/** The single-owner path (RunRangePartition in internal/snapshot/range.go and
    closeOneWindow in internal/coordinator/snapshot.go): the worker reads the chunk
    itself, and the coordinator marks its window ready, catches up, flushes the gate
    and queues the Closes marker.

    A window is a worker session's (its attempt) and that session's own number; only
    the number is on the gate's mark, on a tagged batch and on the Closes marker, and
    a session that follows a loss numbers from one again. */
module SingleRelay {
  import opened Text
  import opened Gate
  import opened GateRuns
  import opened Queues

  datatype Setup<!T> = Setup(cfg: Config<T>, win: Window)

  datatype WindowId = WindowId(attempt: nat, num: nat)

  datatype Pc =
    | Outside
    | OpenLocked | Opening
    | Between
    | Marked(id: WindowId)
    | Lost(id: WindowId)
    | Flushing(id: WindowId) | FlushDone(id: WindowId)
    | Sealing

  /** The gate, where the relay stands and the worker's queue; the session the relay
      is in and the last number it marked. Beside these, what the numbers stand for:
      the window of the readiness mark, of the send under way and of each entry of
      the queue, and the windows whose Closes marker was queued. */
  datatype Relay<T> = Relay(
    sys: Sys<T>, pc: Pc, q: seq<Msg<T>>, attempt: nat, last: nat,
    mark: WindowId, tag: WindowId, names: seq<WindowId>, closed: set<WindowId>)

  function Begin<T>(): Relay<T> {
    Relay(Start(), Outside, [], 0, 0, WindowId(0, 0), WindowId(0, 0), [], {})
  }

  datatype Move<T> =
    | Env(a: Action<T>)
    | OpenLock | OpenGate | OpenReturn
    | Mark(num: nat)
    | GiveUp | Redo(attempt: nat)
    | FlushLock | FlushTake | FlushSend | FlushUnlock
    | QueueCloses
    | SealLock | SealTake | SealSend | SealUnlock

  predicate Mine(pc: Pc) { pc.OpenLocked? || pc.Opening? || pc.Flushing? || pc.Sealing? }

  predicate HasId(pc: Pc) { pc.Marked? || pc.Lost? || pc.Flushing? || pc.FlushDone? }

  /** A drain takes for the marked window, a flush for the window it closes. */
  function Tagging<T>(r: Relay<T>, a: Action<T>): WindowId {
    if a.TakeDrain? then r.mark else if a.TakeFlush? && r.pc.Flushing? then r.pc.id else r.tag
  }

  ghost predicate Via<T>(e: Setup<T>, r: Relay<T>, a: Action<T>, pc: Pc, r': Relay<T>) {
    && Step(e.cfg, r.sys, a, r'.sys)
    && var m := Handed(r.sys, a, e.win.target);
       r' == r.(sys := r'.sys, pc := pc, tag := Tagging(r, a),
                q := r.q + (if m.Some? then [m.value] else []),
                names := r.names + (if m.Some? then [r.tag] else []))
  }

  ghost predicate RStep<T>(e: Setup<T>, r: Relay<T>, m: Move<T>, r': Relay<T>) {
    match m
    case Env(a) => EnvMay(e.win.target, Mine(r.pc), a) && Via(e, r, a, r.pc, r')
    case OpenLock => r.pc.Outside? && Via(e, r, Borrow, OpenLocked, r')
    case OpenGate => r.pc.OpenLocked? && Via(e, r, Open(e.win), Opening, r')
    case OpenReturn => r.pc.Opening? && Via(e, r, Return, Between, r')
    case Mark(num) =>
      && r.pc.Between? && num > r.last
      && var id := WindowId(r.attempt, num);
         Via(e, r.(mark := id, last := num), MarkReady(e.win, num), Marked(id), r')
    case GiveUp => r.pc.Marked? && r' == r.(pc := Lost(r.pc.id))
    case Redo(attempt) =>
      && (r.pc.Between? || r.pc.Lost?) && attempt > r.attempt
      && Via(e, r.(attempt := attempt, last := 0), ClearReady(e.win), Between, r')
    case FlushLock => r.pc.Marked? && Via(e, r, LockFlush(e.win, r.pc.id.num), Flushing(r.pc.id), r')
    case FlushTake =>
      && r.pc.Flushing? && r.sys.lock.FlushEntry?
      && Via(e, r, TakeFlush, if r'.sys.lock.Free? then FlushDone(r.pc.id) else r.pc, r')
    case FlushSend => r.pc.Flushing? && Via(e, r, Send, r.pc, r')
    case FlushUnlock => r.pc.Flushing? && Via(e, r, Unlock, FlushDone(r.pc.id), r')
    case QueueCloses =>
      && r.pc.FlushDone?
      && r' == r.(pc := Between, q := r.q + [Closes(r.pc.id.num)],
                  names := r.names + [r.pc.id], closed := r.closed + {r.pc.id})
    case SealLock => r.pc.Between? && Via(e, r, LockClose(e.win), Sealing, r')
    case SealTake =>
      && r.pc.Sealing? && r.sys.lock.CloseEntry?
      && Via(e, r, TakeClose, if r'.sys.lock.Free? then Outside else Sealing, r')
    case SealSend => r.pc.Sealing? && Via(e, r, Send, Sealing, r')
    case SealUnlock => r.pc.Sealing? && Via(e, r, Unlock, Sealing, r')
  }

  // ------------------------------------------------------------- invariants

  ghost predicate LockRole<T>(e: Setup<T>, pc: Pc, l: Lock<T>) {
    && (pc.OpenLocked? || pc.Opening? ==> l.Borrowed?)
    && (pc.Flushing? ==>
          || l == FlushEntry(e.win, pc.id.num)
          || (l.Sending? && l.who.Flusher? && l.w == e.win && l.tag == InWindow(pc.id.num)))
    && (pc.Sealing? ==>
          || l == CloseEntry(e.win)
          || (l.Sending? && l.who.Closer? && l.w == e.win && l.tag == Trailing))
    && (!Mine(pc) && (l.FlushEntry? || l.CloseEntry? || (l.Sending? && !l.who.Drainer?)) ==>
          l.w.target != e.win.target)
  }

  /** The same window, or only the same number. */
  predicate Same(a: WindowId, b: WindowId, byNum: bool) { a.num == b.num && (byNum || a.attempt == b.attempt) }

  ghost predicate Shut(closed: set<WindowId>, w: WindowId, byNum: bool) {
    exists c :: c in closed && Same(c, w, byNum)
  }

  /** No closed window can be named any more: not by the readiness mark, not by
      a send under way; after the flush nothing names any window. */
  ghost predicate TagsOpen<T>(e: Setup<T>, r: Relay<T>, byNum: bool) {
    var s := r.sys;
    && (forall k :: k in s.g.on && k.target == e.win.target ==> k == e.win)
    && (e.win in s.g.ready ==>
          && s.g.ready[e.win] == r.mark.num && !Shut(r.closed, r.mark, byNum)
          && (r.pc.Marked? || r.pc.Lost? || (r.pc.Flushing? && s.lock.FlushEntry?)))
    && (s.lock.Sending? && s.lock.w.target == e.win.target && s.lock.tag.InWindow? ==>
          s.lock.tag.id == r.tag.num && !Shut(r.closed, r.tag, byNum) && !r.pc.FlushDone?)
    && (HasId(r.pc) ==> !Shut(r.closed, r.pc.id, byNum))
  }

  /** Earlier than any window the relay may mark next. */
  predicate Before(w: WindowId, attempt: nat, last: nat) {
    w.attempt < attempt || (w.attempt == attempt && w.num <= last)
  }

  ghost predicate Booked<T>(r: Relay<T>) {
    (forall c :: c in r.closed ==> Before(c, r.attempt, r.last)) && (HasId(r.pc) ==> Before(r.pc.id, r.attempt, r.last))
  }

  /** Between its opening and its sealing the window is open, and marked while the
      relay waits for the reader. */
  ghost predicate Opens<T>(e: Setup<T>, r: Relay<T>) {
    && (r.pc.Opening? || r.pc.Between? || HasId(r.pc) ==> e.win in r.sys.g.on)
    && (r.pc.Marked? ==> e.win in r.sys.g.ready)
  }

  /** After a window's Closes marker no batch is tagged for it: by what each entry of
      the queue stands for, or by the number on it. */
  ghost predicate NoneFollows<T>(q: seq<Msg<T>>, names: seq<WindowId>, byNum: bool)
    requires |names| == |q|
  {
    forall i, j :: 0 <= i < j < |q| && q[i].Closes? && q[j].Tagged? ==> !Same(names[i], names[j], byNum)
  }

  ghost predicate QueueFits<T>(r: Relay<T>, byNum: bool) {
    && |r.names| == |r.q|
    && (forall i :: 0 <= i < |r.q| && r.q[i].Closes? ==> r.names[i] in r.closed && r.names[i].num == r.q[i].id)
    && (forall i :: 0 <= i < |r.q| && r.q[i].Tagged? ==> r.names[i].num == r.q[i].id)
    && (forall c :: c in r.closed ==> Closes(c.num) in r.q)
    && NoneFollows(r.q, r.names, byNum)
  }

  ghost predicate RInv<T>(e: Setup<T>, r: Relay<T>, byNum: bool) {
    && Inv(e.cfg, r.sys) && LockRole(e, r.pc, r.sys.lock) && TagsOpen(e, r, byNum)
    && Booked(r) && Opens(e, r) && QueueFits(r, byNum)
  }

  /** The step marks a number whose Closes marker is on the queue already. */
  ghost predicate Reuses<T>(r: Relay<T>, r': Relay<T>) {
    !r.pc.Marked? && r'.pc.Marked? && Closes(r'.pc.id.num) in r.q
  }

  // --------------------------------------------------- every step keeps RInv

  lemma QueueKept<T>(e: Setup<T>, r: Relay<T>, m: Move<T>, r': Relay<T>, byNum: bool)
    requires TagsOpen(e, r, byNum) && QueueFits(r, byNum) && RStep(e, r, m, r')
    ensures QueueFits(r', byNum)
  {
    match m
    case Mark(num) => QuietFits(e, r.(mark := WindowId(r.attempt, num), last := num), MarkReady(e.win, num), r', byNum);
    case Redo(attempt) => QuietFits(e, r.(attempt := attempt, last := 0), ClearReady(e.win), r', byNum);
    case OpenLock => QuietFits(e, r, Borrow, r', byNum);
    case OpenGate => QuietFits(e, r, Open(e.win), r', byNum);
    case OpenReturn => QuietFits(e, r, Return, r', byNum);
    case FlushLock => QuietFits(e, r, LockFlush(e.win, r.pc.id.num), r', byNum);
    case FlushTake => QuietFits(e, r, TakeFlush, r', byNum);
    case FlushUnlock => QuietFits(e, r, Unlock, r', byNum);
    case SealLock => QuietFits(e, r, LockClose(e.win), r', byNum);
    case SealTake => QuietFits(e, r, TakeClose, r', byNum);
    case SealUnlock => QuietFits(e, r, Unlock, r', byNum);
    case QueueCloses => ClosesFits(r, r', r.pc.id, byNum);
    case Env(a) => HandedFits(e, r, a, r', byNum);
    case FlushSend => HandedFits(e, r, Send, r', byNum);
    case SealSend => HandedFits(e, r, Send, r', byNum);
    case GiveUp =>
  }

  lemma QuietFits<T>(e: Setup<T>, r: Relay<T>, a: Action<T>, r': Relay<T>, byNum: bool)
    requires QueueFits(r, byNum) && !a.Send? && !a.Route? && Via(e, r, a, r'.pc, r')
    ensures QueueFits(r', byNum)
  {
    assert r'.q == r.q && r'.names == r.names;
  }

  lemma ClosesFits<T>(r: Relay<T>, r': Relay<T>, id: WindowId, byNum: bool)
    requires QueueFits(r, byNum) && r'.q == r.q + [Closes(id.num)]
    requires r'.names == r.names + [id] && r'.closed == r.closed + {id}
    ensures QueueFits(r', byNum)
  {
    forall c | c in r'.closed ensures Closes(c.num) in r'.q {
      if c == id { assert r'.q[|r.q|] == Closes(id.num); } else { assert Closes(c.num) in r.q; }
    }
  }

  /** What a step hands to the queue names no closed window. */
  lemma HandedFits<T>(e: Setup<T>, r: Relay<T>, a: Action<T>, r': Relay<T>, byNum: bool)
    requires TagsOpen(e, r, byNum) && QueueFits(r, byNum) && Via(e, r, a, r'.pc, r')
    ensures QueueFits(r', byNum)
  {
    var m := Handed(r.sys, a, e.win.target);
    if m.Some? {
      OneMoreFits(r, r', m.value, r.tag, byNum);
    } else {
      assert r'.q == r.q && r'.names == r.names;
    }
  }

  lemma OneMoreFits<T>(r: Relay<T>, r': Relay<T>, m: Msg<T>, name: WindowId, byNum: bool)
    requires QueueFits(r, byNum) && r'.q == r.q + [m] && r'.names == r.names + [name] && r'.closed == r.closed
    requires m.Plain? || (m.Tagged? && m.id == name.num && !Shut(r.closed, name, byNum))
    ensures QueueFits(r', byNum)
  {
    forall i, j | 0 <= i < j < |r'.q| && r'.q[i].Closes? && r'.q[j].Tagged?
      ensures !Same(r'.names[i], r'.names[j], byNum)
    {
      if j == |r.q| { assert r.names[i] in r.closed; }
    }
    forall c | c in r'.closed ensures Closes(c.num) in r'.q { assert Closes(c.num) in r.q; }
  }

  lemma BookKept<T>(e: Setup<T>, r: Relay<T>, m: Move<T>, r': Relay<T>)
    requires Booked(r) && RStep(e, r, m, r')
    ensures Booked(r')
  {
  }

  lemma EnvRoles<T>(e: Setup<T>, pc: Pc, s: Sys<T>, a: Action<T>, s': Sys<T>)
    requires LockRole(e, pc, s.lock) && EnvMay(e.win.target, Mine(pc), a) && Step(e.cfg, s, a, s')
    ensures LockRole(e, pc, s'.lock)
  {
    if UsesLock(a) { LockLeaves(e.cfg, s, a, s'); } else { LockStays(e.cfg, s, a, s'); }
  }

  ghost predicate Control<T>(e: Setup<T>, r: Relay<T>, byNum: bool) {
    GateShape(r.sys.g) && LockRole(e, r.pc, r.sys.lock) && TagsOpen(e, r, byNum)
  }

  lemma EnvTags<T>(e: Setup<T>, r: Relay<T>, a: Action<T>, r': Relay<T>, byNum: bool)
    requires Control(e, r, byNum) && EnvMay(e.win.target, Mine(r.pc), a) && Via(e, r, a, r.pc, r')
    ensures TagsOpen(e, r', byNum)
  {
    if a.TakeDrain? {
      DrainLeaves(e.cfg, r.sys, r'.sys);
      EnvDrains(e, r, r', byNum);
    } else if Takes(a) {
      EnvTakes(e, r, a, r', byNum);
    } else if Marks(a) {
      EnvMarks(e, r, a, r', byNum);
    } else {
      EnvRest(e, r, a, r', byNum);
    }
  }

  lemma EnvDrains<T>(e: Setup<T>, r: Relay<T>, r': Relay<T>, byNum: bool)
    requires Control(e, r, byNum) && r.sys.lock.DrainEntry? && DrainedTo(r.sys, r'.sys)
    requires r'.pc == r.pc && r'.closed == r.closed && r'.mark == r.mark && r'.tag == r.mark
    ensures TagsOpen(e, r', byNum)
  {
  }

  lemma EnvTakes<T>(e: Setup<T>, r: Relay<T>, a: Action<T>, r': Relay<T>, byNum: bool)
    requires (a.TakeFlush? || a.TakeClose?) && Control(e, r, byNum)
    requires EnvMay(e.win.target, Mine(r.pc), a) && Via(e, r, a, r.pc, r')
    ensures TagsOpen(e, r', byNum)
  {
  }

  lemma EnvMarks<T>(e: Setup<T>, r: Relay<T>, a: Action<T>, r': Relay<T>, byNum: bool)
    requires Marks(a) && Control(e, r, byNum)
    requires EnvMay(e.win.target, Mine(r.pc), a) && Via(e, r, a, r.pc, r')
    ensures TagsOpen(e, r', byNum)
  {
  }

  lemma EnvRest<T>(e: Setup<T>, r: Relay<T>, a: Action<T>, r': Relay<T>, byNum: bool)
    requires !Takes(a) && !Marks(a) && Control(e, r, byNum)
    requires EnvMay(e.win.target, Mine(r.pc), a) && Via(e, r, a, r.pc, r')
    ensures TagsOpen(e, r', byNum)
  {
  }

  lemma OpenLockKeeps<T>(e: Setup<T>, r: Relay<T>, r': Relay<T>, byNum: bool)
    requires Control(e, r, byNum) && r.pc.Outside? && Via(e, r, Borrow, OpenLocked, r')
    ensures LockRole(e, r'.pc, r'.sys.lock) && TagsOpen(e, r', byNum)
  {
  }

  lemma OpenGateKeeps<T>(e: Setup<T>, r: Relay<T>, r': Relay<T>, byNum: bool)
    requires Control(e, r, byNum) && r.pc.OpenLocked? && Via(e, r, Open(e.win), Opening, r')
    ensures LockRole(e, r'.pc, r'.sys.lock) && TagsOpen(e, r', byNum)
  {
  }

  lemma OpenReturnKeeps<T>(e: Setup<T>, r: Relay<T>, r': Relay<T>, byNum: bool)
    requires Control(e, r, byNum) && r.pc.Opening? && Via(e, r, Return, Between, r')
    ensures LockRole(e, r'.pc, r'.sys.lock) && TagsOpen(e, r', byNum)
  {
  }

  lemma FlushLockKeeps<T>(e: Setup<T>, r: Relay<T>, r': Relay<T>, byNum: bool)
    requires Control(e, r, byNum) && r.pc.Marked? && Via(e, r, LockFlush(e.win, r.pc.id.num), Flushing(r.pc.id), r')
    ensures LockRole(e, r'.pc, r'.sys.lock) && TagsOpen(e, r', byNum)
  {
  }

  lemma FlushSendKeeps<T>(e: Setup<T>, r: Relay<T>, r': Relay<T>, byNum: bool)
    requires Control(e, r, byNum) && r.pc.Flushing? && Via(e, r, Send, r.pc, r')
    ensures LockRole(e, r'.pc, r'.sys.lock) && TagsOpen(e, r', byNum)
  {
  }

  lemma FlushUnlockKeeps<T>(e: Setup<T>, r: Relay<T>, r': Relay<T>, byNum: bool)
    requires Control(e, r, byNum) && r.pc.Flushing? && Via(e, r, Unlock, FlushDone(r.pc.id), r')
    ensures LockRole(e, r'.pc, r'.sys.lock) && TagsOpen(e, r', byNum)
  {
  }

  lemma SealLockKeeps<T>(e: Setup<T>, r: Relay<T>, r': Relay<T>, byNum: bool)
    requires Control(e, r, byNum) && r.pc.Between? && Via(e, r, LockClose(e.win), Sealing, r')
    ensures LockRole(e, r'.pc, r'.sys.lock) && TagsOpen(e, r', byNum)
  {
  }

  lemma SealSendKeeps<T>(e: Setup<T>, r: Relay<T>, r': Relay<T>, byNum: bool)
    requires Control(e, r, byNum) && r.pc.Sealing? && Via(e, r, Send, Sealing, r')
    ensures LockRole(e, r'.pc, r'.sys.lock) && TagsOpen(e, r', byNum)
  {
  }

  lemma SealUnlockKeeps<T>(e: Setup<T>, r: Relay<T>, r': Relay<T>, byNum: bool)
    requires Control(e, r, byNum) && r.pc.Sealing? && Via(e, r, Unlock, Sealing, r')
    ensures LockRole(e, r'.pc, r'.sys.lock) && TagsOpen(e, r', byNum)
  {
  }

  lemma FlushTakeKeeps<T>(e: Setup<T>, r: Relay<T>, r': Relay<T>, byNum: bool)
    requires Control(e, r, byNum) && r.pc.Flushing?
    requires Via(e, r, TakeFlush, if r'.sys.lock.Free? then FlushDone(r.pc.id) else r.pc, r')
    ensures LockRole(e, r'.pc, r'.sys.lock) && TagsOpen(e, r', byNum)
  {
  }

  lemma SealTakeKeeps<T>(e: Setup<T>, r: Relay<T>, r': Relay<T>, byNum: bool)
    requires Control(e, r, byNum) && r.pc.Sealing?
    requires Via(e, r, TakeClose, if r'.sys.lock.Free? then Outside else Sealing, r')
    ensures LockRole(e, r'.pc, r'.sys.lock) && TagsOpen(e, r', byNum)
  {
    assert r'.sys.g == CloseRound(r.sys.g, e.win);
  }

  /** A new window is none that was closed; by its number only when that is not used
      again. */
  lemma NewIsNotShut<T>(r: Relay<T>, num: nat, byNum: bool)
    requires Booked(r) && QueueFits(r, byNum) && num > r.last && (byNum ==> Closes(num) !in r.q)
    ensures !Shut(r.closed, WindowId(r.attempt, num), byNum)
  {
    forall c | c in r.closed ensures !Same(c, WindowId(r.attempt, num), byNum) {
      assert Closes(c.num) in r.q && Before(c, r.attempt, r.last);
    }
  }

  lemma MarkKeeps<T>(e: Setup<T>, r: Relay<T>, id: WindowId, last: nat, r': Relay<T>, byNum: bool)
    requires Control(e, r, byNum) && r.pc.Between? && !Shut(r.closed, id, byNum)
    requires Via(e, r.(mark := id, last := last), MarkReady(e.win, id.num), Marked(id), r')
    ensures LockRole(e, r'.pc, r'.sys.lock) && TagsOpen(e, r', byNum)
  {
  }

  lemma RedoKeeps<T>(e: Setup<T>, r: Relay<T>, attempt: nat, r': Relay<T>, byNum: bool)
    requires Control(e, r, byNum) && (r.pc.Between? || r.pc.Lost?)
    requires Via(e, r.(attempt := attempt, last := 0), ClearReady(e.win), Between, r')
    ensures LockRole(e, r'.pc, r'.sys.lock) && TagsOpen(e, r', byNum)
  {
  }

  /** At its Closes marker nothing names the window, or any other, any more. */
  lemma ClosesKeeps<T>(e: Setup<T>, r: Relay<T>, r': Relay<T>, byNum: bool)
    requires Control(e, r, byNum) && r.pc.FlushDone? && r'.pc.Between? && r'.sys == r.sys
    ensures LockRole(e, r'.pc, r'.sys.lock) && TagsOpen(e, r', byNum)
  {
  }

  lemma ControlKept<T>(e: Setup<T>, r: Relay<T>, m: Move<T>, r': Relay<T>, byNum: bool)
    requires Control(e, r, byNum) && Booked(r) && QueueFits(r, byNum) && RStep(e, r, m, r')
    requires byNum ==> !Reuses(r, r')
    ensures LockRole(e, r'.pc, r'.sys.lock) && TagsOpen(e, r', byNum)
  {
    match m
    case Env(a) =>
      EnvRoles(e, r.pc, r.sys, a, r'.sys);
      EnvTags(e, r, a, r', byNum);
    case Mark(num) =>
      NewIsNotShut(r, num, byNum);
      MarkKeeps(e, r, WindowId(r.attempt, num), num, r', byNum);
    case GiveUp =>
    case Redo(attempt) => RedoKeeps(e, r, attempt, r', byNum);
    case FlushTake => FlushTakeKeeps(e, r, r', byNum);
    case SealTake => SealTakeKeeps(e, r, r', byNum);
    case QueueCloses => ClosesKeeps(e, r, r', byNum);
    case OpenLock => OpenLockKeeps(e, r, r', byNum);
    case OpenGate => OpenGateKeeps(e, r, r', byNum);
    case OpenReturn => OpenReturnKeeps(e, r, r', byNum);
    case FlushLock => FlushLockKeeps(e, r, r', byNum);
    case FlushSend => FlushSendKeeps(e, r, r', byNum);
    case FlushUnlock => FlushUnlockKeeps(e, r, r', byNum);
    case SealLock => SealLockKeeps(e, r, r', byNum);
    case SealSend => SealSendKeeps(e, r, r', byNum);
    case SealUnlock => SealUnlockKeeps(e, r, r', byNum);
  }

  lemma OpensKept<T>(e: Setup<T>, r: Relay<T>, m: Move<T>, r': Relay<T>)
    requires LockRole(e, r.pc, r.sys.lock) && Opens(e, r) && RStep(e, r, m, r')
    ensures Opens(e, r')
  {
    match m
    case Env(a) => EnvOpens(e, r, a, r');
    case OpenLock =>
    case OpenGate =>
    case OpenReturn => OnStays(e.cfg, r.sys, Return, r'.sys);
    case Mark(num) => MarkOpens(e.cfg, r.sys, e.win, num, r'.sys);
    case GiveUp =>
    case Redo(_) => OnStays(e.cfg, r.sys, ClearReady(e.win), r'.sys);
    case FlushLock => OnStays(e.cfg, r.sys, LockFlush(e.win, r.pc.id.num), r'.sys);
    case FlushTake => OnStays(e.cfg, r.sys, TakeFlush, r'.sys);
    case FlushSend => OnStays(e.cfg, r.sys, Send, r'.sys);
    case FlushUnlock => OnStays(e.cfg, r.sys, Unlock, r'.sys);
    case QueueCloses =>
    case SealLock =>
    case SealTake =>
    case SealSend =>
    case SealUnlock =>
  }

  lemma OnStays<T>(cfg: Config<T>, s: Sys<T>, a: Action<T>, s': Sys<T>)
    requires Step(cfg, s, a, s') && !a.TakeClose?
    ensures s.g.on <= s'.g.on
  {
  }

  lemma MarkOpens<T>(cfg: Config<T>, s: Sys<T>, w: Window, id: nat, s': Sys<T>)
    requires w in s.g.on && Step(cfg, s, MarkReady(w, id), s')
    ensures w in s'.g.on && w in s'.g.ready
  {
  }

  /** Nobody else closes the window or takes its mark. */
  lemma EnvOpens<T>(e: Setup<T>, r: Relay<T>, a: Action<T>, r': Relay<T>)
    requires LockRole(e, r.pc, r.sys.lock) && Opens(e, r)
    requires EnvMay(e.win.target, Mine(r.pc), a) && Via(e, r, a, r.pc, r')
    ensures Opens(e, r')
  {
    if a.TakeFlush? || a.TakeClose? {
      TakesElsewhere(e, r, a, r');
    } else {
      OnStays(e.cfg, r.sys, a, r'.sys);
      if r.pc.Marked? { MarksStay(e.cfg, r.sys, a, r'.sys, e.win); }
    }
  }

  lemma TakesElsewhere<T>(e: Setup<T>, r: Relay<T>, a: Action<T>, r': Relay<T>)
    requires (a.TakeFlush? || a.TakeClose?) && LockRole(e, r.pc, r.sys.lock) && Opens(e, r)
    requires EnvMay(e.win.target, Mine(r.pc), a) && Via(e, r, a, r.pc, r')
    ensures Opens(e, r')
  {
  }

  lemma MarksStay<T>(cfg: Config<T>, s: Sys<T>, a: Action<T>, s': Sys<T>, w: Window)
    requires Step(cfg, s, a, s') && !a.TakeFlush? && !a.TakeClose? && a != ClearReady(w) && w in s.g.ready
    ensures w in s'.g.ready
  {
  }

  lemma RefinesGate<T(!new)>(e: Setup<T>, r: Relay<T>, m: Move<T>, r': Relay<T>)
    requires RStep(e, r, m, r')
    ensures r'.sys == r.sys || Next(e.cfg, r.sys, r'.sys)
  {
  }

  lemma RStepInv<T(!new)>(e: Setup<T>, r: Relay<T>, m: Move<T>, r': Relay<T>, byNum: bool)
    requires RInv(e, r, byNum) && RStep(e, r, m, r') && (byNum ==> !Reuses(r, r'))
    ensures RInv(e, r', byNum)
  {
    RefinesGate(e, r, m, r');
    if r'.sys != r.sys {
      var a :| Step(e.cfg, r.sys, a, r'.sys);
      StepInv(e.cfg, r.sys, a, r'.sys);
    }
    QueueKept(e, r, m, r', byNum);
    ControlKept(e, r, m, r', byNum);
    BookKept(e, r, m, r');
    OpensKept(e, r, m, r');
  }

  // ------------------------------------------------------------- whole runs

  ghost predicate RNext<T(!new)>(e: Setup<T>, r: Relay<T>, r': Relay<T>) {
    exists m :: RStep(e, r, m, r')
  }

  ghost predicate RRun<T(!new)>(e: Setup<T>, rs: seq<Relay<T>>) {
    && rs != [] && rs[0] == Begin()
    && forall i :: 0 <= i < |rs| - 1 ==> RNext(e, rs[i], rs[i + 1])
  }

  /** No number is marked after its Closes marker was queued. */
  ghost predicate NoReuse<T>(rs: seq<Relay<T>>) {
    forall i :: 0 <= i < |rs| - 1 ==> !Reuses(rs[i], rs[i + 1])
  }

  lemma {:induction false} RRunInv<T(!new)>(e: Setup<T>, rs: seq<Relay<T>>, i: nat, byNum: bool)
    requires RRun(e, rs) && i < |rs| && (byNum ==> NoReuse(rs))
    ensures RInv(e, rs[i], byNum)
    decreases i
  {
    if i == 0 {
      BeginInv(e, byNum);
    } else {
      RRunInv(e, rs, i - 1, byNum);
      assert RNext(e, rs[i - 1], rs[i - 1 + 1]);
      assert byNum ==> !Reuses(rs[i - 1], rs[i - 1 + 1]);
      RNextInv(e, rs[i - 1], rs[i], byNum);
    }
  }

  lemma BeginInv<T(!new)>(e: Setup<T>, byNum: bool)
    ensures RInv(e, Begin(), byNum)
  {
    assert LedgerOf(Start<T>(), "").Balanced();
  }

  lemma RNextInv<T(!new)>(e: Setup<T>, r: Relay<T>, r': Relay<T>, byNum: bool)
    requires RInv(e, r, byNum) && RNext(e, r, r') && (byNum ==> !Reuses(r, r'))
    ensures RInv(e, r', byNum)
  {
    var m :| RStep(e, r, m, r');
    RStepInv(e, r, m, r', byNum);
  }

  // ------------------------------------------------- which batches the queue holds

  /** The one owner gets every batch. */
  function Everything<T>(x: T): set<nat> { {0} }

  ghost predicate Delivers<T>(e: Setup<T>, r: Relay<T>) {
    LiveOf(r.q) == Shared(At(r.sys.out, e.win.target), Everything, 0)
  }

  lemma ViaDelivers<T>(e: Setup<T>, r: Relay<T>, a: Action<T>, pc: Pc, r': Relay<T>)
    requires Delivers(e, r) && Via(e, r, a, pc, r')
    ensures Delivers(e, r')
  {
    HandedIsDelivered(e.cfg, r.sys, a, r'.sys, e.win.target);
    var m, out := Handed(r.sys, a, e.win.target), At(r.sys.out, e.win.target);
    match m
    case None => assert r'.q == r.q;
    case Some(Tagged(id, x)) =>
      LiveOfMore(r.q, m.value);
      SharedMore(out, Sent(x, InWindow(id)), Everything, 0);
    case Some(Plain(x)) =>
      var tag: Tag :| !tag.InWindow? && At(r'.sys.out, e.win.target) == out + [Sent(x, tag)];
      LiveOfMore(r.q, m.value);
      SharedMore(out, Sent(x, tag), Everything, 0);
    case Some(_) =>
  }

  lemma DeliversKept<T>(e: Setup<T>, r: Relay<T>, m: Move<T>, r': Relay<T>)
    requires Delivers(e, r) && RStep(e, r, m, r')
    ensures Delivers(e, r')
  {
    match m
    case Env(a) => ViaDelivers(e, r, a, r'.pc, r');
    case OpenLock => ViaDelivers(e, r, Borrow, r'.pc, r');
    case OpenGate => ViaDelivers(e, r, Open(e.win), r'.pc, r');
    case OpenReturn => ViaDelivers(e, r, Return, r'.pc, r');
    case Mark(num) =>
      ViaDelivers(e, r.(mark := WindowId(r.attempt, num), last := num), MarkReady(e.win, num), r'.pc, r');
    case GiveUp =>
    case Redo(attempt) => ViaDelivers(e, r.(attempt := attempt, last := 0), ClearReady(e.win), r'.pc, r');
    case FlushLock => ViaDelivers(e, r, LockFlush(e.win, r.pc.id.num), r'.pc, r');
    case FlushTake => ViaDelivers(e, r, TakeFlush, r'.pc, r');
    case FlushSend => ViaDelivers(e, r, Send, r'.pc, r');
    case FlushUnlock => ViaDelivers(e, r, Unlock, r'.pc, r');
    case QueueCloses => LiveOfMore(r.q, Closes(r.pc.id.num));
    case SealLock => ViaDelivers(e, r, LockClose(e.win), r'.pc, r');
    case SealTake => ViaDelivers(e, r, TakeClose, r'.pc, r');
    case SealSend => ViaDelivers(e, r, Send, r'.pc, r');
    case SealUnlock => ViaDelivers(e, r, Unlock, r'.pc, r');
  }

  /** In every run, the live batches on the worker's queue, in order, are exactly the
      items delivered for the table, each tagged as it was delivered. */
  lemma {:induction false} QueueIsDelivered<T(!new)>(e: Setup<T>, rs: seq<Relay<T>>, i: nat)
    requires RRun(e, rs) && i < |rs|
    ensures LiveOf(rs[i].q) == Shared(At(rs[i].sys.out, e.win.target), Everything, 0)
    decreases i
  {
    if i > 0 {
      QueueIsDelivered(e, rs, i - 1);
      assert RNext(e, rs[i - 1], rs[i - 1 + 1]);
      var m :| RStep(e, rs[i - 1], m, rs[i]);
      DeliversKept(e, rs[i - 1], m, rs[i]);
    }
  }

  /** On the worker's queue, in every run with early drains at any moment and any
      number of sessions lost, no batch tagged for a window follows that window's
      Closes marker. */
  lemma NoneFollowsCloses<T(!new)>(e: Setup<T>, rs: seq<Relay<T>>, i: nat)
    requires RRun(e, rs) && i < |rs|
    ensures var r := rs[i]; |r.names| == |r.q| && NoneFollows(r.q, r.names, false)
    ensures forall j :: 0 <= j < |rs[i].q| && (rs[i].q[j].Tagged? || rs[i].q[j].Closes?) ==>
      rs[i].names[j].num == rs[i].q[j].id
  {
    RRunInv(e, rs, i, false);
  }

  /** By the number on the batch and on the marker, in every run that marks no number
      after its Closes marker. */
  lemma NoneFollowsByNumber<T(!new)>(e: Setup<T>, rs: seq<Relay<T>>, i: nat, j: nat, k: nat)
    requires RRun(e, rs) && NoReuse(rs) && i < |rs| && j < k < |rs[i].q|
    ensures rs[i].q[j].Closes? && rs[i].q[k].Tagged? ==> rs[i].q[k].id != rs[i].q[j].id
  {
    RRunInv(e, rs, i, true);
  }
}
