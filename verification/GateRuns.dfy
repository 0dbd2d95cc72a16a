/** Every interleaving of the gate's critical sections: one producer, any
    number of Open, MarkReady, ClearReady, Flush and Close calls, early drains
    and other users of the flush lock. Sends are item by item, so anything that
    does not need the flush lock may happen between two of them. */
module GateRuns {
  import opened Text
  import opened Gate

  /** How an item left the gate's side: tagged for a window, trailing after the
      last window, or routed live without being held. */
  datatype Tag = InWindow(id: nat) | Trailing | Live
  datatype Sent<T> = Sent(item: T, tag: Tag)

  datatype By = Drainer | Flusher | Closer

  /** Who holds the flush lock, and where it stands. */
  datatype Lock<T> =
    | Free
    | DrainEntry(k: Window)
    | FlushEntry(w: Window, id: nat)
    | CloseEntry(w: Window)
    | Sending(who: By, w: Window, tag: Tag, items: seq<T>)
    | Borrowed

  /** Where the producer stands in Hold(t, x). */
  datatype Producer<T> =
    | Idle
    | Checking(t: string, x: T)
    | WantsDrain(t: string, x: T, k: Window)
    | Draining(t: string, x: T)
    | Waiting(t: string, x: T, k: Window, drain: nat)
    | Routing(t: string, x: T)

  /** The gate, its lock, the producer, and what was offered and delivered per
      target. `loose` holds the windows ever fed past the bound (AppendLocked). */
  datatype Sys<T> = Sys(
    g: State<T>,
    lock: Lock<T>,
    prod: Producer<T>,
    offered: map<string, seq<T>>,
    out: map<string, seq<Sent<T>>>,
    loose: set<Window>)

  function Start<T>(): Sys<T> { Sys(Init(), Free, Idle, map[], map[], {}) }

  datatype Action<T> =
    | Open(w: Window) | MarkReady(w: Window, id: nat) | ClearReady(w: Window)
    | Offer(t: string, x: T)
    | HoldMiss | HoldAppend(k: Window) | HoldDrain(k: Window) | HoldWait(k: Window)
    | WakeUp | Route
    | AppendLoose(t: string, x: T, k: Window)
    | LockDrain | TakeDrain
    | LockFlush(w: Window, id: nat) | TakeFlush
    | LockClose(w: Window) | TakeClose
    | Send | Unlock
    | Borrow | Return

  function At<X>(m: map<string, seq<X>>, t: string): seq<X> { if t in m then m[t] else [] }

  function Add<X>(m: map<string, seq<X>>, t: string, x: X): map<string, seq<X>> { m[t := At(m, t) + [x]] }

  /** The state after a take: nothing to send releases the lock, otherwise the
      taken items are being delivered. */
  function AfterTake<T>(s: Sys<T>, g: State<T>, who: By, w: Window, tag: Tag, items: seq<T>): Sys<T> {
    if items == [] then Released(s.(g := g), who) else s.(g := g, lock := Sending(who, w, tag, items))
  }

  function Released<T>(s: Sys<T>, who: By): Sys<T> {
    if who.Drainer? && s.prod.Draining? then s.(lock := Free, prod := Checking(s.prod.t, s.prod.x))
    else s.(lock := Free)
  }

  /** At most one partition of a target has a window open. */
  ghost predicate MayOpen<T>(g: State<T>, w: Window) {
    forall k :: OpenFor(g, w.target, k) ==> k == w
  }

  ghost predicate Step<T>(cfg: Config<T>, s: Sys<T>, a: Action<T>, s': Sys<T>) {
    match a
    case Open(w) => MayOpen(s.g, w) && s' == s.(g := Opened(s.g, w))
    case MarkReady(w, id) => s' == s.(g := MarkedReady(s.g, w, id))
    case ClearReady(w) => s' == s.(g := ClearedReady(s.g, w))
    case Offer(t, x) => s.prod.Idle? && s' == s.(prod := Checking(t, x), offered := Add(s.offered, t, x))
    case HoldMiss =>
      s.prod.Checking? && NoneOpen(s.g, s.prod.t) && s' == s.(prod := Routing(s.prod.t, s.prod.x))
    case HoldAppend(k) =>
      && s.prod.Checking? && IsOpenKey(s.g, s.prod.t, k) && !Full(cfg, s.g, k)
      && s' == s.(prod := Idle, g := Append(cfg, s.g, k, s.prod.x))
    case HoldDrain(k) =>
      && s.prod.Checking? && IsOpenKey(s.g, s.prod.t, k) && Full(cfg, s.g, k) && k in s.g.ready
      && s' == s.(prod := WantsDrain(s.prod.t, s.prod.x, k))
    case HoldWait(k) =>
      && s.prod.Checking? && IsOpenKey(s.g, s.prod.t, k) && Full(cfg, s.g, k) && k !in s.g.ready
      && s' == s.(prod := Waiting(s.prod.t, s.prod.x, k, s.g.drain))
    case WakeUp =>
      && s.prod.Waiting? && s.prod.drain != s.g.drain
      && s' == s.(prod := Checking(s.prod.t, s.prod.x))
    case Route =>
      s.prod.Routing? && s' == s.(prod := Idle, out := Add(s.out, s.prod.t, Sent(s.prod.x, Live)))
    case AppendLoose(t, x, k) =>
      && s.prod.Idle? && IsOpenKey(s.g, t, k)
      && s' == s.(offered := Add(s.offered, t, x), g := Append(cfg, s.g, k, x), loose := s.loose + {k})
    case LockDrain =>
      && s.prod.WantsDrain? && s.lock.Free?
      && s' == s.(lock := DrainEntry(s.prod.k), prod := Draining(s.prod.t, s.prod.x))
    case TakeDrain =>
      && s.lock.DrainEntry?
      && s' == if DrainHits(s.g, s.lock.k)
               then AfterTake(s, Drained(s.g, s.lock.k), Drainer, s.lock.k,
                              InWindow(s.g.ready[s.lock.k]), Held(s.g, s.lock.k))
               else Released(s, Drainer)
    case LockFlush(w, id) => s.lock.Free? && s' == s.(lock := FlushEntry(w, id))
    case TakeFlush =>
      && s.lock.FlushEntry?
      && s' == AfterTake(s, Flushed(s.g, s.lock.w), Flusher, s.lock.w, InWindow(s.lock.id), Held(s.g, s.lock.w))
    case LockClose(w) => s.lock.Free? && s' == s.(lock := CloseEntry(w))
    case TakeClose =>
      && s.lock.CloseEntry?
      && s' == AfterTake(s, CloseRound(s.g, s.lock.w), Closer, s.lock.w, Trailing, Held(s.g, s.lock.w))
    case Send =>
      && s.lock.Sending? && s.lock.items != []
      && s' == s.(lock := s.lock.(items := s.lock.items[1..]),
                  out := Add(s.out, s.lock.w.target, Sent(s.lock.items[0], s.lock.tag)))
    case Unlock =>
      && s.lock.Sending? && s.lock.items == []
      && s' == if s.lock.who.Closer? then s.(lock := CloseEntry(s.lock.w)) else Released(s, s.lock.who)
    case Borrow => s.lock.Free? && s' == s.(lock := Borrowed)
    case Return => s.lock.Borrowed? && s' == s.(lock := Free)
  }

  // ------------------------------------------------------------- invariants

  function Items<T>(sent: seq<Sent<T>>): seq<T> {
    seq(|sent|, i requires 0 <= i < |sent| => sent[i].item)
  }

  function BeingSent<T>(s: Sys<T>, t: string): seq<T> {
    if s.lock.Sending? && s.lock.w.target == t then s.lock.items else []
  }

  function InHand<T>(s: Sys<T>, t: string): seq<T> {
    if !s.prod.Idle? && s.prod.t == t then [s.prod.x] else []
  }

  /** What the open window of t holds; nothing when none is open. */
  ghost function HeldFor<T>(g: State<T>, t: string): seq<T> {
    if k :| OpenFor(g, t, k) then Held(g, k) else []
  }

  /** One target's items: what was offered, and where it all is. */
  datatype Ledger<T> = Ledger(offered: seq<T>, sent: seq<T>, sending: seq<T>, held: seq<T>, hand: seq<T>) {

    /** In offer order: delivered, being delivered, held, and the item the
        producer still has in its hand. Nothing lost, twice or overtaken. */
    ghost predicate Balanced() {
      offered == sent + sending + held + hand
    }
  }

  ghost function LedgerOf<T>(s: Sys<T>, t: string): Ledger<T> {
    Ledger(At(s.offered, t), Items(At(s.out, t)), BeingSent(s, t), HeldFor(s.g, t), InHand(s, t))
  }

  /** Only open windows hold or are ready, and no target has two. */
  ghost predicate GateShape<T>(g: State<T>) {
    && (forall j, k :: j in g.on && k in g.on && j.target == k.target ==> j == k)
    && g.buf.Keys <= g.on && g.ready.Keys <= g.on && g.bytes.Keys <= g.on
  }

  ghost predicate LockShape<T>(s: Sys<T>) {
    && (s.prod.Draining? <==> s.lock.DrainEntry? || (s.lock.Sending? && s.lock.who.Drainer?))
    && (s.lock.Sending? ==> s.lock.w in s.g.on)
  }

  /** The byte tally of a window is the sum of what it holds; a window fed only
      by Hold never has more than maxCount items, and was below maxBytes before
      its newest item. */
  ghost predicate Weighed<T>(cfg: Config<T>, held: seq<T>, tally: int, loose: bool) {
    && tally == TotalSize(cfg.size, held)
    && (!loose && cfg.maxCount > 0 ==> |held| <= cfg.maxCount)
    && (!loose && cfg.maxBytes > 0 && held != [] ==> TotalSize(cfg.size, held[..|held| - 1]) < cfg.maxBytes)
  }

  ghost predicate GateInv<T>(cfg: Config<T>, g: State<T>, loose: set<Window>) {
    GateShape(g) && forall k :: k in g.on ==> Weighed(cfg, Held(g, k), Tally(g, k), k in loose)
  }

  ghost predicate Ordered<T>(s: Sys<T>) {
    && (forall t :: LedgerOf(s, t).Balanced())
    && (s.prod.Routing? ==> BeingSent(s, s.prod.t) == [] && HeldFor(s.g, s.prod.t) == [])
  }

  /** A producer waiting on the current wake epoch faces a window that is open,
      full and not ready. */
  ghost predicate WaitJustified<T>(cfg: Config<T>, s: Sys<T>) {
    s.prod.Waiting? ==>
      && s.prod.drain <= s.g.drain
      && (s.prod.drain == s.g.drain ==>
            OpenFor(s.g, s.prod.t, s.prod.k) && Full(cfg, s.g, s.prod.k) && s.prod.k !in s.g.ready)
  }

  ghost predicate Inv<T>(cfg: Config<T>, s: Sys<T>) {
    GateInv(cfg, s.g, s.loose) && LockShape(s) && Ordered(s) && WaitJustified(cfg, s)
  }

  // ------------------------------------ the gate's own sections keep its shape

  lemma OpenedKeeps<T>(cfg: Config<T>, g: State<T>, loose: set<Window>, w: Window)
    requires GateInv(cfg, g, loose) && MayOpen(g, w)
    ensures GateInv(cfg, Opened(g, w), loose)
  {
    forall k | k in g.on && k.target == w.target ensures k == w {
      assert OpenFor(g, w.target, k);
    }
  }

  lemma ReadyKeeps<T>(cfg: Config<T>, g: State<T>, loose: set<Window>, w: Window, id: nat)
    requires GateInv(cfg, g, loose)
    ensures GateInv(cfg, MarkedReady(g, w, id), loose)
    ensures GateInv(cfg, ClearedReady(g, w), loose)
  {
    assert forall k :: Held(MarkedReady(g, w, id), k) == Held(g, k) == Held(ClearedReady(g, w), k);
  }

  lemma WeighedAppend<T>(cfg: Config<T>, held: seq<T>, tally: int, loose: bool, x: T)
    requires Weighed(cfg, held, tally, loose)
    requires loose || !((cfg.maxCount > 0 && |held| >= cfg.maxCount) || (cfg.maxBytes > 0 && tally >= cfg.maxBytes))
    ensures Weighed(cfg, held + [x], tally + cfg.size(x), loose)
  {
    assert (held + [x])[..|held|] == held;
  }

  lemma AppendKeeps<T>(cfg: Config<T>, g: State<T>, loose: set<Window>, k: Window, x: T)
    requires GateInv(cfg, g, loose) && k in g.on
    requires k in loose || !Full(cfg, g, k)
    ensures GateInv(cfg, Append(cfg, g, k, x), loose)
  {
    WeighedAppend(cfg, Held(g, k), Tally(g, k), k in loose, x);
    var g' := Append(cfg, g, k, x);
    forall j | j in g'.on ensures Weighed(cfg, Held(g', j), Tally(g', j), j in loose) {
      assert j in g.on;
    }
  }

  lemma LooserKeeps<T>(cfg: Config<T>, g: State<T>, loose: set<Window>, k: Window)
    requires GateInv(cfg, g, loose)
    ensures GateInv(cfg, g, loose + {k})
  {
  }

  /** Emptying a window, whatever else becomes of it, keeps the gate's shape. */
  lemma EmptyingKeeps<T>(cfg: Config<T>, g: State<T>, g': State<T>, loose: set<Window>, k: Window)
    requires GateInv(cfg, g, loose)
    requires g'.buf == g.buf - {k} && g'.bytes == g.bytes - {k}
    requires g'.on == g.on || g'.on == g.on - {k}
    requires g'.ready == g.ready || g'.ready == g.ready - {k}
    requires g'.ready.Keys <= g'.on
    ensures GateInv(cfg, g', loose)
  {
    forall j | j in g'.on ensures Weighed(cfg, Held(g', j), Tally(g', j), j in loose) {
      assert j in g.on;
    }
  }

  lemma FlushedKeeps<T>(cfg: Config<T>, g: State<T>, loose: set<Window>, w: Window)
    requires GateInv(cfg, g, loose)
    ensures GateInv(cfg, Flushed(g, w), loose)
  {
    EmptyingKeeps(cfg, g, Flushed(g, w), loose, w);
  }

  lemma CloseRoundKeeps<T>(cfg: Config<T>, g: State<T>, loose: set<Window>, w: Window)
    requires GateInv(cfg, g, loose)
    ensures GateInv(cfg, CloseRound(g, w), loose)
  {
    assert g.ready - {w} - {w} == g.ready - {w};
    EmptyingKeeps(cfg, g, CloseRound(g, w), loose, w);
  }

  lemma DrainedKeeps<T>(cfg: Config<T>, g: State<T>, loose: set<Window>, w: Window)
    requires GateInv(cfg, g, loose)
    ensures GateInv(cfg, Drained(g, w), loose)
  {
    if DrainHits(g, w) { EmptyingKeeps(cfg, g, Drained(g, w), loose, w); }
  }

  // ------------------------------------------- what each section does to HeldFor

  lemma HeldForOpen<T>(g: State<T>, k: Window)
    requires GateShape(g) && k in g.on
    ensures HeldFor(g, k.target) == Held(g, k)
  {
    assert OpenFor(g, k.target, k);
  }

  lemma HeldForOpened<T>(g: State<T>, w: Window, t: string)
    requires GateShape(g) && MayOpen(g, w)
    ensures HeldFor(Opened(g, w), t) == HeldFor(g, t)
  {
    var g' := Opened(g, w);
    OpenedShape(g, w);
    if k :| OpenFor(g, t, k) {
      HeldForOpen(g, k);
      HeldForOpen(g', k);
      assert Held(g', k) == Held(g, k);
    } else if w.target == t {
      assert !OpenFor(g, t, w);
      HeldForOpen(g', w);
      assert Held(g', w) == [];
    } else {
      forall k ensures !OpenFor(g', t, k) { assert !OpenFor(g, t, k); }
    }
  }

  lemma OpenedShape<T>(g: State<T>, w: Window)
    requires GateShape(g) && MayOpen(g, w)
    ensures GateShape(Opened(g, w))
  {
    forall k | k in g.on && k.target == w.target ensures k == w { assert OpenFor(g, w.target, k); }
  }

  lemma HeldForAppend<T>(cfg: Config<T>, g: State<T>, k: Window, x: T, t: string)
    requires GateShape(g) && k in g.on
    ensures HeldFor(Append(cfg, g, k, x), t) == HeldFor(g, t) + (if t == k.target then [x] else [])
  {
    var g' := Append(cfg, g, k, x);
    assert forall j :: OpenFor(g', t, j) <==> OpenFor(g, t, j);
    if t == k.target {
      HeldForOpen(g, k);
      assert OpenFor(g', t, k);
    }
  }

  lemma HeldForEmptied<T>(g: State<T>, g': State<T>, w: Window, t: string)
    requires GateShape(g) && GateShape(g')
    requires g'.buf == g.buf - {w}
    requires g'.on == g.on || g'.on == g.on - {w}
    ensures HeldFor(g', t) == if t == w.target && w in g.on then [] else HeldFor(g, t)
    ensures w in g.on ==> HeldFor(g, w.target) == Held(g, w)
    ensures w !in g.on ==> Held(g, w) == []
  {
    if w in g.on { HeldForOpen(g, w); }
    assert forall j :: j != w ==> (OpenFor(g', t, j) <==> OpenFor(g, t, j));
    if k :| OpenFor(g', t, k) { assert OpenFor(g, t, k); }
    if k :| OpenFor(g, t, k) && k != w { assert OpenFor(g', t, k); }
  }

  // ------------------------------------------------------ every step keeps Inv

  lemma StepGate<T>(cfg: Config<T>, s: Sys<T>, a: Action<T>, s': Sys<T>)
    requires GateInv(cfg, s.g, s.loose) && Step(cfg, s, a, s')
    ensures GateInv(cfg, s'.g, s'.loose)
  {
    match a
    case Open(w) => OpenedKeeps(cfg, s.g, s.loose, w);
    case MarkReady(w, id) => ReadyKeeps(cfg, s.g, s.loose, w, id);
    case ClearReady(w) => ReadyKeeps(cfg, s.g, s.loose, w, 0);
    case HoldAppend(k) => GateAppends(cfg, s, a, s');
    case AppendLoose(t, x, k) => GateAppends(cfg, s, a, s');
    case TakeDrain => GateTakes(cfg, s, a, s');
    case TakeFlush => GateTakes(cfg, s, a, s');
    case TakeClose => GateTakes(cfg, s, a, s');
    case _ => assert s'.g == s.g && s'.loose == s.loose;
  }

  lemma GateAppends<T>(cfg: Config<T>, s: Sys<T>, a: Action<T>, s': Sys<T>)
    requires a.HoldAppend? || a.AppendLoose?
    requires GateInv(cfg, s.g, s.loose) && Step(cfg, s, a, s')
    ensures GateInv(cfg, s'.g, s'.loose)
  {
    if a.HoldAppend? {
      AppendKeeps(cfg, s.g, s.loose, a.k, s.prod.x);
    } else {
      LooserKeeps(cfg, s.g, s.loose, a.k);
      AppendKeeps(cfg, s.g, s.loose + {a.k}, a.k, a.x);
    }
  }

  lemma GateTakes<T>(cfg: Config<T>, s: Sys<T>, a: Action<T>, s': Sys<T>)
    requires a.TakeDrain? || a.TakeFlush? || a.TakeClose?
    requires GateInv(cfg, s.g, s.loose) && Step(cfg, s, a, s')
    ensures GateInv(cfg, s'.g, s'.loose)
  {
    if a.TakeDrain? {
      DrainedKeeps(cfg, s.g, s.loose, s.lock.k);
    } else if a.TakeFlush? {
      FlushedKeeps(cfg, s.g, s.loose, s.lock.w);
    } else {
      CloseRoundKeeps(cfg, s.g, s.loose, s.lock.w);
    }
  }

  lemma StepLock<T>(cfg: Config<T>, s: Sys<T>, a: Action<T>, s': Sys<T>)
    requires GateShape(s.g) && LockShape(s) && Step(cfg, s, a, s')
    ensures LockShape(s')
  {
    if UsesLock(a) { LockStepShape(cfg, s, a, s'); } else { OtherStepShape(cfg, s, a, s'); }
  }

  /** The steps of whoever takes, uses or releases the flush lock. */
  predicate UsesLock<T>(a: Action<T>) {
    || a.LockDrain? || a.TakeDrain? || a.LockFlush? || a.TakeFlush? || a.LockClose? || a.TakeClose?
    || a.Send? || a.Unlock? || a.Borrow? || a.Return?
  }

  lemma LockStepShape<T>(cfg: Config<T>, s: Sys<T>, a: Action<T>, s': Sys<T>)
    requires UsesLock(a) && GateShape(s.g) && LockShape(s) && Step(cfg, s, a, s')
    ensures LockShape(s')
  {
  }

  lemma OtherStepShape<T>(cfg: Config<T>, s: Sys<T>, a: Action<T>, s': Sys<T>)
    requires !UsesLock(a) && GateShape(s.g) && LockShape(s) && Step(cfg, s, a, s')
    ensures LockShape(s')
  {
    assert s'.lock == s.lock && s.g.on <= s'.g.on;
  }

  lemma StepWait<T>(cfg: Config<T>, s: Sys<T>, a: Action<T>, s': Sys<T>)
    requires LockShape(s) && WaitJustified(cfg, s) && Step(cfg, s, a, s')
    ensures WaitJustified(cfg, s')
  {
    if a.TakeDrain? || a.TakeFlush? || a.TakeClose? {
      TakeWait(cfg, s, a, s');
    } else if UsesLock(a) {
      LockStepWait(cfg, s, a, s');
    } else {
      OtherStepWait(cfg, s, a, s');
    }
  }

  lemma TakeWait<T>(cfg: Config<T>, s: Sys<T>, a: Action<T>, s': Sys<T>)
    requires a.TakeDrain? || a.TakeFlush? || a.TakeClose?
    requires LockShape(s) && WaitJustified(cfg, s) && Step(cfg, s, a, s')
    ensures WaitJustified(cfg, s')
  {
  }

  lemma LockStepWait<T>(cfg: Config<T>, s: Sys<T>, a: Action<T>, s': Sys<T>)
    requires UsesLock(a) && !a.TakeDrain? && !a.TakeFlush? && !a.TakeClose?
    requires LockShape(s) && WaitJustified(cfg, s) && Step(cfg, s, a, s')
    ensures WaitJustified(cfg, s')
  {
  }

  lemma OtherStepWait<T>(cfg: Config<T>, s: Sys<T>, a: Action<T>, s': Sys<T>)
    requires !UsesLock(a) && WaitJustified(cfg, s) && Step(cfg, s, a, s')
    ensures WaitJustified(cfg, s')
  {
  }

  lemma StepOrder<T>(cfg: Config<T>, s: Sys<T>, a: Action<T>, s': Sys<T>)
    requires GateShape(s.g) && GateShape(s'.g) && LockShape(s) && Ordered(s) && Step(cfg, s, a, s')
    ensures Ordered(s')
  {
    forall t ensures LedgerOf(s', t).Balanced() {
      assert LedgerOf(s, t).Balanced();
      StepMoves(cfg, s, a, s', t);
      MovesBalance(LedgerOf(s, t), LedgerOf(s', t));
    }
    if s'.prod.Routing? { StepRouting(cfg, s, a, s'); }
  }

  lemma StepRouting<T>(cfg: Config<T>, s: Sys<T>, a: Action<T>, s': Sys<T>)
    requires GateShape(s.g) && GateShape(s'.g) && LockShape(s) && Ordered(s) && Step(cfg, s, a, s')
    requires s'.prod.Routing?
    ensures BeingSent(s', s'.prod.t) == [] && HeldFor(s'.g, s'.prod.t) == []
  {
    var t := s'.prod.t;
    match a
    case Open(w) => HeldForOpened(s.g, w, t);
    case MarkReady(w, id) => SameHeld(s.g, s'.g, t);
    case ClearReady(w) => SameHeld(s.g, s'.g, t);
    case HoldMiss => assert s.lock.Sending? ==> OpenFor(s.g, s.lock.w.target, s.lock.w);
    case TakeFlush => HeldForEmptied(s.g, s'.g, s.lock.w, t);
    case TakeClose => HeldForEmptied(s.g, s'.g, s.lock.w, t);
    case _ =>
  }

  lemma SameHeld<T>(g: State<T>, g': State<T>, t: string)
    requires GateShape(g) && g'.on == g.on && g'.buf == g.buf
    ensures HeldFor(g', t) == HeldFor(g, t)
  {
    if k :| OpenFor(g, t, k) { assert OpenFor(g', t, k); }
    if k :| OpenFor(g', t, k) { assert OpenFor(g, t, k); }
  }

  /** What a step may do to one target's ledger. */
  ghost predicate Moves<T>(l: Ledger<T>, m: Ledger<T>) {
    || m == l
    || (l.hand == [] && |m.hand| == 1 && m == l.(offered := l.offered + m.hand, hand := m.hand))
    || (l.hand == [] && |m.held| == |l.held| + 1
        && m == l.(offered := l.offered + m.held[|l.held|..], held := l.held + m.held[|l.held|..]))
    || m == l.(held := l.held + l.hand, hand := [])
    || (l.sending == [] && m == l.(sending := l.held, held := []))
    || (l.sending != [] && m == l.(sent := l.sent + l.sending[..1], sending := l.sending[1..]))
    || (l.sending == [] && l.held == [] && m == l.(sent := l.sent + l.hand, hand := []))
  }

  lemma OfferBalances<T>(l: Ledger<T>, more: seq<T>)
    requires l.Balanced() && l.hand == []
    ensures l.(offered := l.offered + more, hand := more).Balanced()
    ensures l.(offered := l.offered + more, held := l.held + more).Balanced()
  {
  }

  lemma HoldBalances<T>(l: Ledger<T>)
    requires l.Balanced()
    ensures l.(held := l.held + l.hand, hand := []).Balanced()
    ensures l.sending == [] ==> l.(sending := l.held, held := []).Balanced()
  {
  }

  lemma SendBalances<T>(l: Ledger<T>)
    requires l.Balanced()
    ensures l.sending != [] ==> l.(sent := l.sent + l.sending[..1], sending := l.sending[1..]).Balanced()
    ensures l.sending == [] && l.held == [] ==> l.(sent := l.sent + l.hand, hand := []).Balanced()
  {
    if l.sending != [] { assert l.sending == l.sending[..1] + l.sending[1..]; }
  }

  lemma MovesBalance<T>(l: Ledger<T>, m: Ledger<T>)
    requires l.Balanced() && Moves(l, m)
    ensures m.Balanced()
  {
    HoldBalances(l);
    SendBalances(l);
    if l.hand == [] {
      OfferBalances(l, m.hand);
      if |l.held| <= |m.held| { OfferBalances(l, m.held[|l.held|..]); }
    }
  }

  lemma TakeMoves<T>(s: Sys<T>, g: State<T>, who: By, w: Window, tag: Tag, t: string)
    requires GateShape(s.g) && GateShape(g) && LockShape(s) && !s.lock.Sending?
    requires g.buf == s.g.buf - {w} && (g.on == s.g.on || g.on == s.g.on - {w})
    requires who.Drainer? ==> s.prod.Draining?
    ensures Moves(LedgerOf(s, t), LedgerOf(AfterTake(s, g, who, w, tag, Held(s.g, w)), t))
  {
    HeldForEmptied(s.g, g, w, t);
  }

  lemma TakesMove<T>(cfg: Config<T>, s: Sys<T>, a: Action<T>, s': Sys<T>, t: string)
    requires a.TakeFlush? || a.TakeClose?
    requires GateShape(s.g) && GateShape(s'.g) && LockShape(s) && Step(cfg, s, a, s')
    ensures Moves(LedgerOf(s, t), LedgerOf(s', t))
  {
    if a.TakeFlush? {
      TakeMoves(s, s'.g, Flusher, s.lock.w, InWindow(s.lock.id), t);
    } else {
      TakeMoves(s, s'.g, Closer, s.lock.w, Trailing, t);
    }
  }

  lemma DrainMoves<T>(cfg: Config<T>, s: Sys<T>, s': Sys<T>, t: string)
    requires GateShape(s.g) && GateShape(s'.g) && LockShape(s) && Step(cfg, s, TakeDrain, s')
    ensures Moves(LedgerOf(s, t), LedgerOf(s', t))
  {
    if DrainHits(s.g, s.lock.k) {
      TakeMoves(s, s'.g, Drainer, s.lock.k, InWindow(s.g.ready[s.lock.k]), t);
    } else {
      assert s'.g == s.g;
    }
  }

  /** A delivered item moves from "being sent" or the producer's hand to the end
      of what was delivered: nothing of its target may stand before it. */
  lemma DeliveryMoves<T>(cfg: Config<T>, s: Sys<T>, a: Action<T>, s': Sys<T>, t: string)
    requires a.Send? || a.Route?
    requires Ordered(s) && Step(cfg, s, a, s')
    ensures Moves(LedgerOf(s, t), LedgerOf(s', t))
  {
    if a.Send? { SendMoves(cfg, s, s', t); } else { RouteMoves(cfg, s, s', t); }
  }

  lemma SendMoves<T>(cfg: Config<T>, s: Sys<T>, s': Sys<T>, t: string)
    requires Step(cfg, s, Send, s')
    ensures Moves(LedgerOf(s, t), LedgerOf(s', t))
  {
    ItemsAppend(At(s.out, t), Sent(s.lock.items[0], s.lock.tag));
    assert s.lock.items[..1] == [s.lock.items[0]];
  }

  lemma RouteMoves<T>(cfg: Config<T>, s: Sys<T>, s': Sys<T>, t: string)
    requires Ordered(s) && Step(cfg, s, Route, s')
    ensures Moves(LedgerOf(s, t), LedgerOf(s', t))
  {
    ItemsAppend(At(s.out, t), Sent(s.prod.x, Live));
  }

  lemma ItemsAppend<T>(sent: seq<Sent<T>>, x: Sent<T>)
    ensures Items(sent + [x]) == Items(sent) + [x.item]
  {
  }

  lemma StepMoves<T>(cfg: Config<T>, s: Sys<T>, a: Action<T>, s': Sys<T>, t: string)
    requires GateShape(s.g) && GateShape(s'.g) && LockShape(s) && Ordered(s) && Step(cfg, s, a, s')
    ensures Moves(LedgerOf(s, t), LedgerOf(s', t))
  {
    match a
    case Open(w) => MarksMove(cfg, s, a, s', t);
    case MarkReady(w, id) => MarksMove(cfg, s, a, s', t);
    case ClearReady(w) => MarksMove(cfg, s, a, s', t);
    case HoldAppend(k) => AppendsMove(cfg, s, a, s', t);
    case AppendLoose(_, x, k) => AppendsMove(cfg, s, a, s', t);
    case TakeDrain => DrainMoves(cfg, s, s', t);
    case TakeFlush => TakesMove(cfg, s, a, s', t);
    case TakeClose => TakesMove(cfg, s, a, s', t);
    case Send => DeliveryMoves(cfg, s, a, s', t);
    case Route => DeliveryMoves(cfg, s, a, s', t);
    case _ => QuietMoves(cfg, s, a, s', t);
  }

  /** The other steps touch no held item. */
  lemma QuietMoves<T>(cfg: Config<T>, s: Sys<T>, a: Action<T>, s': Sys<T>, t: string)
    requires !(a.Open? || a.MarkReady? || a.ClearReady? || a.HoldAppend? || a.AppendLoose?)
    requires !(a.TakeDrain? || a.TakeFlush? || a.TakeClose? || a.Send? || a.Route?)
    requires GateShape(s.g) && LockShape(s) && Step(cfg, s, a, s')
    ensures Moves(LedgerOf(s, t), LedgerOf(s', t))
  {
    assert s'.g == s.g;
  }

  lemma MarksMove<T>(cfg: Config<T>, s: Sys<T>, a: Action<T>, s': Sys<T>, t: string)
    requires a.Open? || a.MarkReady? || a.ClearReady?
    requires GateShape(s.g) && GateShape(s'.g) && LockShape(s) && Step(cfg, s, a, s')
    ensures Moves(LedgerOf(s, t), LedgerOf(s', t))
  {
    if a.Open? { HeldForOpened(s.g, a.w, t); } else { SameHeld(s.g, s'.g, t); }
  }

  lemma AppendsMove<T>(cfg: Config<T>, s: Sys<T>, a: Action<T>, s': Sys<T>, t: string)
    requires a.HoldAppend? || a.AppendLoose?
    requires GateShape(s.g) && GateShape(s'.g) && LockShape(s) && Step(cfg, s, a, s')
    ensures Moves(LedgerOf(s, t), LedgerOf(s', t))
  {
    if a.HoldAppend? { HeldForAppend(cfg, s.g, a.k, s.prod.x, t); } else { HeldForAppend(cfg, s.g, a.k, a.x, t); }
  }

  lemma StepInv<T>(cfg: Config<T>, s: Sys<T>, a: Action<T>, s': Sys<T>)
    requires Inv(cfg, s) && Step(cfg, s, a, s')
    ensures Inv(cfg, s')
  {
    StepGate(cfg, s, a, s');
    StepLock(cfg, s, a, s');
    StepWait(cfg, s, a, s');
    StepOrder(cfg, s, a, s');
  }

  // ------------------------------------------------------------- whole runs

  ghost predicate Run<T(!new)>(cfg: Config<T>, r: seq<Sys<T>>) {
    && r != [] && r[0] == Start()
    && forall i :: 0 <= i < |r| - 1 ==> Next(cfg, r[i], r[i + 1])
  }

  ghost predicate Next<T(!new)>(cfg: Config<T>, s: Sys<T>, s': Sys<T>) {
    exists a :: Step(cfg, s, a, s')
  }

  lemma {:induction false} RunInv<T(!new)>(cfg: Config<T>, r: seq<Sys<T>>, i: nat)
    requires Run(cfg, r) && i < |r|
    ensures Inv(cfg, r[i])
    decreases i
  {
    if i == 0 {
      assert LedgerOf(Start<T>(), "").Balanced();
    } else {
      RunInv(cfg, r, i - 1);
      assert Next(cfg, r[i - 1], r[i]);
      var a :| Step(cfg, r[i - 1], a, r[i]);
      StepInv(cfg, r[i - 1], a, r[i]);
    }
  }

  /** In every state of every run, every item offered for a target is delivered,
      being delivered, held or in the producer's hand, in offer order: nothing
      is lost, delivered twice or overtaken, also while Close is sealing. */
  lemma NothingLostOrOvertaken<T(!new)>(cfg: Config<T>, r: seq<Sys<T>>, i: nat, t: string)
    requires Run(cfg, r) && i < |r|
    ensures LedgerOf(r[i], t).Balanced()
    ensures Items(At(r[i].out, t)) <= At(r[i].offered, t)
    ensures NoneOpen(r[i].g, t) ==> BeingSent(r[i], t) == [] && HeldFor(r[i].g, t) == []
  {
    RunInv(cfg, r, i);
    var s := r[i];
    assert LedgerOf(s, t).Balanced();
    assert s.lock.Sending? ==> OpenFor(s.g, s.lock.w.target, s.lock.w);
  }

  /** No lost wake-up: a producer that cannot move on because its wake channel is
      still the current one faces an open window that is full and not ready.
      Whatever opens, readies, empties or seals it also wakes the producer. */
  lemma NoLostWakeUp<T(!new)>(cfg: Config<T>, r: seq<Sys<T>>, i: nat)
    requires Run(cfg, r) && i < |r|
    requires r[i].prod.Waiting? && r[i].prod.drain == r[i].g.drain
    ensures var s := r[i];
      && s.prod.k in s.g.on && s.prod.k.target == s.prod.t && s.prod.k !in s.g.ready
      && var held := Held(s.g, s.prod.k);
         || (cfg.maxCount > 0 && |held| >= cfg.maxCount)
         || (cfg.maxBytes > 0 && TotalSize(cfg.size, held) >= cfg.maxBytes)
  {
    RunInv(cfg, r, i);
    var s := r[i];
    assert Weighed(cfg, Held(s.g, s.prod.k), Tally(s.g, s.prod.k), s.prod.k in s.loose);
  }

  // ------------------------------------------------------------ a closed window

  /** A Close of w is under way. */
  predicate ClosingOf<T>(s: Sys<T>, w: Window) {
    s.lock == CloseEntry(w) || (s.lock.Sending? && s.lock.who.Closer? && s.lock.w == w)
  }

  /** The step with which a Close ends leaves its window not open, and every other
      window as it was. */
  lemma CloseEnds<T>(cfg: Config<T>, s: Sys<T>, a: Action<T>, s': Sys<T>, w: Window)
    requires Step(cfg, s, a, s') && ClosingOf(s, w) && !ClosingOf(s', w)
    ensures s'.g.on == s.g.on - {w} && w !in s'.g.ready && Held(s.g, w) == []
    ensures forall v :: v != w ==> SameWindow(s.g, s'.g, v)
  {
    assert a.TakeClose?;
    CloseRoundEnds(s.g, w);
  }

  /** Only an Open of w opens it. */
  lemma OnlyOpenOpens<T>(cfg: Config<T>, s: Sys<T>, a: Action<T>, s': Sys<T>, w: Window)
    requires Step(cfg, s, a, s') && w !in s.g.on && a != Open(w)
    ensures w !in s'.g.on
  {
  }

  lemma {:induction false} StaysClosed<T(!new)>(cfg: Config<T>, r: seq<Sys<T>>, m: nat, n: nat, w: Window)
    requires Run(cfg, r) && m <= n < |r| && w !in r[m].g.on
    requires forall i :: m <= i < n ==> !OpensAt(cfg, r, i, w)
    ensures w !in r[n].g.on
    decreases n - m
  {
    if m < n {
      StaysClosed(cfg, r, m, n - 1, w);
      assert Next(cfg, r[n - 1], r[n - 1 + 1]) && !OpensAt(cfg, r, n - 1, w);
      StillClosed(cfg, r[n - 1], r[n], w);
    }
  }

  ghost predicate OpensAt<T(!new)>(cfg: Config<T>, r: seq<Sys<T>>, i: nat, w: Window) {
    i + 1 < |r| && Step(cfg, r[i], Open(w), r[i + 1])
  }

  lemma StillClosed<T(!new)>(cfg: Config<T>, s: Sys<T>, s': Sys<T>, w: Window)
    requires Next(cfg, s, s') && !Step(cfg, s, Open(w), s') && w !in s.g.on
    ensures w !in s'.g.on
  {
    var a :| Step(cfg, s, a, s');
    OnlyOpenOpens(cfg, s, a, s', w);
  }

  predicate HoldPasses<T>(a: Action<T>) { a.HoldMiss? || a.HoldAppend? || a.HoldDrain? || a.HoldWait? }

  /** Once a Close of w has ended and until w is opened again, an item of its target
      is not held: with no other window of the target open, whatever the pass of Hold
      does is to let it through. */
  lemma ClosedWindowHoldsNothing<T(!new)>(cfg: Config<T>, r: seq<Sys<T>>, m: nat, n: nat, w: Window,
                                          a: Action<T>, s': Sys<T>)
    requires Run(cfg, r) && 0 < m <= n < |r| && ClosingOf(r[m - 1], w) && !ClosingOf(r[m], w)
    requires forall i :: m <= i < n ==> !OpensAt(cfg, r, i, w)
    ensures w !in r[n].g.on
    ensures
      && (forall v :: v in r[n].g.on && v.target == w.target ==> v == w)
      && r[n].prod.Checking? && r[n].prod.t == w.target && HoldPasses(a) && Step(cfg, r[n], a, s')
      ==> s' == r[n].(prod := Routing(w.target, r[n].prod.x))
  {
    assert Next(cfg, r[m - 1], r[m - 1 + 1]);
    var b :| Step(cfg, r[m - 1], b, r[m]);
    CloseEnds(cfg, r[m - 1], b, r[m], w);
    StaysClosed(cfg, r, m, n, w);
  }

  /** The byte tally of an open window is the sum of what it holds, and a window
      fed only by Hold keeps to its bounds. */
  lemma WindowsWithinBounds<T(!new)>(cfg: Config<T>, r: seq<Sys<T>>, i: nat, k: Window)
    requires Run(cfg, r) && i < |r| && k in r[i].g.on
    ensures Weighed(cfg, Held(r[i].g, k), Tally(r[i].g, k), k in r[i].loose)
  {
    RunInv(cfg, r, i);
  }
}
