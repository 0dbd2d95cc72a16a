/** What follows when a worker session uses a window number again: from any state
    that marks a number whose Closes marker is queued, the run can go on to a batch
    tagged with that number behind the marker. */
module SingleReuse {
  import opened Text
  import opened Gate
  import opened GateRuns
  import opened Queues
  import opened SingleRelay

  // -------------------------------------------------------------- going on

  ghost predicate Path<T(!new)>(e: Setup<T>, rs: seq<Relay<T>>, r: Relay<T>, r': Relay<T>) {
    && rs != [] && rs[0] == r && rs[|rs| - 1] == r'
    && forall i :: 0 <= i < |rs| - 1 ==> RNext(e, rs[i], rs[i + 1])
  }

  ghost predicate Leads<T(!new)>(e: Setup<T>, r: Relay<T>, r': Relay<T>) { exists rs :: Path(e, rs, r, r') }

  lemma LeadsNowhere<T(!new)>(e: Setup<T>, r: Relay<T>)
    ensures Leads(e, r, r)
  {
    assert Path(e, [r], r, r);
  }

  lemma LeadsOne<T(!new)>(e: Setup<T>, r: Relay<T>, m: Move<T>, r': Relay<T>)
    requires RStep(e, r, m, r')
    ensures Leads(e, r, r')
  {
    assert RNext(e, r, r');
    assert Path(e, [r, r'], r, r');
  }

  lemma LeadsOn<T(!new)>(e: Setup<T>, a: Relay<T>, b: Relay<T>, c: Relay<T>)
    requires Leads(e, a, b) && Leads(e, b, c)
    ensures Leads(e, a, c)
  {
    var rs :| Path(e, rs, a, b);
    var ss :| Path(e, ss, b, c);
    var all := rs + ss[1..];
    forall i | 0 <= i < |all| - 1 ensures RNext(e, all[i], all[i + 1]) {
      if i < |rs| - 1 {
        assert RNext(e, rs[i], rs[i + 1]);
      } else {
        assert RNext(e, ss[i - (|rs| - 1)], ss[i - (|rs| - 1) + 1]);
      }
    }
    assert Path(e, all, a, c);
  }

  /** A run goes on along a path. */
  lemma RunsOn<T(!new)>(e: Setup<T>, rs: seq<Relay<T>>, r': Relay<T>) returns (rs': seq<Relay<T>>)
    requires RRun(e, rs) && Leads(e, rs[|rs| - 1], r')
    ensures RRun(e, rs') && rs <= rs' && rs'[|rs'| - 1] == r'
  {
    var ss :| Path(e, ss, rs[|rs| - 1], r');
    rs' := rs + ss[1..];
    forall i | 0 <= i < |rs'| - 1 ensures RNext(e, rs'[i], rs'[i + 1]) {
      if i < |rs| - 1 {
        assert RNext(e, rs[i], rs[i + 1]);
      } else {
        assert RNext(e, ss[i - (|rs| - 1)], ss[i - (|rs| - 1) + 1]);
      }
    }
  }

  /** The relay waits for the reader with window id marked. */
  ghost predicate Here<T(!new)>(e: Setup<T>, r: Relay<T>, id: WindowId) {
    RInv(e, r, false) && r.pc == Marked(id)
  }

  ghost predicate To<T(!new)>(e: Setup<T>, r: Relay<T>, id: WindowId, r': Relay<T>) {
    Leads(e, r, r') && Here(e, r', id) && r.q <= r'.q
  }

  lemma ToHere<T(!new)>(e: Setup<T>, r: Relay<T>, id: WindowId)
    requires Here(e, r, id)
    ensures To(e, r, id, r)
  {
    LeadsNowhere(e, r);
  }

  lemma ToOn<T(!new)>(e: Setup<T>, a: Relay<T>, id: WindowId, b: Relay<T>, c: Relay<T>)
    requires To(e, a, id, b) && To(e, b, id, c)
    ensures To(e, a, id, c)
  {
    LeadsOn(e, a, b, c);
  }

  /** Meanwhile the others may take any step of theirs. */
  lemma Others<T(!new)>(e: Setup<T>, r: Relay<T>, id: WindowId, a: Action<T>, s: Sys<T>) returns (r': Relay<T>)
    requires Here(e, r, id) && EnvMay(e.win.target, false, a) && Step(e.cfg, r.sys, a, s)
    ensures To(e, r, id, r') && r'.sys == s
    ensures !a.Send? && !a.Route? ==> r'.q == r.q && r'.names == r.names
  {
    var m := Handed(r.sys, a, e.win.target);
    r' := r.(sys := s, tag := Tagging(r, a), q := r.q + (if m.Some? then [m.value] else []),
             names := r.names + (if m.Some? then [r.tag] else []));
    LeadsOne(e, r, Env(a), r');
    RStepInv(e, r, Env(a), r', false);
  }

  // ---------------------------------------------- the flush lock can be freed

  lemma {:induction false} SendsAll<T(!new)>(e: Setup<T>, r: Relay<T>, id: WindowId) returns (r': Relay<T>)
    requires Here(e, r, id) && r.sys.lock.Sending?
    ensures To(e, r, id, r') && r'.sys.lock == r.sys.lock.(items := [])
    ensures r'.sys.g == r.sys.g && r'.sys.prod == r.sys.prod
    decreases |r.sys.lock.items|
  {
    if r.sys.lock.items == [] {
      r' := r;
      ToHere(e, r, id);
    } else {
      var s, l := r.sys, r.sys.lock;
      var one := Others(e, r, id, Send, s.(lock := l.(items := l.items[1..]),
                                           out := Add(s.out, l.w.target, Sent(l.items[0], l.tag))));
      r' := SendsAll(e, one, id);
      ToOn(e, r, id, one, r');
    }
  }

  /** A drain or a flush under way ends with the lock free. */
  lemma EndsSend<T(!new)>(e: Setup<T>, r: Relay<T>, id: WindowId) returns (r': Relay<T>)
    requires Here(e, r, id) && r.sys.lock.Sending? && !r.sys.lock.who.Closer?
    ensures To(e, r, id, r') && r'.sys.lock.Free? && r'.sys.g == r.sys.g
    ensures r.sys.prod.Draining? ==> r'.sys.prod == Checking(r.sys.prod.t, r.sys.prod.x)
  {
    var sent := SendsAll(e, r, id);
    r' := Others(e, sent, id, Unlock, Released(sent.sys, sent.sys.lock.who));
    ToOn(e, r, id, sent, r');
  }

  lemma EndsDrain<T(!new)>(e: Setup<T>, r: Relay<T>, id: WindowId) returns (r': Relay<T>)
    requires Here(e, r, id) && r.sys.lock.DrainEntry?
    ensures To(e, r, id, r') && r'.sys.lock.Free? && r'.sys.g == Drained(r.sys.g, r.sys.lock.k)
    ensures r.sys.prod.Draining? && r'.sys.prod == Checking(r.sys.prod.t, r.sys.prod.x)
  {
    var taken := DrainTakes(e, r, id);
    if taken.sys.lock.Sending? {
      r' := EndsSend(e, taken, id);
      ToOn(e, r, id, taken, r');
    } else {
      r' := taken;
    }
  }

  lemma DrainTakes<T(!new)>(e: Setup<T>, r: Relay<T>, id: WindowId) returns (r': Relay<T>)
    requires Here(e, r, id) && r.sys.lock.DrainEntry?
    ensures To(e, r, id, r') && r'.sys.g == Drained(r.sys.g, r.sys.lock.k) && r.sys.prod.Draining?
    ensures || (r'.sys.lock.Free? && r'.sys.prod == Checking(r.sys.prod.t, r.sys.prod.x))
            || (r'.sys.lock.Sending? && r'.sys.lock.who.Drainer? && r'.sys.prod == r.sys.prod)
  {
    var s, k := r.sys, r.sys.lock.k;
    var next := if DrainHits(s.g, k)
                then AfterTake(s, Drained(s.g, k), Drainer, k, InWindow(s.g.ready[k]), Held(s.g, k))
                else Released(s, Drainer);
    r' := Others(e, r, id, TakeDrain, next);
  }

  lemma EndsFlush<T(!new)>(e: Setup<T>, r: Relay<T>, id: WindowId) returns (r': Relay<T>)
    requires Here(e, r, id) && r.sys.lock.FlushEntry?
    ensures To(e, r, id, r') && r'.sys.lock.Free?
  {
    var s, l := r.sys, r.sys.lock;
    var next := AfterTake(s, Flushed(s.g, l.w), Flusher, l.w, InWindow(l.id), Held(s.g, l.w));
    r' := Others(e, r, id, TakeFlush, next);
    if next.lock.Sending? {
      var taken := r';
      r' := EndsSend(e, taken, id);
      ToOn(e, r, id, taken, r');
    }
  }

  /** A close with nothing held seals, and is over. */
  lemma EndsEmptyClose<T(!new)>(e: Setup<T>, r: Relay<T>, id: WindowId) returns (r': Relay<T>)
    requires Here(e, r, id) && r.sys.lock.CloseEntry? && Held(r.sys.g, r.sys.lock.w) == []
    ensures To(e, r, id, r') && r'.sys.lock.Free?
  {
    var s, w := r.sys, r.sys.lock.w;
    r' := Others(e, r, id, TakeClose, AfterTake(s, CloseRound(s.g, w), Closer, w, Trailing, Held(s.g, w)));
  }

  lemma ReturnsToClose<T(!new)>(e: Setup<T>, r: Relay<T>, id: WindowId) returns (r': Relay<T>)
    requires Here(e, r, id) && r.sys.lock.Sending? && r.sys.lock.who.Closer?
    ensures To(e, r, id, r') && r'.sys.lock == CloseEntry(r.sys.lock.w) && r'.sys.g == r.sys.g
  {
    var sent := SendsAll(e, r, id);
    r' := Others(e, sent, id, Unlock, sent.sys.(lock := CloseEntry(sent.sys.lock.w)));
    ToOn(e, r, id, sent, r');
  }

  lemma EndsClose<T(!new)>(e: Setup<T>, r: Relay<T>, id: WindowId) returns (r': Relay<T>)
    requires Here(e, r, id) && r.sys.lock.CloseEntry?
    ensures To(e, r, id, r') && r'.sys.lock.Free?
  {
    var s, w := r.sys, r.sys.lock.w;
    if Held(s.g, w) == [] {
      r' := EndsEmptyClose(e, r, id);
    } else {
      var taken := Others(e, r, id, TakeClose, AfterTake(s, CloseRound(s.g, w), Closer, w, Trailing, Held(s.g, w)));
      var back := ReturnsToClose(e, taken, id);
      r' := EndsEmptyClose(e, back, id);
      ToOn(e, r, id, taken, back);
      ToOn(e, r, id, back, r');
    }
  }

  /** Whoever holds the flush lock can give it back. */
  lemma FreesLock<T(!new)>(e: Setup<T>, r: Relay<T>, id: WindowId) returns (r': Relay<T>)
    requires Here(e, r, id)
    ensures To(e, r, id, r') && r'.sys.lock.Free?
  {
    match r.sys.lock
    case Free =>
      r' := r;
      ToHere(e, r, id);
    case Borrowed => r' := Others(e, r, id, Return, r.sys.(lock := Free));
    case DrainEntry(_) => r' := EndsDrain(e, r, id);
    case FlushEntry(_, _) => r' := EndsFlush(e, r, id);
    case CloseEntry(_) => r' := EndsClose(e, r, id);
    case Sending(who, _, _, _) =>
      if who.Closer? {
        var back := ReturnsToClose(e, r, id);
        r' := EndsClose(e, back, id);
        ToOn(e, r, id, back, r');
      } else {
        r' := EndsSend(e, r, id);
      }
  }

  // ---------------------------------------------- the producer can come to rest

  ghost predicate Rests<T>(r: Relay<T>) { r.sys.lock.Free? && r.sys.prod.Idle? }

  lemma EmptyIsNotFull<T(!new)>(e: Setup<T>, r: Relay<T>, k: Window)
    requires GateInv(e.cfg, r.sys.g, r.sys.loose) && Held(r.sys.g, k) == []
    ensures !Full(e.cfg, r.sys.g, k)
  {
    if k in r.sys.g.on {
      assert Weighed(e.cfg, Held(r.sys.g, k), Tally(r.sys.g, k), k in r.sys.loose);
    }
  }

  lemma AppendRests<T(!new)>(e: Setup<T>, r: Relay<T>, id: WindowId, k: Window) returns (r': Relay<T>)
    requires Here(e, r, id) && r.sys.lock.Free? && r.sys.prod.Checking? && OpenFor(r.sys.g, r.sys.prod.t, k)
    requires !Full(e.cfg, r.sys.g, k)
    ensures To(e, r, id, r') && Rests(r') && r'.sys.g == Append(e.cfg, r.sys.g, k, r.sys.prod.x)
    ensures r'.q == r.q && r'.names == r.names
  {
    OnlyOneOpen(r.sys.g, r.sys.prod.t, k);
    var s := r.sys;
    r' := Others(e, r, id, HoldAppend(k), s.(prod := Idle, g := Append(e.cfg, s.g, k, s.prod.x)));
  }

  lemma OnlyOneOpen<T>(g: State<T>, t: string, k: Window)
    requires GateShape(g) && OpenFor(g, t, k)
    ensures IsOpenKey(g, t, k)
  {
  }

  /** Full and ready: the producer drains the window itself, and then has room. */
  lemma DrainRests<T(!new)>(e: Setup<T>, r: Relay<T>, id: WindowId, k: Window) returns (r': Relay<T>)
    requires Here(e, r, id) && r.sys.lock.Free? && r.sys.prod.Checking? && OpenFor(r.sys.g, r.sys.prod.t, k)
    requires Full(e.cfg, r.sys.g, k) && k in r.sys.g.ready
    ensures To(e, r, id, r') && Rests(r')
  {
    OnlyOneOpen(r.sys.g, r.sys.prod.t, k);
    var t, x := r.sys.prod.t, r.sys.prod.x;
    var wants := Others(e, r, id, HoldDrain(k), r.sys.(prod := WantsDrain(t, x, k)));
    var drains := TakesDrain(e, wants, id);
    EmptyIsNotFull(e, drains, k);
    r' := AppendRests(e, drains, id, k);
    ToOn(e, r, id, wants, drains);
    ToOn(e, r, id, drains, r');
  }

  lemma TakesDrain<T(!new)>(e: Setup<T>, r: Relay<T>, id: WindowId) returns (r': Relay<T>)
    requires Here(e, r, id) && r.sys.lock.Free? && r.sys.prod.WantsDrain?
    ensures To(e, r, id, r') && r'.sys.lock.Free? && r'.sys.prod == Checking(r.sys.prod.t, r.sys.prod.x)
    ensures r'.sys.g == Drained(r.sys.g, r.sys.prod.k)
  {
    var s := r.sys;
    var locked := Others(e, r, id, LockDrain, s.(lock := DrainEntry(s.prod.k), prod := Draining(s.prod.t, s.prod.x)));
    r' := EndsDrain(e, locked, id);
    ToOn(e, r, id, locked, r');
  }

  /** Another table's window: its own relay may mark it. The relay's own is marked. */
  lemma Readies<T(!new)>(e: Setup<T>, r: Relay<T>, id: WindowId, k: Window) returns (r': Relay<T>)
    requires Here(e, r, id) && k in r.sys.g.on && k !in r.sys.g.ready
    ensures To(e, r, id, r') && r'.sys == r.sys.(g := MarkedReady(r.sys.g, k, 0))
  {
    assert k.target == e.win.target ==> k == e.win;
    r' := Others(e, r, id, MarkReady(k, 0), r.sys.(g := MarkedReady(r.sys.g, k, 0)));
  }

  lemma CheckingRests<T(!new)>(e: Setup<T>, r: Relay<T>, id: WindowId) returns (r': Relay<T>)
    requires Here(e, r, id) && r.sys.lock.Free? && r.sys.prod.Checking?
    ensures To(e, r, id, r') && Rests(r')
  {
    var s := r.sys;
    if k :| OpenFor(s.g, s.prod.t, k) {
      if !Full(e.cfg, s.g, k) {
        r' := AppendRests(e, r, id, k);
      } else if k in s.g.ready {
        r' := DrainRests(e, r, id, k);
      } else {
        var marked := Readies(e, r, id, k);
        r' := DrainRests(e, marked, id, k);
        ToOn(e, r, id, marked, r');
      }
    } else {
      var missed := Others(e, r, id, HoldMiss, s.(prod := Routing(s.prod.t, s.prod.x)));
      r' := RoutingRests(e, missed, id);
      ToOn(e, r, id, missed, r');
    }
  }

  lemma RoutingRests<T(!new)>(e: Setup<T>, r: Relay<T>, id: WindowId) returns (r': Relay<T>)
    requires Here(e, r, id) && r.sys.lock.Free? && r.sys.prod.Routing?
    ensures To(e, r, id, r') && Rests(r')
  {
    var s := r.sys;
    r' := Others(e, r, id, Route, s.(prod := Idle, out := Add(s.out, s.prod.t, Sent(s.prod.x, Live))));
  }

  lemma WakesUp<T(!new)>(e: Setup<T>, r: Relay<T>, id: WindowId) returns (r': Relay<T>)
    requires Here(e, r, id) && r.sys.lock.Free? && r.sys.prod.Waiting?
    ensures To(e, r, id, r') && r'.sys.lock.Free? && r'.sys.prod.Checking?
  {
    var s, woken := r.sys, r;
    ToHere(e, r, id);
    if s.prod.drain == s.g.drain { woken := Readies(e, r, id, s.prod.k); }
    r' := Others(e, woken, id, WakeUp, woken.sys.(prod := Checking(s.prod.t, s.prod.x)));
    ToOn(e, r, id, woken, r');
  }

  /** From every reachable state the producer can come to rest with the lock free:
      nobody is stuck. */
  lemma ComesToRest<T(!new)>(e: Setup<T>, r: Relay<T>, id: WindowId) returns (r': Relay<T>)
    requires Here(e, r, id)
    ensures To(e, r, id, r') && Rests(r')
  {
    var free := FreesLock(e, r, id);
    var next := free;
    ToHere(e, free, id);
    match free.sys.prod {
      case WantsDrain(_, _, _) => next := TakesDrain(e, free, id);
      case Waiting(_, _, _, _) => next := WakesUp(e, free, id);
      case _ =>
    }
    ToOn(e, r, id, free, next);
    if next.sys.prod.Checking? {
      r' := CheckingRests(e, next, id);
    } else if next.sys.prod.Routing? {
      r' := RoutingRests(e, next, id);
    } else {
      r' := next;
      ToHere(e, next, id);
    }
    ToOn(e, r, id, next, r');
  }

  // ------------------------------------------------ a batch behind the marker

  lemma Offers<T(!new)>(e: Setup<T>, r: Relay<T>, id: WindowId, x: T) returns (r': Relay<T>)
    requires Here(e, r, id) && Rests(r) && Held(r.sys.g, e.win) == []
    ensures To(e, r, id, r') && Rests(r') && Held(r'.sys.g, e.win) == [x]
    ensures r'.q == r.q && r'.names == r.names
  {
    var s, t := r.sys, e.win.target;
    var offered := Others(e, r, id, Offer(t, x), s.(prod := Checking(t, x), offered := Add(s.offered, t, x)));
    EmptyIsNotFull(e, offered, e.win);
    r' := AppendRests(e, offered, id, e.win);
    ToOn(e, r, id, offered, r');
  }

  lemma FlushLocks<T(!new)>(e: Setup<T>, r: Relay<T>, id: WindowId) returns (r': Relay<T>)
    requires r.pc == Marked(id) && r.sys.lock.Free?
    ensures Leads(e, r, r') && r' == r.(sys := r.sys.(lock := FlushEntry(e.win, id.num)), pc := Flushing(id))
  {
    r' := r.(sys := r.sys.(lock := FlushEntry(e.win, id.num)), pc := Flushing(id));
    assert r.q + [] == r.q && r.names + [] == r.names;
    LeadsOne(e, r, FlushLock, r');
  }

  lemma FlushTakes<T(!new)>(e: Setup<T>, r: Relay<T>, id: WindowId) returns (r': Relay<T>)
    requires r.pc == Flushing(id) && r.sys.lock == FlushEntry(e.win, id.num) && Held(r.sys.g, e.win) != []
    ensures Leads(e, r, r') && r'.pc == Flushing(id) && r'.tag == id && r'.q == r.q && r'.names == r.names
    ensures r'.sys.lock == Sending(Flusher, e.win, InWindow(id.num), Held(r.sys.g, e.win))
  {
    var s := r.sys;
    var lock := Sending(Flusher, e.win, InWindow(id.num), Held(s.g, e.win));
    r' := r.(sys := s.(g := Flushed(s.g, e.win), lock := lock), tag := id);
    assert r.q + [] == r.q && r.names + [] == r.names;
    LeadsOne(e, r, FlushTake, r');
  }

  lemma FlushSends<T(!new)>(e: Setup<T>, r: Relay<T>, id: WindowId, items: seq<T>) returns (r': Relay<T>)
    requires r.pc == Flushing(id) && r.tag == id && items != []
    requires r.sys.lock == Sending(Flusher, e.win, InWindow(id.num), items)
    ensures Leads(e, r, r') && r'.q == r.q + [Tagged(id.num, items[0])] && r'.names == r.names + [id]
  {
    var s := r.sys;
    var out := Add(s.out, e.win.target, Sent(items[0], InWindow(id.num)));
    r' := r.(sys := s.(lock := s.lock.(items := items[1..]), out := out),
             q := r.q + [Tagged(id.num, items[0])], names := r.names + [id]);
    LeadsOne(e, r, FlushSend, r');
  }

  /** With something held and the lock free, the relay's own flush sends it tagged. */
  lemma FlushTags<T(!new)>(e: Setup<T>, r: Relay<T>, id: WindowId) returns (r': Relay<T>)
    requires r.pc == Marked(id) && r.sys.lock.Free? && Held(r.sys.g, e.win) != []
    ensures Leads(e, r, r') && r'.q == r.q + [Tagged(id.num, Held(r.sys.g, e.win)[0])] && r'.names == r.names + [id]
  {
    var a := FlushLocks(e, r, id);
    var b := FlushTakes(e, a, id);
    r' := FlushSends(e, b, id, Held(r.sys.g, e.win));
    LeadsOn(e, r, a, b);
    LeadsOn(e, r, b, r');
  }

  /** A batch tagged with a number stands behind that number's Closes marker. */
  ghost predicate Follows<T>(q: seq<Msg<T>>, num: nat) {
    exists i, j :: 0 <= i < j < |q| && q[i] == Closes(num) && q[j].Tagged? && q[j].id == num
  }

  /** At rest with nothing held, a batch offered is the next one sent, tagged. */
  lemma TagsNext<T(!new)>(e: Setup<T>, r: Relay<T>, id: WindowId, x: T) returns (r': Relay<T>)
    requires Here(e, r, id) && Rests(r) && Held(r.sys.g, e.win) == []
    ensures Leads(e, r, r') && r'.q == r.q + [Tagged(id.num, x)] && r'.names == r.names + [id]
  {
    var held := Offers(e, r, id, x);
    r' := FlushTags(e, held, id);
    LeadsOn(e, r, held, r');
  }

  lemma TagsOne<T(!new)>(e: Setup<T>, r: Relay<T>, id: WindowId, x: T) returns (r': Relay<T>)
    requires Here(e, r, id)
    ensures Leads(e, r, r') && r.q < r'.q && r'.q[|r'.q| - 1].Tagged? && r'.q[|r'.q| - 1].id == id.num
  {
    var rest := ComesToRest(e, r, id);
    if Held(rest.sys.g, e.win) == [] {
      r' := TagsNext(e, rest, id, x);
    } else {
      r' := FlushTags(e, rest, id);
    }
    LeadsOn(e, r, rest, r');
  }

  /** From every reachable state that has marked a number whose Closes marker is
      queued, whatever the producer and the holders of the flush lock are doing, the
      run can go on to a batch that follows the marker of its own number. */
  lemma ReuseCanFollow<T(!new)>(e: Setup<T>, rs: seq<Relay<T>>, id: WindowId, x: T) returns (rs': seq<Relay<T>>)
    requires RRun(e, rs) && rs[|rs| - 1].pc == Marked(id) && Closes(id.num) in rs[|rs| - 1].q
    ensures RRun(e, rs') && rs <= rs' && Follows(rs'[|rs'| - 1].q, id.num)
  {
    var r := rs[|rs| - 1];
    RRunInv(e, rs, |rs| - 1, false);
    var r' := TagsOne(e, r, id, x);
    rs' := RunsOn(e, rs, r');
    var i :| 0 <= i < |r.q| && r.q[i] == Closes(id.num);
    assert r'.q[i] == Closes(id.num);
  }

  // ------------------------------------------------------ the run with a loss

  lemma OpensLocked<T(!new)>(e: Setup<T>) returns (r: Relay<T>)
    ensures Leads(e, Begin(), r)
    ensures r == Begin<T>().(sys := Start<T>().(lock := Borrowed, g := Opened(Init(), e.win)), pc := Opening)
  {
    var a := Begin<T>().(sys := Start<T>().(lock := Borrowed), pc := OpenLocked);
    LeadsOne(e, Begin(), OpenLock, a);
    r := a.(sys := a.sys.(g := Opened(Init(), e.win)), pc := Opening);
    LeadsOne(e, a, OpenGate, r);
    LeadsOn(e, Begin(), a, r);
  }

  lemma OpensWindow<T(!new)>(e: Setup<T>) returns (r: Relay<T>)
    ensures Leads(e, Begin(), r) && r == Begin<T>().(sys := Start<T>().(g := Opened(Init(), e.win)), pc := Between)
  {
    var a := OpensLocked(e);
    r := a.(sys := a.sys.(lock := Free), pc := Between);
    LeadsOne(e, a, OpenReturn, r);
    LeadsOn(e, Begin(), a, r);
  }

  lemma MarksWindow<T(!new)>(e: Setup<T>, r: Relay<T>, num: nat) returns (r': Relay<T>)
    requires r.pc.Between? && num > r.last
    ensures Leads(e, r, r') && r'.pc == Marked(WindowId(r.attempt, num))
    ensures r' == r.(sys := r.sys.(g := MarkedReady(r.sys.g, e.win, num)), pc := r'.pc, last := num, mark := r'.pc.id)
  {
    var id := WindowId(r.attempt, num);
    r' := r.(sys := r.sys.(g := MarkedReady(r.sys.g, e.win, num)), pc := Marked(id), last := num, mark := id);
    assert r.q + [] == r.q && r.names + [] == r.names;
    LeadsOne(e, r, Mark(num), r');
  }

  lemma FlushTakesNothing<T(!new)>(e: Setup<T>, r: Relay<T>, id: WindowId) returns (r': Relay<T>)
    requires r.pc == Flushing(id) && r.sys.lock == FlushEntry(e.win, id.num) && Held(r.sys.g, e.win) == []
    ensures Leads(e, r, r')
    ensures r' == r.(sys := r.sys.(g := Flushed(r.sys.g, e.win), lock := Free), pc := FlushDone(id), tag := id)
  {
    r' := r.(sys := r.sys.(g := Flushed(r.sys.g, e.win), lock := Free), pc := FlushDone(id), tag := id);
    assert r.q + [] == r.q && r.names + [] == r.names;
    LeadsOne(e, r, FlushTake, r');
  }

  /** A session's first window is marked, and flushed with nothing held. */
  lemma FirstSessionFlushes<T(!new)>(e: Setup<T>) returns (r: Relay<T>)
    ensures Leads(e, Begin(), r) && r.pc == FlushDone(WindowId(0, 1)) && r.q == [] && r.names == [] && r.closed == {}
    ensures r.attempt == 0 && r.last == 1 && Rests(r) && e.win in r.sys.g.on && Held(r.sys.g, e.win) == []
  {
    var o := OpensWindow(e);
    var a := MarksWindow(e, o, 1);
    var b := FlushLocks(e, a, WindowId(0, 1));
    r := FlushTakesNothing(e, b, WindowId(0, 1));
    LeadsOn(e, Begin(), o, a);
    LeadsOn(e, Begin(), a, b);
    LeadsOn(e, Begin(), b, r);
  }

  /** It is closed, the session is lost, and the relay goes on with the next one. */
  lemma LosesSession<T(!new)>(e: Setup<T>, r: Relay<T>) returns (r': Relay<T>)
    requires r.pc == FlushDone(WindowId(0, 1)) && r.q == [] && r.names == [] && r.attempt == 0
    ensures Leads(e, r, r') && r'.pc.Between? && r'.q == [Closes(1)] && r'.names == [WindowId(0, 1)]
    ensures r'.attempt == 1 && r'.last == 0 && r'.sys == r.sys.(g := ClearedReady(r.sys.g, e.win))
  {
    var closed := r.(pc := Between, q := [Closes(1)], names := [WindowId(0, 1)], closed := r.closed + {WindowId(0, 1)});
    LeadsOne(e, r, QueueCloses, closed);
    r' := closed.(sys := r.sys.(g := ClearedReady(r.sys.g, e.win)), attempt := 1, last := 0);
    LeadsOne(e, closed, Redo(1), r');
    LeadsOn(e, r, closed, r');
  }

  /** The next session numbers its first window one again. */
  lemma SecondSessionMarks<T(!new)>(e: Setup<T>) returns (rs: seq<Relay<T>>, r: Relay<T>)
    ensures RRun(e, rs) && rs[|rs| - 1] == r && Here(e, r, WindowId(1, 1)) && Rests(r)
    ensures r.q == [Closes(1)] && r.names == [WindowId(0, 1)] && Held(r.sys.g, e.win) == []
  {
    var first := FirstSessionFlushes(e);
    var lost := LosesSession(e, first);
    r := MarksWindow(e, lost, 1);
    LeadsOn(e, Begin(), first, lost);
    LeadsOn(e, Begin(), lost, r);
    rs := RunsOn(e, [Begin()], r);
    RRunInv(e, rs, |rs| - 1, false);
  }

  /** After one loss, whatever the gate's bounds: the second session's first window is
      tagged one, behind the Closes marker of the first session's. */
  lemma LossReusesNumber<T(!new)>(e: Setup<T>, x: T) returns (rs: seq<Relay<T>>)
    ensures RRun(e, rs) && rs[|rs| - 1].q == [Closes(1), Tagged(1, x)]
    ensures Follows(rs[|rs| - 1].q, 1) && rs[|rs| - 1].names == [WindowId(0, 1), WindowId(1, 1)]
  {
    var before, r := SecondSessionMarks(e);
    var r' := TagsNext(e, r, WindowId(1, 1), x);
    rs := RunsOn(e, before, r');
    assert r'.q[0] == Closes(1) && r'.q[1] == Tagged(1, x);
  }
}
