/** The DBLog window gate (internal/gate): a set of bounded, keyed windows that
    hold live items while a snapshot chunk is read.

    `State` is what the gate's mutex guards; each function below is one critical
    section of the source, and the class `Gate` runs the same sections on
    mutable fields. How the sections interleave is in GateRuns.dfy. */
module Gate {
  import opened Text

  datatype Window = Window(target: string, partition: int)

  /** The source keys its maps by the text "%s#%d" of a window. */
  function KeyOf(w: Window): string {
    w.target + ['#'] + FormatInt(w.partition)
  }

  /** Two windows never share a map key, whatever characters a target holds:
      the partition's digits follow the last '#'. The maps below are keyed by
      the window itself on the strength of this. */
  lemma KeyInjective(v: Window, w: Window)
    ensures KeyOf(v) == KeyOf(w) <==> v == w
  {
    if KeyOf(v) == KeyOf(w) {
      FormatIntChars(v.partition);
      FormatIntChars(w.partition);
      LastSeparator(v.target, FormatInt(v.partition), w.target, FormatInt(w.partition), '#');
      FormatIntInjective(v.partition, w.partition);
    }
  }

  /** The bounds of one window; a bound of zero or less is unlimited. */
  datatype Config<!T> = Config(maxCount: int, maxBytes: int, size: T -> nat)

  /** What the gate's mutex guards: the open windows (the source's `on` and
      `win`, always changed together), what each holds and weighs, and the
      window id each is ready for. The wake channel is an epoch: closing and
      replacing it moves to the next one. */
  datatype State<T> = State(
    on: set<Window>,
    buf: map<Window, seq<T>>,
    bytes: map<Window, int>,
    ready: map<Window, nat>,
    drain: nat)

  function Init<T>(): State<T> { State({}, map[], map[], map[], 0) }

  /** A Go map read: the zero value for an absent key. */
  function Held<T>(s: State<T>, k: Window): seq<T> { if k in s.buf then s.buf[k] else [] }

  function Tally<T>(s: State<T>, k: Window): int { if k in s.bytes then s.bytes[k] else 0 }

  function TotalSize<T>(size: T -> nat, items: seq<T>): nat {
    if items == [] then 0 else TotalSize(size, items[..|items| - 1]) + size(items[|items| - 1])
  }

  function Wake<T>(s: State<T>): State<T> { s.(drain := s.drain + 1) }

  function Take<T>(s: State<T>, k: Window): State<T> {
    s.(buf := s.buf - {k}, bytes := s.bytes - {k})
  }

  function Seal<T>(s: State<T>, k: Window): State<T> {
    Wake(s.(on := s.on - {k}, ready := s.ready - {k}))
  }

  function Append<T>(cfg: Config<T>, s: State<T>, k: Window, x: T): State<T> {
    s.(buf := s.buf[k := Held(s, k) + [x]], bytes := s.bytes[k := Tally(s, k) + cfg.size(x)])
  }

  predicate Full<T>(cfg: Config<T>, s: State<T>, k: Window) {
    || (cfg.maxCount > 0 && |Held(s, k)| >= cfg.maxCount)
    || (cfg.maxBytes > 0 && Tally(s, k) >= cfg.maxBytes)
  }

  /** k is an open window of target. */
  predicate OpenFor<T>(s: State<T>, target: string, k: Window) {
    k in s.on && k.target == target
  }

  /** k is the open window of target with the lowest partition: the one Hold uses. */
  ghost predicate IsOpenKey<T>(s: State<T>, target: string, k: Window) {
    && OpenFor(s, target, k)
    && forall j :: OpenFor(s, target, j) ==> k.partition <= j.partition
  }

  ghost predicate NoneOpen<T>(s: State<T>, target: string) {
    forall k :: !OpenFor(s, target, k)
  }

  function Opened<T>(s: State<T>, w: Window): State<T> {
    s.(on := s.on + {w})
  }

  function MarkedReady<T>(s: State<T>, w: Window, id: nat): State<T> {
    if w in s.on then Wake(s.(ready := s.ready[w := id])) else s
  }

  function ClearedReady<T>(s: State<T>, w: Window): State<T> {
    s.(ready := s.ready - {w})
  }

  /** The take of Flush: the window loses its items and its readiness. */
  function Flushed<T>(s: State<T>, w: Window): State<T> {
    var t := Take(s, w);
    Wake(t.(ready := t.ready - {w}))
  }

  /** One round of Close: take what is held, and seal once nothing was. */
  function CloseRound<T>(s: State<T>, w: Window): State<T> {
    var t := Take(s, w);
    var u := t.(ready := t.ready - {w});
    if Held(s, w) == [] then Seal(u, w) else Wake(u)
  }

  /** The take of an early drain: only while the window is ready and open. */
  predicate DrainHits<T>(s: State<T>, k: Window) { k in s.ready && k in s.on }

  function Drained<T>(s: State<T>, k: Window): State<T> {
    if DrainHits(s, k) then Wake(Take(s, k)) else s
  }

  /** What the sections do, field by field. A round of Close that finds nothing held
      is the last: the window is no longer open or marked. One that finds something
      takes it and leaves the window open. No round touches another window. */
  lemma CloseRoundEnds<T>(s: State<T>, w: Window)
    ensures var t := CloseRound(s, w);
      && t.on == (if Held(s, w) == [] then s.on - {w} else s.on)
      && w !in t.ready && Held(t, w) == [] && Tally(t, w) == 0 && t.drain > s.drain
    ensures forall v :: v != w ==> SameWindow(s, CloseRound(s, w), v)
  {
    forall v | v != w ensures SameWindow(s, CloseRound(s, w), v) { CloseRoundElsewhere(s, w, v); }
  }

  lemma CloseRoundElsewhere<T>(s: State<T>, w: Window, v: Window)
    requires v != w
    ensures SameWindow(s, CloseRound(s, w), v)
  {
  }

  /** Neither what is held under v nor its weight, its mark or its being open changed. */
  ghost predicate SameWindow<T>(s: State<T>, t: State<T>, v: Window) {
    && (v in t.on <==> v in s.on) && Held(t, v) == Held(s, v) && Tally(t, v) == Tally(s, v)
    && (v in t.ready <==> v in s.ready) && (v in s.ready ==> t.ready[v] == s.ready[v])
  }

  /** A flush takes and unmarks, and leaves the window open; an early drain takes
      only. */
  lemma TakesLeaveOpen<T>(s: State<T>, w: Window)
    ensures var t := Flushed(s, w); t.on == s.on && w !in t.ready && Held(t, w) == [] && Tally(t, w) == 0
    ensures var t := Drained(s, w);
      && t.on == s.on && t.ready == s.ready
      && (if w in s.ready && w in s.on then Held(t, w) == [] && Tally(t, w) == 0 else t == s)
    ensures forall v :: v != w ==> SameWindow(s, Flushed(s, w), v) && SameWindow(s, Drained(s, w), v)
  {
  }

  /** What one pass of Hold's locked section decides. */
  datatype Verdict = NotHeld | Appended | DrainFirst(k: Window) | WaitOn(k: Window, drain: nat)

  class Gate<T> {
    const cfg: Config<T>
    var on: set<Window>
    var buf: map<Window, seq<T>>
    var bytes: map<Window, int>
    var ready: map<Window, nat>
    var drain: nat

    ghost function View(): State<T>
      reads this
    {
      State(on, buf, bytes, ready, drain)
    }

    constructor (cfg: Config<T>)
      ensures this.cfg == cfg && View() == Init()
    {
      this.cfg := cfg;
      on, buf, bytes, ready, drain := {}, map[], map[], map[], 0;
    }

    /** openKeyLocked: one pass over the open windows, in whatever order the
        map yields them; the answer does not depend on it. */
    method OpenKeyLocked(target: string) returns (r: Option<Window>)
      ensures r.None? ==> NoneOpen(View(), target)
      ensures r.Some? ==> IsOpenKey(View(), target, r.value)
    {
      r := None;
      var todo := on;
      while todo != {}
        invariant todo <= on
        invariant r.None? ==> forall k :: OpenFor(View(), target, k) ==> k in todo
        invariant r.Some? ==>
          && OpenFor(View(), target, r.value)
          && forall k :: OpenFor(View(), target, k) && k !in todo ==> r.value.partition <= k.partition
        decreases todo
      {
        var k :| k in todo;
        todo := todo - {k};
        if k.target == target && (r.None? || k.partition < r.value.partition) {
          r := Some(k);
        }
      }
    }

    method FullLocked(k: Window) returns (full: bool)
      ensures full == Full(cfg, View(), k)
    {
      var n := if k in buf then |buf[k]| else 0;
      var b := if k in bytes then bytes[k] else 0;
      full := (cfg.maxCount > 0 && n >= cfg.maxCount) || (cfg.maxBytes > 0 && b >= cfg.maxBytes);
    }

    method AppendLocked(k: Window, x: T)
      modifies this
      ensures View() == Append(cfg, old(View()), k, x)
    {
      buf := buf[k := (if k in buf then buf[k] else []) + [x]];
      bytes := bytes[k := (if k in bytes then bytes[k] else 0) + cfg.size(x)];
    }

    method TakeLocked(k: Window) returns (items: seq<T>)
      modifies this
      ensures items == Held(old(View()), k)
      ensures View() == Take(old(View()), k)
    {
      items := if k in buf then buf[k] else [];
      buf := buf - {k};
      bytes := bytes - {k};
    }

    method WakeLocked()
      modifies this
      ensures View() == Wake(old(View()))
    {
      drain := drain + 1;
    }

    method SealLocked(k: Window)
      modifies this
      ensures View() == Seal(old(View()), k)
      ensures on == old(on) - {k} && ready == old(ready) - {k} && buf == old(buf) && drain > old(drain)
    {
      on := on - {k};
      ready := ready - {k};
      WakeLocked();
    }

    method Open(target: string, partition: int)
      modifies this
      ensures View() == Opened(old(View()), Window(target, partition))
    {
      on := on + {Window(target, partition)};
    }

    method MarkReady(target: string, partition: int, id: nat)
      modifies this
      ensures View() == MarkedReady(old(View()), Window(target, partition), id)
    {
      var k := Window(target, partition);
      if k !in on { return; }
      ready := ready[k := id];
      WakeLocked();
    }

    method ClearReady(target: string, partition: int)
      modifies this
      ensures View() == ClearedReady(old(View()), Window(target, partition))
    {
      ready := ready - {Window(target, partition)};
    }

    /** The locked section Hold enters on each turn of its loop. */
    method HoldPass(target: string, x: T) returns (v: Verdict)
      modifies this
      ensures v.NotHeld? <==> forall k :: k in old(on) ==> k.target != target
      ensures v.NotHeld? ==> View() == old(View())
      ensures v.DrainFirst? || v.WaitOn? ==>
        var held, tally := Held(old(View()), v.k), Tally(old(View()), v.k);
        (cfg.maxCount > 0 && |held| >= cfg.maxCount) || (cfg.maxBytes > 0 && tally >= cfg.maxBytes)
      ensures v.Appended? ==> exists k ::
        && k in old(on) && k.target == target && buf == old(buf)[k := Held(old(View()), k) + [x]]
        && (cfg.maxCount > 0 ==> |buf[k]| <= cfg.maxCount)
        && (cfg.maxBytes > 0 ==> Tally(old(View()), k) < cfg.maxBytes)
      ensures v.Appended? ==> exists k ::
        && IsOpenKey(old(View()), target, k) && !Full(cfg, old(View()), k)
        && View() == Append(cfg, old(View()), k, x)
      ensures v.DrainFirst? ==>
        && IsOpenKey(old(View()), target, v.k) && Full(cfg, old(View()), v.k)
        && v.k in ready && View() == old(View())
      ensures v.WaitOn? ==>
        && IsOpenKey(old(View()), target, v.k) && Full(cfg, old(View()), v.k)
        && v.k !in ready && v.drain == drain && View() == old(View())
    {
      var key := OpenKeyLocked(target);
      assert forall k :: k in on && k.target == target ==> OpenFor(View(), target, k);
      if key.None? { return NotHeld; }
      var full := FullLocked(key.value);
      if !full {
        AppendLocked(key.value, x);
        return Appended;
      }
      v := if key.value in ready then DrainFirst(key.value) else WaitOn(key.value, drain);
    }

    method FlushTake(w: Window) returns (items: seq<T>)
      modifies this
      ensures items == Held(old(View()), w)
      ensures View() == Flushed(old(View()), w)
    {
      items := TakeLocked(w);
      ready := ready - {w};
      WakeLocked();
    }

    method CloseTake(w: Window) returns (items: seq<T>)
      modifies this
      ensures items == Held(old(View()), w)
      ensures View() == CloseRound(old(View()), w)
      ensures on == if items == [] then old(on) - {w} else old(on)
    {
      items := TakeLocked(w);
      ready := ready - {w};
      if |items| == 0 {
        SealLocked(w);
      } else {
        WakeLocked();
      }
    }

    method DrainTake(w: Window) returns (r: Option<(nat, seq<T>)>)
      modifies this
      ensures r.Some? <==> DrainHits(old(View()), w)
      ensures r.Some? ==> r.value == (old(ready)[w], Held(old(View()), w))
      ensures View() == Drained(old(View()), w)
    {
      if w !in ready || w !in on { return None; }
      var id := ready[w];
      var items := TakeLocked(w);
      WakeLocked();
      r := Some((id, items));
    }
  }
}
