/** The lines of a run's event trail (internal/eventlog). */
module TrailLines {
  import opened Text

  datatype Kind = JobStopped | JobTerminated | OtherKind

  /** A decoded line beside the JSON text it is stored as. */
  datatype Line =
    | Event(num: nat, kind: Kind, reason: string, text: string)
    | DroppedMark(text: string)
    | SealedMark(emitted: nat, text: string)

  // ------------------------------------------------------------ folds over lines

  function CountEvents(lines: seq<Line>): (n: nat)
    ensures n <= |lines|
  {
    if |lines| == 0 then 0 else (if lines[0].Event? && lines[0].num > 0 then 1 else 0) + CountEvents(lines[1..])
  }

  predicate AnyDropped(lines: seq<Line>) {
    |lines| > 0 && (lines[0].DroppedMark? || AnyDropped(lines[1..]))
  }

  predicate AnySealed(lines: seq<Line>) {
    |lines| > 0 && (lines[0].SealedMark? || AnySealed(lines[1..]))
  }

  /** The count the last seal records, 0 without one. */
  function SealCount(lines: seq<Line>): nat {
    if |lines| == 0 then 0
    else if lines[0].SealedMark? && !AnySealed(lines[1..]) then lines[0].emitted
    else SealCount(lines[1..])
  }

  /** Event sequence numbers rise strictly, above lo and up to hi. */
  predicate Ascends(lines: seq<Line>, lo: nat, hi: nat) {
    if |lines| == 0 then lo <= hi
    else if lines[0].Event? then lo < lines[0].num && Ascends(lines[1..], lines[0].num, hi)
    else Ascends(lines[1..], lo, hi)
  }

  lemma {:induction false} FoldsConcat(a: seq<Line>, b: seq<Line>)
    ensures CountEvents(a + b) == CountEvents(a) + CountEvents(b)
    ensures AnyDropped(a + b) <==> AnyDropped(a) || AnyDropped(b)
    ensures AnySealed(a + b) <==> AnySealed(a) || AnySealed(b)
    decreases |a|
  {
    if |a| == 0 {
      assert a + b == b;
    } else {
      FoldsConcat(a[1..], b);
      assert (a + b)[1..] == a[1..] + b;
    }
  }

  lemma {:induction false} SealLast(a: seq<Line>, mark: Line)
    requires mark.SealedMark? && !AnySealed(a)
    ensures SealCount(a + [mark]) == mark.emitted
    decreases |a|
  {
    if |a| == 0 {
      assert a + [mark] == [mark];
    } else {
      SealLast(a[1..], mark);
      assert (a + [mark])[1..] == a[1..] + [mark];
    }
  }

  lemma {:induction false} AscendsWider(a: seq<Line>, lo: nat, hi: nat, lo': nat, hi': nat)
    requires Ascends(a, lo, hi) && lo' <= lo && hi <= hi'
    ensures Ascends(a, lo', hi')
    decreases |a|
  {
    if |a| > 0 {
      if a[0].Event? {
        AscendsWider(a[1..], a[0].num, hi, a[0].num, hi');
      } else {
        AscendsWider(a[1..], lo, hi, lo', hi');
      }
    }
  }

  lemma {:induction false} AscendsBound(a: seq<Line>, lo: nat, hi: nat)
    requires Ascends(a, lo, hi)
    ensures lo <= hi && CountEvents(a) <= hi - lo
    decreases |a|
  {
    if |a| > 0 { AscendsBound(a[1..], if a[0].Event? then a[0].num else lo, hi); }
  }

  lemma {:induction false} AscendsMore(a: seq<Line>, b: seq<Line>, lo: nat, mid: nat, hi: nat)
    requires Ascends(a, lo, mid) && Ascends(b, mid, hi)
    ensures Ascends(a + b, lo, hi)
    decreases |a|
  {
    if |a| == 0 {
      assert a + b == b;
      AscendsWider(b, mid, hi, lo, hi);
    } else {
      AscendsMore(a[1..], b, if a[0].Event? then a[0].num else lo, mid, hi);
      assert (a + b)[1..] == a[1..] + b;
    }
  }

  lemma {:induction false} AscendsTail(a: seq<Line>, b: seq<Line>, lo: nat, hi: nat)
    requires Ascends(a + b, lo, hi)
    ensures Ascends(b, lo, hi)
    decreases |a|
  {
    if |a| == 0 {
      assert a + b == b;
    } else {
      assert (a + b)[1..] == a[1..] + b;
      var from := if a[0].Event? then a[0].num else lo;
      AscendsTail(a[1..], b, from, hi);
      AscendsWider(b, from, hi, lo, hi);
    }
  }

  /** Taking lines out, and putting a marker in, leave the rest ascending. */
  lemma {:induction false} AscendsWithout(a: seq<Line>, b: seq<Line>, c: seq<Line>, mark: Line, lo: nat, hi: nat)
    requires Ascends(a + (b + c), lo, hi) && !mark.Event?
    ensures Ascends(a + c, lo, hi) && Ascends(a + ([mark] + c), lo, hi)
    decreases |a|
  {
    if |a| == 0 {
      assert a + (b + c) == b + c && a + c == c && a + ([mark] + c) == [mark] + c;
      AscendsTail(b, c, lo, hi);
      assert ([mark] + c)[1..] == c;
    } else {
      assert (a + (b + c))[1..] == a[1..] + (b + c) && (a + c)[1..] == a[1..] + c;
      assert (a + ([mark] + c))[1..] == a[1..] + ([mark] + c);
      AscendsWithout(a[1..], b, c, mark, if a[0].Event? then a[0].num else lo, hi);
    }
  }

  lemma AscendsPrefix(a: seq<Line>, b: seq<Line>, lo: nat, hi: nat)
    requires Ascends(a + b, lo, hi)
    ensures Ascends(a, lo, hi)
  {
    assert b + [] == b && a + [] == a;
    AscendsWithout(a, b, [], DroppedMark(""), lo, hi);
  }

  // -------------------------------------------------------------------- objects

  /** A run's objects, one after another. */
  function Flatten(objects: seq<seq<Line>>): seq<Line> {
    if |objects| == 0 then [] else objects[0] + Flatten(objects[1..])
  }

  lemma {:induction false} FlattenMore(objects: seq<seq<Line>>, last: seq<Line>)
    ensures Flatten(objects + [last]) == Flatten(objects) + last
    decreases |objects|
  {
    if |objects| == 0 {
      assert objects + [last] == [last] && [last][1..] == [];
      assert Flatten([last]) == last + [];
      assert [] + last == last;
    } else {
      FlattenMore(objects[1..], last);
      assert (objects + [last])[1..] == objects[1..] + [last];
      Regroup(objects[0], Flatten(objects[1..]), last);
    }
  }

  // ---------------------------------------------------------------------- bytes

  function Width(l: Line): nat { |l.text| + 1 }

  function Size(lines: seq<Line>): nat {
    if |lines| == 0 then 0 else Width(lines[0]) + Size(lines[1..])
  }

  function Render(lines: seq<Line>): (s: string)
    ensures |s| == Size(lines)
  {
    if |lines| == 0 then "" else lines[0].text + ['\n'] + Render(lines[1..])
  }

  ghost predicate OneLineEach(lines: seq<Line>) { forall i :: 0 <= i < |lines| ==> '\n' !in lines[i].text }

  lemma {:induction false} SizeConcat(a: seq<Line>, b: seq<Line>)
    ensures Size(a + b) == Size(a) + Size(b)
    decreases |a|
  {
    if |a| == 0 {
      assert a + b == b;
    } else {
      SizeConcat(a[1..], b);
      assert (a + b)[1..] == a[1..] + b;
    }
  }

  /** How many lines end at or before the line that holds byte target. */
  function Through(lines: seq<Line>, target: nat): (k: nat)
    ensures k <= |lines|
  {
    if |lines| == 0 then 0
    else if target < Width(lines[0]) then 1
    else 1 + Through(lines[1..], target - Width(lines[0]))
  }

  /** The buffer after a failed upload: past the cap, the oldest lines go and a
      marker takes their place. */
  function Bounded(buf: seq<Line>, maxObject: nat, maxBuffer: nat, mark: Line): seq<Line> {
    if Trims(buf, maxObject, maxBuffer) then [mark] + buf[Through(buf, Size(buf) - maxObject)..] else buf
  }

  predicate Trims(buf: seq<Line>, maxObject: nat, maxBuffer: nat) { Size(buf) > maxBuffer && Size(buf) > maxObject }

  function IndexByte(s: string, from: nat): (k: nat)
    requires from <= |s|
    ensures from <= k <= |s| && '\n' !in s[from..k] && (k < |s| ==> s[k] == '\n')
    decreases |s| - from
  {
    if from == |s| || s[from] == '\n' then from
    else
      var k := IndexByte(s, from + 1);
      assert s[from..k] == [s[from]] + s[from + 1..k];
      k
  }

  /** The lines through byte target end past it, and all but the last of them not. */
  lemma {:induction false} ThroughReaches(lines: seq<Line>, target: nat)
    requires target <= Size(lines) && |lines| > 0
    ensures var k := Through(lines, target);
      && k > 0 && Size(lines[..k - 1]) <= target
      && (target < Size(lines) ==> target < Size(lines[..k]))
      && (target == Size(lines) ==> k == |lines|)
    decreases |lines|
  {
    var rest, w := lines[1..], Width(lines[0]);
    if target >= w {
      var t := Through(rest, target - w);
      if |rest| > 0 {
        ThroughReaches(rest, target - w);
        assert lines[..t] == [lines[0]] + rest[..t - 1] && lines[..t + 1] == [lines[0]] + rest[..t];
      } else {
        assert lines[..0] == [];
      }
    } else {
      assert lines[..0] == [] && lines[..1] == [lines[0]];
    }
  }

  /** What a trim keeps: behind the marker the longest run of newest lines under the
      object size, and nothing at all is trimmed from a buffer within either bound. */
  lemma TrimKeepsNewest(buf: seq<Line>, maxObject: nat, maxBuffer: nat, mark: Line) returns (k: nat)
    ensures Size(buf) <= maxBuffer || Size(buf) <= maxObject ==> Bounded(buf, maxObject, maxBuffer, mark) == buf
    ensures Size(buf) > maxBuffer && Size(buf) > maxObject ==>
      && 0 < k <= |buf| && Bounded(buf, maxObject, maxBuffer, mark) == [mark] + buf[k..]
      && (Size(buf[k..]) < maxObject || k == |buf|)
      && Size(buf[k - 1..]) >= maxObject
  {
    k := 0;
    if Size(buf) > maxBuffer && Size(buf) > maxObject {
      var target := Size(buf) - maxObject;
      k := Through(buf, target);
      ThroughReaches(buf, target);
      assert buf == buf[..k] + buf[k..] && buf == buf[..k - 1] + buf[k - 1..];
      SizeConcat(buf[..k], buf[k..]);
      SizeConcat(buf[..k - 1], buf[k - 1..]);
    }
  }

  /** The trim, found in bytes as the next newline, falls between two lines. */
  lemma {:induction false} TrimBetweenLines(lines: seq<Line>, target: nat, k: nat)
    requires OneLineEach(lines) && target <= k < Size(lines)
    requires Render(lines)[k] == '\n' && '\n' !in Render(lines)[target..k]
    ensures Render(lines)[k + 1..] == Render(lines[Through(lines, target)..])
    decreases |lines|
  {
    var s, rest, w := Render(lines), lines[1..], Width(lines[0]);
    assert s[w..] == Render(rest);
    if target < w {
      EndOfFirst(lines[0].text, Render(rest), s, target, k);
    } else {
      SliceOfTail(s, w, target, k);
      TrimBetweenLines(rest, target - w, k - w);
      var t := Through(rest, target - w);
      assert lines[1 + t..] == rest[t..];
    }
  }

  /** The trim as the flusher does it, on the bytes of the buffer: for any lines the
      bytes render, what is left renders those lines bounded. */
  method BoundBuffer(buf: string, maxObject: nat, maxBuffer: nat, mark: Line, ghost lines: seq<Line>)
    returns (next: string)
    requires buf == Render(lines) && OneLineEach(lines)
    ensures next == Render(Bounded(lines, maxObject, maxBuffer, mark))
  {
    if |buf| <= maxBuffer || |buf| <= maxObject { return buf; }
    var target := |buf| - maxObject;
    var k := IndexByte(buf, target);
    ghost var through := Through(lines, target);
    assert ([mark] + lines[through..])[1..] == lines[through..];
    if k < |buf| {
      TrimBetweenLines(lines, target, k);
      next := mark.text + ['\n'] + buf[k + 1..];
    } else {
      NothingAfter(lines, target);
      next := mark.text + ['\n'] + "";
    }
  }

  /** Every buffer ends in a newline, so past its last there is no byte. */
  lemma {:induction false} NothingAfter(lines: seq<Line>, target: nat)
    requires target <= Size(lines) && '\n' !in Render(lines)[target..]
    ensures target == Size(lines) && Through(lines, target) == |lines|
    decreases |lines|
  {
    if |lines| > 0 {
      var s, w := Render(lines), Width(lines[0]);
      assert s[w - 1] == '\n' && s[w..] == Render(lines[1..]);
      assert forall j :: target <= j < |s| ==> s[j] == s[target..][j - target] != '\n';
      assert target >= w;
      assert s[w..][target - w..] == s[target..];
      NothingAfter(lines[1..], target - w);
    }
  }

  lemma EndOfFirst(first: string, rest: string, s: string, target: nat, k: nat)
    requires s == first + ['\n'] + rest && '\n' !in first
    requires target <= |first| && target <= k < |s| && s[k] == '\n' && '\n' !in s[target..k]
    ensures k == |first|
  {
    assert forall j :: target <= j < k ==> s[j] == s[target..k][j - target];
    assert forall j :: 0 <= j < |first| ==> s[j] == first[j];
    assert s[|first|] == '\n';
  }

  lemma SliceOfTail(s: string, w: nat, target: nat, k: nat)
    requires w <= target <= k < |s|
    ensures s[w..][k - w] == s[k] && s[w..][target - w..k - w] == s[target..k] && s[w..][k - w + 1..] == s[k + 1..]
  {
  }
}

/** The buffered writer (internal/eventlog/eventlog_flush.go), as the steps its
    emitters and its flusher take. */
module TrailWriter {
  import opened Text
  import opened TrailLines

  /** What the caller gives of one event; the writer adds the number. */
  datatype Draft = Draft(kind: Kind, reason: string, text: string)

  datatype Config = Config(queueSize: nat, maxObject: nat, maxBuffer: nat)

  datatype Phase = Open | Closing | Sealing | Closed(ok: bool)

  /** An object key, by the number in it. */
  datatype Slot = Slot(num: nat)

  type Bucket = map<Slot, seq<Line>>

  /** pending holds the lines an emitter has numbered and not yet offered to the
      queue. The rest is history: the objects uploaded, what a failed upload left
      under the key not yet used, how many events the queue turned away and the
      trims removed, how many trims there were, and every event emitted. */
  datatype State = State(
    emitted: nat, pending: seq<Line>, queue: seq<Line>, buf: seq<Line>, bucket: Bucket, phase: Phase,
    objects: seq<seq<Line>>, stray: seq<Line>, overflowed: nat, trimmed: nat, trims: nat, drafts: seq<Draft>)

  /** The bucket once each of the objects has been put under its own key. */
  function BucketOf(objects: seq<seq<Line>>): Bucket {
    if |objects| == 0 then map[]
    else
      var n := |objects| - 1;
      BucketOf(objects[..n])[Slot(n) := objects[n]]
  }

  datatype Action =
    | Emit(batch: seq<Draft>)
    | Offer
    | Overflow
    | Take
    | PutOk
    | PutFails(left: bool, mark: Line)
    | Close
    | Seal(mark: Line)

  const START := State(0, [], [], [], map[], Open, [], [], 0, 0, 0, [])

  function Numbered(batch: seq<Draft>, from: nat): (r: seq<Line>)
    ensures |r| == |batch|
  {
    if |batch| == 0 then []
    else [Event(from + 1, batch[0].kind, batch[0].reason, batch[0].text)] + Numbered(batch[1..], from + 1)
  }

  lemma {:induction false} NumberedAscends(batch: seq<Draft>, from: nat)
    ensures Ascends(Numbered(batch, from), from, from + |batch|)
    ensures CountEvents(Numbered(batch, from)) == |batch|
    ensures !AnyDropped(Numbered(batch, from)) && !AnySealed(Numbered(batch, from))
    decreases |batch|
  {
    if |batch| > 0 {
      NumberedAscends(batch[1..], from + 1);
      assert Numbered(batch, from)[1..] == Numbered(batch[1..], from + 1);
    }
  }

  ghost predicate Enabled(c: Config, s: State, a: Action) {
    match a
    case Emit(_) => s.phase.Open? && s.pending == []
    case Offer => s.pending != [] && |s.queue| < c.queueSize
    case Overflow => s.pending != [] && |s.queue| >= c.queueSize
    case Take => s.queue != [] && (s.phase.Open? || s.phase.Closing?)
    case PutOk => s.buf != [] && !s.phase.Closed?
    case PutFails(_, mark) => s.buf != [] && !s.phase.Closed? && mark.DroppedMark?
    case Close => s.phase.Open? && s.pending == []
    case Seal(mark) => s.phase.Closing? && s.queue == [] && mark.SealedMark? && mark.emitted == s.emitted
  }

  /** What a failed upload's trim removes. */
  function Removed(c: Config, buf: seq<Line>): seq<Line> {
    if Trims(buf, c.maxObject, c.maxBuffer) then buf[..Through(buf, Size(buf) - c.maxObject)] else []
  }

  ghost function After(c: Config, s: State, a: Action): State
    requires Enabled(c, s, a)
  {
    match a
    case Emit(batch) =>
      s.(emitted := s.emitted + |batch|, pending := Numbered(batch, s.emitted), drafts := s.drafts + batch)
    case Offer => s.(pending := s.pending[1..], queue := s.queue + [s.pending[0]])
    case Overflow => s.(pending := s.pending[1..], overflowed := s.overflowed + 1)
    case Take => s.(queue := s.queue[1..], buf := s.buf + [s.queue[0]])
    case PutOk =>
      s.(bucket := s.bucket[Slot(|s.objects|) := s.buf], buf := [],
         objects := s.objects + [s.buf], stray := [],
         phase := if s.phase.Sealing? then Closed(true) else s.phase)
    case PutFails(left, mark) =>
      s.(bucket := if left then s.bucket[Slot(|s.objects|) := s.buf] else s.bucket,
         buf := Bounded(s.buf, c.maxObject, c.maxBuffer, mark),
         stray := if left then s.buf else s.stray,
         phase := if s.phase.Sealing? then Closed(false) else s.phase,
         trimmed := s.trimmed + CountEvents(Removed(c, s.buf)),
         trims := s.trims + if Trims(s.buf, c.maxObject, c.maxBuffer) then 1 else 0)
    case Close => s.(phase := Closing)
    case Seal(mark) => s.(buf := s.buf + [mark], phase := Sealing)
  }

  ghost predicate Next(c: Config, s: State, t: State) { exists a :: Enabled(c, s, a) && t == After(c, s, a) }

  ghost predicate Run(c: Config, run: seq<State>) {
    && |run| > 0 && run[0] == START
    && forall n: nat :: n + 1 < |run| ==> Next(c, run[n], run[n + 1])
  }

  // ------------------------------------------------ every line not yet given up

  /** Uploaded, then buffered, then queued, then being offered. */
  function Lines(s: State): seq<Line> { Flatten(s.objects) + (s.buf + (s.queue + s.pending)) }

  /** The step moves no line, adds some at the end, or puts at most a marker in the
      place of some. */
  ghost predicate Kept(s: State, t: State) { Lines(t) == Lines(s) }

  ghost predicate Grown(s: State, t: State, more: seq<Line>) { Lines(t) == Lines(s) + more }

  ghost predicate Replaced(s: State, t: State, front: seq<Line>, gone: seq<Line>, mark: seq<Line>, rest: seq<Line>) {
    Lines(s) == front + (gone + rest) && Lines(t) == front + (mark + rest)
  }

  lemma EmitGrows(c: Config, s: State, batch: seq<Draft>)
    requires Enabled(c, s, Emit(batch))
    ensures Grown(s, After(c, s, Emit(batch)), Numbered(batch, s.emitted))
  {
    var f, q, more := Flatten(s.objects), s.queue, Numbered(batch, s.emitted);
    assert q + [] == q;
    FourParts(f, s.buf, q, more);
  }

  lemma OfferKeeps(c: Config, s: State)
    requires Enabled(c, s, Offer)
    ensures Kept(s, After(c, s, Offer))
  {
    assert s.queue + s.pending == (s.queue + [s.pending[0]]) + s.pending[1..];
  }

  lemma TakeKeeps(c: Config, s: State)
    requires Enabled(c, s, Take)
    ensures Kept(s, After(c, s, Take))
  {
    assert s.buf + (s.queue + s.pending) == (s.buf + [s.queue[0]]) + (s.queue[1..] + s.pending);
  }

  lemma PutKeeps(c: Config, s: State)
    requires Enabled(c, s, PutOk)
    ensures Kept(s, After(c, s, PutOk))
  {
    FlattenMore(s.objects, s.buf);
    assert [] + (s.queue + s.pending) == s.queue + s.pending;
    Regroup(Flatten(s.objects), s.buf, s.queue + s.pending);
  }

  lemma OverflowReplaces(c: Config, s: State)
    requires Enabled(c, s, Overflow)
    ensures Replaced(s, After(c, s, Overflow), Flatten(s.objects) + (s.buf + s.queue),
                     [s.pending[0]], [], s.pending[1..])
  {
    var f, b, q, p := Flatten(s.objects), s.buf, s.queue, s.pending;
    assert p == [p[0]] + p[1..] && [] + p[1..] == p[1..];
    FourParts(f, b, q, p);
    FourParts(f, b, q, p[1..]);
  }

  lemma FourParts<T>(a: seq<T>, b: seq<T>, c: seq<T>, d: seq<T>)
    ensures a + (b + (c + d)) == (a + (b + c)) + d
  {
    Regroup(b, c, d);
    Regroup(a, b + c, d);
  }

  lemma PutFailsReplaces(c: Config, s: State, left: bool, mark: Line)
    requires Enabled(c, s, PutFails(left, mark))
    ensures var gone := Removed(c, s.buf);
      && gone <= s.buf
      && Replaced(s, After(c, s, PutFails(left, mark)), Flatten(s.objects), gone,
                  if Trims(s.buf, c.maxObject, c.maxBuffer) then [mark] else [],
                  s.buf[|gone|..] + (s.queue + s.pending))
  {
    var b, gone, rest := s.buf, Removed(c, s.buf), s.queue + s.pending;
    assert b == gone + b[|gone|..];
    Regroup(gone, b[|gone|..], rest);
    if Trims(b, c.maxObject, c.maxBuffer) {
      Regroup([mark], b[|gone|..], rest);
    } else {
      assert b[0..] == b && [] + (b + rest) == b + rest;
    }
  }

  lemma SealGrows(c: Config, s: State, mark: Line)
    requires Enabled(c, s, Seal(mark)) && s.pending == []
    ensures Grown(s, After(c, s, Seal(mark)), [mark])
  {
    var f, b := Flatten(s.objects), s.buf;
    assert s.queue + s.pending == [] && b + [] == b && (b + [mark]) + [] == b + [mark];
    Regroup(f, b, [mark]);
  }

  // ---------------------------------------------------------- closing in order

  /** Only events are offered, none once closing, and once sealing nothing is queued. */
  ghost predicate Quiet(s: State) {
    && CountEvents(s.pending) == |s.pending|
    && (!s.phase.Open? ==> s.pending == [])
    && (s.phase.Sealing? || s.phase.Closed? ==> s.queue == [])
    && (s.phase == Closed(true) ==> s.buf == [] && s.stray == [])
  }

  lemma StepQuiet(c: Config, s: State, a: Action)
    requires Quiet(s) && Enabled(c, s, a)
    ensures Quiet(After(c, s, a))
  {
    if a.Emit? { NumberedAscends(a.batch, s.emitted); }
  }

  lemma {:induction false} RunQuiet(c: Config, run: seq<State>, n: nat)
    requires Run(c, run) && n < |run|
    ensures Quiet(run[n])
    decreases n
  {
    if n > 0 {
      RunQuiet(c, run, n - 1);
      assert Next(c, run[n - 1], run[n - 1 + 1]);
      var a :| Enabled(c, run[n - 1], a) && run[n] == After(c, run[n - 1], a);
      StepQuiet(c, run[n - 1], a);
    }
  }

  // --------------------------------------------------------------- the numbers

  ghost predicate InOrder(s: State) { Ascends(Lines(s), 0, s.emitted) }

  /** Every number given out is in a line, overflowed or trimmed. */
  ghost predicate Balanced(s: State) { CountEvents(Lines(s)) + s.overflowed + s.trimmed == s.emitted }

  ghost predicate Marked(s: State) { s.trims > 0 <==> AnyDropped(Lines(s)) }

  ghost predicate SealedLast(s: State) {
    if s.phase.Open? || s.phase.Closing? then !AnySealed(Lines(s))
    else !s.phase.Closed? || s.phase.ok ==> AnySealed(Lines(s)) && SealCount(Lines(s)) == s.emitted
  }

  ghost predicate Inv(s: State) { InOrder(s) && Balanced(s) && Marked(s) && SealedLast(s) }

  lemma ReplacedFolds(s: State, t: State, front: seq<Line>, gone: seq<Line>, mark: seq<Line>, rest: seq<Line>)
    requires Replaced(s, t, front, gone, mark, rest) && InOrder(s) && t.emitted == s.emitted
    requires mark == [] || (|mark| == 1 && mark[0].DroppedMark?)
    ensures InOrder(t)
    ensures CountEvents(Lines(s)) == CountEvents(Lines(t)) + CountEvents(gone)
    ensures gone == [] && mark == [] ==> Lines(t) == Lines(s)
    ensures AnyDropped(Lines(t)) <==> AnyDropped(front) || mark != [] || AnyDropped(rest)
    ensures AnyDropped(Lines(s)) <==> AnyDropped(front) || AnyDropped(gone) || AnyDropped(rest)
    ensures AnySealed(Lines(t)) ==> AnySealed(Lines(s))
  {
    FoldsConcat(front, gone + rest);
    FoldsConcat(gone, rest);
    FoldsConcat(front, mark + rest);
    FoldsConcat(mark, rest);
    AscendsWithout(front, gone, rest, if mark == [] then DroppedMark("") else mark[0], 0, s.emitted);
    assert mark == [] ==> mark + rest == rest;
    assert mark != [] ==> mark == [mark[0]];
  }

  lemma StepInv(c: Config, s: State, a: Action)
    requires Quiet(s) && Inv(s) && Enabled(c, s, a)
    ensures Inv(After(c, s, a))
  {
    match a
    case Emit(batch) => EmitInv(c, s, batch);
    case Offer => OfferKeeps(c, s);
    case Take => TakeKeeps(c, s);
    case PutOk => PutKeeps(c, s);
    case Close =>
    case Overflow => OverflowInv(c, s);
    case PutFails(left, mark) => PutFailsInv(c, s, left, mark);
    case Seal(mark) => SealInv(c, s, mark);
  }

  lemma EmitInv(c: Config, s: State, batch: seq<Draft>)
    requires Inv(s) && Enabled(c, s, Emit(batch))
    ensures Inv(After(c, s, Emit(batch)))
  {
    var more := Numbered(batch, s.emitted);
    EmitGrows(c, s, batch);
    NumberedAscends(batch, s.emitted);
    FoldsConcat(Lines(s), more);
    AscendsMore(Lines(s), more, 0, s.emitted, s.emitted + |batch|);
  }

  lemma OverflowInv(c: Config, s: State)
    requires Quiet(s) && Inv(s) && Enabled(c, s, Overflow)
    ensures Inv(After(c, s, Overflow))
  {
    OverflowReplaces(c, s);
    OneEvent(s.pending);
    ReplacedFolds(s, After(c, s, Overflow), Flatten(s.objects) + (s.buf + s.queue), [s.pending[0]], [], s.pending[1..]);
  }

  lemma PutFailsInv(c: Config, s: State, left: bool, mark: Line)
    requires Inv(s) && Enabled(c, s, PutFails(left, mark))
    ensures Inv(After(c, s, PutFails(left, mark)))
  {
    var gone, marks := Removed(c, s.buf), if Trims(s.buf, c.maxObject, c.maxBuffer) then [mark] else [];
    PutFailsReplaces(c, s, left, mark);
    var rest := s.buf[|gone|..] + (s.queue + s.pending);
    ReplacedFolds(s, After(c, s, PutFails(left, mark)), Flatten(s.objects), gone, marks, rest);
  }

  lemma SealInv(c: Config, s: State, mark: Line)
    requires Quiet(s) && Inv(s) && Enabled(c, s, Seal(mark))
    ensures Inv(After(c, s, Seal(mark)))
  {
    SealGrows(c, s, mark);
    FoldsConcat(Lines(s), [mark]);
    SealLast(Lines(s), mark);
    AscendsMore(Lines(s), [mark], 0, s.emitted, s.emitted);
  }

  lemma OneEvent(pending: seq<Line>)
    requires |pending| > 0 && CountEvents(pending) == |pending|
    ensures CountEvents([pending[0]]) == 1 && !AnyDropped([pending[0]])
  {
  }

  lemma {:induction false} RunInv(c: Config, run: seq<State>, n: nat)
    requires Run(c, run) && n < |run|
    ensures Inv(run[n])
    decreases n
  {
    if n > 0 {
      RunInv(c, run, n - 1);
      RunQuiet(c, run, n - 1);
      assert Next(c, run[n - 1], run[n - 1 + 1]);
      var a :| Enabled(c, run[n - 1], a) && run[n] == After(c, run[n - 1], a);
      StepInv(c, run[n - 1], a);
    }
  }

  // -------------------------------------------------------- what the lines say

  /** An event line is the event emitted under its number. */
  ghost predicate Says(l: Line, drafts: seq<Draft>) {
    l.Event? ==>
      && 0 < l.num <= |drafts|
      && l.kind == drafts[l.num - 1].kind && l.reason == drafts[l.num - 1].reason && l.text == drafts[l.num - 1].text
  }

  ghost predicate AllSay(lines: seq<Line>, drafts: seq<Draft>) {
    forall i :: 0 <= i < |lines| ==> Says(lines[i], drafts)
  }

  lemma {:induction false} NumberedSay(batch: seq<Draft>, before: seq<Draft>)
    ensures AllSay(Numbered(batch, |before|), before + batch)
    decreases |batch|
  {
    if |batch| > 0 {
      NumberedSay(batch[1..], before + [batch[0]]);
      assert before + [batch[0]] + batch[1..] == before + batch;
    }
  }

  lemma AllSayMore(lines: seq<Line>, drafts: seq<Draft>, more: seq<Draft>)
    requires AllSay(lines, drafts)
    ensures AllSay(lines, drafts + more)
  {
    forall i | 0 <= i < |lines| ensures Says(lines[i], drafts + more) { assert Says(lines[i], drafts); }
  }

  ghost predicate BucketSays(b: Bucket, drafts: seq<Draft>) { forall k :: k in b ==> AllSay(b[k], drafts) }

  lemma BucketSaysMore(b: Bucket, drafts: seq<Draft>, more: seq<Draft>)
    requires BucketSays(b, drafts)
    ensures BucketSays(b, drafts + more)
  {
    forall k | k in b ensures AllSay(b[k], drafts + more) { AllSayMore(b[k], drafts, more); }
  }

  ghost predicate Truthful(s: State) {
    && |s.drafts| == s.emitted
    && AllSay(s.pending, s.drafts) && AllSay(s.queue, s.drafts) && AllSay(s.buf, s.drafts)
    && BucketSays(s.bucket, s.drafts)
  }

  lemma EmitTruthful(c: Config, s: State, batch: seq<Draft>)
    requires Truthful(s) && Enabled(c, s, Emit(batch))
    ensures Truthful(After(c, s, Emit(batch)))
  {
    NumberedSay(batch, s.drafts);
    AllSayMore(s.queue, s.drafts, batch);
    AllSayMore(s.buf, s.drafts, batch);
    BucketSaysMore(s.bucket, s.drafts, batch);
  }

  lemma StepTruthful(c: Config, s: State, a: Action)
    requires Truthful(s) && Enabled(c, s, a)
    ensures Truthful(After(c, s, a))
  {
    if a.Emit? { EmitTruthful(c, s, a.batch); }
  }

  /** In every run, each event line in the bucket is the event that was emitted under
      its number, with its kind, its reason and its text. */
  lemma {:induction false} BucketHoldsWhatWasEmitted(c: Config, run: seq<State>, n: nat)
    requires Run(c, run) && n < |run|
    ensures |run[n].drafts| == run[n].emitted && BucketSays(run[n].bucket, run[n].drafts)
    ensures Truthful(run[n])
    decreases n
  {
    if n > 0 {
      BucketHoldsWhatWasEmitted(c, run, n - 1);
      assert Next(c, run[n - 1], run[n - 1 + 1]);
      var a :| Enabled(c, run[n - 1], a) && run[n] == After(c, run[n - 1], a);
      StepTruthful(c, run[n - 1], a);
    }
  }

  // ----------------------------------------------------------- what may be lost

  lemma {:induction false} QueueFits(c: Config, run: seq<State>, n: nat)
    requires Run(c, run) && n < |run|
    ensures |run[n].queue| <= c.queueSize
    decreases n
  {
    if n > 0 {
      QueueFits(c, run, n - 1);
      assert Next(c, run[n - 1], run[n - 1 + 1]);
    }
  }

  /** An event is turned away only when the queue is at its size, and lines are
      trimmed only from a buffer over both bounds. */
  lemma LossesHaveCauses(c: Config, run: seq<State>, n: nat)
    requires Run(c, run) && n + 1 < |run|
    ensures run[n + 1].overflowed != run[n].overflowed ==> |run[n].queue| == c.queueSize
    ensures run[n + 1].trims != run[n].trims || run[n + 1].trimmed != run[n].trimmed ==>
      Size(run[n].buf) > c.maxBuffer && Size(run[n].buf) > c.maxObject
  {
    QueueFits(c, run, n);
    assert Next(c, run[n], run[n + 1]);
  }

  // ------------------------------------------------- what a reader may meet

  /** The uploaded objects, and what a failed upload left after them. */
  ghost predicate Readable(s: State) { Ascends(Flatten(s.objects) + s.stray, 0, s.emitted) }

  lemma StepReadable(c: Config, s: State, a: Action)
    requires InOrder(s) && Readable(s) && Enabled(c, s, a)
    ensures Readable(After(c, s, a))
  {
    var f, rest := Flatten(s.objects), s.queue + s.pending;
    Regroup(f, s.buf, rest);
    AscendsPrefix(f + s.buf, rest, 0, s.emitted);
    match a
    case Emit(batch) => AscendsWider(f + s.stray, 0, s.emitted, 0, s.emitted + |batch|);
    case PutOk =>
      FlattenMore(s.objects, s.buf);
      assert (f + s.buf) + [] == f + s.buf;
    case _ =>
  }

  /** Whatever has happened, and wherever the writer stopped, what a reader meets
      carries strictly increasing numbers. */
  lemma {:induction false} ReaderMeetsRisingNumbers(c: Config, run: seq<State>, n: nat)
    requires Run(c, run) && n < |run|
    ensures Readable(run[n])
    decreases n
  {
    if n > 0 {
      ReaderMeetsRisingNumbers(c, run, n - 1);
      RunInv(c, run, n - 1);
      assert Next(c, run[n - 1], run[n - 1 + 1]);
      var a :| Enabled(c, run[n - 1], a) && run[n] == After(c, run[n - 1], a);
      StepReadable(c, run[n - 1], a);
    }
  }

  /** The bucket holds each object under its own key, and under the next one what a
      failed upload left. */
  ghost predicate Uploaded(s: State) {
    s.bucket == if s.stray == [] then BucketOf(s.objects) else BucketOf(s.objects)[Slot(|s.objects|) := s.stray]
  }

  lemma StepUploaded(c: Config, s: State, a: Action)
    requires Uploaded(s) && Enabled(c, s, a)
    ensures Uploaded(After(c, s, a))
  {
    if a.PutOk? {
      assert (s.objects + [s.buf])[..|s.objects|] == s.objects;
    }
  }

  lemma {:induction false} RunUploaded(c: Config, run: seq<State>, n: nat)
    requires Run(c, run) && n < |run|
    ensures Uploaded(run[n])
    decreases n
  {
    if n > 0 {
      RunUploaded(c, run, n - 1);
      assert Next(c, run[n - 1], run[n - 1 + 1]);
      var a :| Enabled(c, run[n - 1], a) && run[n] == After(c, run[n - 1], a);
      StepUploaded(c, run[n - 1], a);
    }
  }

  // ----------------------------------------------------- nothing after the seal

  ghost predicate Unsealed(b: Bucket) { forall k :: k in b ==> !AnySealed(b[k]) }

  lemma StepUnsealed(c: Config, s: State, a: Action)
    requires SealedLast(s) && Enabled(c, s, a) && (!s.phase.Closed? ==> Unsealed(s.bucket))
    ensures !After(c, s, a).phase.Closed? ==> Unsealed(After(c, s, a).bucket)
  {
    if s.phase.Open? || s.phase.Closing? {
      FoldsConcat(Flatten(s.objects), s.buf + (s.queue + s.pending));
      FoldsConcat(s.buf, s.queue + s.pending);
    }
  }

  lemma NextUnsealed(c: Config, s: State, t: State)
    requires SealedLast(s) && Next(c, s, t) && (!s.phase.Closed? ==> Unsealed(s.bucket))
    ensures !t.phase.Closed? ==> Unsealed(t.bucket)
  {
    var a :| Enabled(c, s, a) && t == After(c, s, a);
    StepUnsealed(c, s, a);
  }

  lemma {:induction false} RunUnsealed(c: Config, run: seq<State>, n: nat)
    requires Run(c, run) && n < |run|
    ensures !run[n].phase.Closed? ==> Unsealed(run[n].bucket)
    decreases n
  {
    if n > 0 {
      RunUnsealed(c, run, n - 1);
      RunInv(c, run, n - 1);
      assert Next(c, run[n - 1], run[n - 1 + 1]);
      NextUnsealed(c, run[n - 1], run[n]);
    }
  }

  lemma {:induction false} ClosedWritesNothing(c: Config, run: seq<State>, m: nat, n: nat)
    requires Run(c, run) && m <= n < |run| && run[m].phase.Closed?
    ensures run[n].bucket == run[m].bucket && run[n].phase == run[m].phase
    decreases n - m
  {
    if m < n {
      ClosedWritesNothing(c, run, m, n - 1);
      assert Next(c, run[n - 1], run[n - 1 + 1]);
      var a :| Enabled(c, run[n - 1], a) && run[n] == After(c, run[n - 1], a);
    }
  }

  /** Once the seal is in the bucket, uploaded or left by a failed upload, no step
      of the writer changes an object. */
  lemma SealedBucketStays(c: Config, run: seq<State>, m: nat, n: nat)
    requires Run(c, run) && m <= n < |run| && !Unsealed(run[m].bucket)
    ensures run[n].bucket == run[m].bucket
  {
    RunUnsealed(c, run, m);
    ClosedWritesNothing(c, run, m, n);
  }

  /** After a successful Close the uploaded objects are the whole trail, and the
      bucket holds nothing else. */
  lemma ClosedTrail(c: Config, run: seq<State>, n: nat)
    requires Run(c, run) && n < |run| && run[n].phase == Closed(true)
    ensures Flatten(run[n].objects) == Lines(run[n]) && Inv(run[n])
    ensures run[n].bucket == BucketOf(run[n].objects)
  {
    RunInv(c, run, n);
    RunQuiet(c, run, n);
    RunUploaded(c, run, n);
    var f := Flatten(run[n].objects);
    assert f + [] == f;
  }

  // ------------------------------------------------------------ the writer itself

  /** A numbered batch offered line by line while nothing else runs. */
  ghost function OfferAll(c: Config, s: State): State
    decreases |s.pending|
  {
    if |s.pending| == 0 then s
    else if |s.queue| < c.queueSize then OfferAll(c, After(c, s, Offer))
    else OfferAll(c, After(c, s, Overflow))
  }

  /** One line into the queue, or counted as dropped. */
  function Offered(c: Config, s: State, line: Line): State {
    if |s.queue| < c.queueSize then s.(queue := s.queue + [line]) else s.(overflowed := s.overflowed + 1)
  }

  lemma OfferOne(c: Config, s: State, lines: seq<Line>)
    requires |lines| > 0
    ensures OfferAll(c, s.(pending := lines)) == OfferAll(c, Offered(c, s, lines[0]).(pending := lines[1..]))
  {
  }

  ghost function TakeAll(c: Config, s: State): State
    requires s.phase.Open? || s.phase.Closing?
    decreases |s.queue|
  {
    if |s.queue| == 0 then s else TakeAll(c, After(c, s, Take))
  }

  datatype PutResult = Stored | FailedClean | FailedLeaving

  /** One run's writer; the ghost fields carry the history the steps speak of. */
  class Writer {
    const c: Config
    var emitted: nat
    var dropped: nat
    var queue: seq<Line>
    var buf: seq<Line>
    var key: Slot
    var bucket: Bucket
    var phase: Phase
    ghost var objects: seq<seq<Line>>
    ghost var stray: seq<Line>
    ghost var trimmed: nat
    ghost var trims: nat
    ghost var drafts: seq<Draft>

    ghost predicate Valid()
      reads this
    {
      key == Slot(|objects|)
    }

    ghost function View(): State
      reads this
    {
      State(emitted, [], queue, buf, bucket, phase, objects, stray, dropped, trimmed, trims, drafts)
    }

    constructor (c: Config)
      ensures Valid() && View() == START && this.c == c
    {
      this.c := c;
      emitted, dropped, queue, buf, key, bucket, phase := 0, 0, [], [], Slot(0), map[], Open;
      objects, stray, trimmed, trims, drafts := [], [], 0, 0, [];
    }

    /** Numbers the batch, then offers each line, dropping and counting when the
        queue is full; a closing or closed run takes nothing. */
    method Enqueue(batch: seq<Draft>) returns (ok: bool)
      requires Valid()
      modifies this
      ensures Valid() && (ok <==> old(phase).Open?)
      ensures View() == if ok then OfferAll(c, After(c, old(View()), Emit(batch))) else old(View())
    {
      if !phase.Open? { return false; }
      var pending := MarshalLocked(batch);
      emitted, drafts := emitted + |pending|, drafts + batch;
      ghost var goal := OfferAll(c, After(c, old(View()), Emit(batch)));
      for i := 0 to |pending|
        invariant Valid() && OfferAll(c, View().(pending := pending[i..])) == goal
      {
        OfferOne(c, View(), pending[i..]);
        assert pending[i..][1..] == pending[i + 1..];
        OfferLine(pending[i]);
      }
      ok := true;
    }

    method OfferLine(line: Line)
      requires Valid()
      modifies this`queue, this`dropped
      ensures Valid() && View() == Offered(c, old(View()), line)
    {
      if |queue| < c.queueSize { queue := queue + [line]; } else { dropped := dropped + 1; }
    }

    method MarshalLocked(batch: seq<Draft>) returns (lines: seq<Line>)
      ensures lines == Numbered(batch, emitted)
    {
      lines := [];
      var num := emitted;
      for i := 0 to |batch|
        invariant num == emitted + i && lines + Numbered(batch[i..], num) == Numbered(batch, emitted)
      {
        assert batch[i..][1..] == batch[i + 1..];
        num := num + 1;
        var line := Event(num, batch[i].kind, batch[i].reason, batch[i].text);
        Regroup(lines, [line], Numbered(batch[i + 1..], num));
        lines := lines + [line];
      }
    }

    /** Every queued line into the buffer. */
    method Drain()
      requires Valid() && (phase.Open? || phase.Closing?)
      modifies this`queue, this`buf
      ensures Valid() && View() == TakeAll(c, old(View()))
    {
      while |queue| > 0
        invariant Valid() && (phase.Open? || phase.Closing?) && TakeAll(c, View()) == TakeAll(c, old(View()))
        decreases |queue|
      {
        buf := buf + [queue[0]];
        queue := queue[1..];
      }
    }

    /** Uploads the buffer under the current key, then advances; a failure keeps the
        buffer, bounded, and the key. */
    method Flush(put: PutResult, mark: Line) returns (ok: bool)
      requires Valid() && !phase.Closed? && mark.DroppedMark?
      modifies this
      ensures Valid() && (ok <==> old(buf) == [] || put.Stored?)
      ensures View() ==
        if old(buf) == [] then old(View())
        else if ok then After(c, old(View()), PutOk)
        else After(c, old(View()), PutFails(put.FailedLeaving?, mark))
    {
      if |buf| == 0 { return true; }
      if put.Stored? {
        Advance();
        ok := true;
      } else {
        Retain(put.FailedLeaving?, mark);
        ok := false;
      }
    }

    method Advance()
      requires Valid() && !phase.Closed? && buf != []
      modifies this
      ensures Valid() && View() == After(c, old(View()), PutOk)
    {
      ghost var put := buf;
      bucket, buf, key := bucket[key := buf], [], Slot(key.num + 1);
      objects, stray := objects + [put], [];
      if phase.Sealing? { phase := Closed(true); }
    }

    method Retain(left: bool, mark: Line)
      requires Valid() && !phase.Closed? && buf != [] && mark.DroppedMark?
      modifies this
      ensures Valid() && View() == After(c, old(View()), PutFails(left, mark))
    {
      ghost var next := After(c, View(), PutFails(left, mark));
      bucket, buf, phase :=
        if left then bucket[key := buf] else bucket,
        Bounded(buf, c.maxObject, c.maxBuffer, mark),
        if phase.Sealing? then Closed(false) else phase;
      stray, trimmed, trims := next.stray, next.trimmed, next.trims;
    }

    /** Close: no more emits, drain, the seal, the last upload; a second call only
        repeats the verdict. */
    method Close(put: PutResult, mark: Line, text: string) returns (ok: bool)
      requires Valid() && mark.DroppedMark? && (phase.Open? || phase.Closed?)
      modifies this
      ensures Valid() && phase == Closed(ok)
      ensures old(phase).Closed? ==> View() == old(View())
      ensures old(phase).Open? ==> (ok <==> put.Stored?) && Sealed(c, old(View()), View(), put, mark, text)
    {
      if phase.Closed? { return phase.ok; }
      phase := Closing;
      DrainsQueue(c, View());
      Drain();
      SealBuffer(text);
      ok := Flush(put, mark);
    }

    method SealBuffer(text: string)
      requires Valid() && phase.Closing? && queue == []
      modifies this`buf, this`phase
      ensures Valid() && View() == After(c, old(View()), Seal(SealedMark(emitted, text)))
    {
      buf := buf + [SealedMark(emitted, text)];
      phase := Sealing;
    }
  }

  /** The steps one Close takes from an open writer. */
  ghost predicate Sealed(c: Config, s: State, t: State, put: PutResult, mark: Line, text: string)
    requires s.phase.Open? && s.pending == [] && mark.DroppedMark?
  {
    var drained := TakeAll(c, After(c, s, Action.Close));
    && Enabled(c, drained, Seal(SealedMark(s.emitted, text)))
    && var sealing := After(c, drained, Seal(SealedMark(s.emitted, text)));
      t == if put.Stored? then After(c, sealing, PutOk) else After(c, sealing, PutFails(put.FailedLeaving?, mark))
  }

  lemma {:induction false} DrainsQueue(c: Config, s: State)
    requires s.phase.Open? || s.phase.Closing?
    ensures TakeAll(c, s).queue == [] && TakeAll(c, s).phase == s.phase && TakeAll(c, s).emitted == s.emitted
    decreases |s.queue|
  {
    if |s.queue| > 0 { DrainsQueue(c, After(c, s, Take)); }
  }
}
