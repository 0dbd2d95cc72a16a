/** At-least-once delivery across lost sessions (internal/coordinator/flight.go). */
module Redelivery {
  import opened Text

  datatype BatchId = BatchId(num: nat)

  datatype Batch = Batch(id: BatchId, body: string, snapshotRows: bool)

  /** What Go's clear leaves in a slot. */
  const ZERO := Batch(BatchId(0), "", false)

  // --------------------------------------------------- sequences of batches

  /** The batches an ack can name: everything but a snapshot window's rows. */
  function Data(s: seq<Batch>): (r: seq<Batch>) {
    if |s| == 0 then [] else Kept(s[0]) + Data(s[1..])
  }

  function Kept(b: Batch): seq<Batch> { if b.snapshotRows then [] else [b] }

  function Without(s: seq<Batch>, ids: set<BatchId>): (r: seq<Batch>) {
    if |s| == 0 then [] else Spared(s[0], ids) + Without(s[1..], ids)
  }

  function Spared(b: Batch, ids: set<BatchId>): seq<Batch> { if b.id in ids then [] else [b] }

  function Ids(s: seq<Batch>): set<BatchId> {
    if |s| == 0 then {} else {s[0].id} + Ids(s[1..])
  }

  ghost predicate NoneNamed(s: seq<Batch>, ids: set<BatchId>) { Ids(s) !! ids }

  lemma {:induction false} IdsConcat(s: seq<Batch>, t: seq<Batch>)
    ensures Ids(s + t) == Ids(s) + Ids(t)
    decreases |s|
  {
    if |s| == 0 {
      assert s + t == t;
    } else {
      IdsConcat(s[1..], t);
      assert (s + t)[1..] == s[1..] + t;
    }
  }

  lemma IdsOneMore(s: seq<Batch>, b: Batch)
    ensures Ids(s + [b]) == Ids(s) + {b.id}
  {
    IdsConcat(s, [b]);
  }

  lemma IdsOneFirst(b: Batch, s: seq<Batch>)
    ensures Ids([b] + s) == {b.id} + Ids(s)
  {
    assert ([b] + s)[1..] == s;
  }

  lemma {:induction false} DataConcat(s: seq<Batch>, t: seq<Batch>)
    ensures Data(s + t) == Data(s) + Data(t)
    decreases |s|
  {
    if |s| == 0 {
      assert s + t == t;
    } else {
      DataConcat(s[1..], t);
      assert (s + t)[1..] == s[1..] + t;
      Regroup(Kept(s[0]), Data(s[1..]), Data(t));
    }
  }

  lemma DataOneMore(s: seq<Batch>, b: Batch)
    ensures Data(s + [b]) == Data(s) + Kept(b)
  {
    DataConcat(s, [b]);
  }

  lemma DataOneFirst(b: Batch, s: seq<Batch>)
    ensures Data([b] + s) == Kept(b) + Data(s)
  {
    assert ([b] + s)[1..] == s;
  }

  lemma {:induction false} WithoutConcat(s: seq<Batch>, t: seq<Batch>, ids: set<BatchId>)
    ensures Without(s + t, ids) == Without(s, ids) + Without(t, ids)
    decreases |s|
  {
    if |s| == 0 {
      assert s + t == t;
    } else {
      WithoutConcat(s[1..], t, ids);
      assert (s + t)[1..] == s[1..] + t;
      Regroup(Spared(s[0], ids), Without(s[1..], ids), Without(t, ids));
    }
  }

  lemma WithoutOneMore(s: seq<Batch>, b: Batch, ids: set<BatchId>)
    ensures Without(s + [b], ids) == Without(s, ids) + Spared(b, ids)
  {
    WithoutConcat(s, [b], ids);
  }

  lemma {:induction false} WithoutTwice(s: seq<Batch>, a: set<BatchId>, b: set<BatchId>)
    ensures Without(s, a + b) == Without(Without(s, a), b)
    decreases |s|
  {
    if |s| > 0 {
      WithoutTwice(s[1..], a, b);
      WithoutConcat(Spared(s[0], a), Without(s[1..], a), b);
    }
  }

  /** Taking names out changes a sequence exactly when one of them is in it. */
  lemma {:induction false} WithoutNothing(s: seq<Batch>, ids: set<BatchId>)
    ensures Without(s, ids) == s <==> NoneNamed(s, ids)
    ensures |Without(s, ids)| <= |s|
    ensures |Without(s, ids)| == |s| <==> NoneNamed(s, ids)
    decreases |s|
  {
    if |s| > 0 {
      WithoutNothing(s[1..], ids);
      assert s == [s[0]] + s[1..];
      assert NoneNamed(s, ids) <==> NoneNamed(s[1..], ids) && s[0].id !in ids;
    }
  }

  lemma {:induction false} DataAmong(s: seq<Batch>, b: Batch)
    ensures b in Data(s) <==> b in s && !b.snapshotRows
    decreases |s|
  {
    if |s| > 0 {
      DataAmong(s[1..], b);
      assert s == [s[0]] + s[1..];
    }
  }

  lemma {:induction false} WithoutAmong(s: seq<Batch>, ids: set<BatchId>, b: Batch)
    ensures b in Without(s, ids) <==> b in s && b.id !in ids
    decreases |s|
  {
    if |s| > 0 {
      WithoutAmong(s[1..], ids, b);
      assert s == [s[0]] + s[1..];
    }
  }

  lemma {:induction false} DataIds(s: seq<Batch>)
    ensures Ids(Data(s)) <= Ids(s)
    decreases |s|
  {
    if |s| > 0 {
      DataIds(s[1..]);
      if s[0].snapshotRows { assert Data(s) == Data(s[1..]); } else { IdsOneFirst(s[0], Data(s[1..])); }
    }
  }

  /** Dropping batches leaves no snapshot rows where there were none. */
  lemma {:induction false} DataStays(s: seq<Batch>, ids: set<BatchId>)
    ensures Data(Without(Data(s), ids)) == Without(Data(s), ids)
    decreases |s|
  {
    if |s| > 0 {
      DataStays(s[1..], ids);
      var rest := Data(s[1..]);
      if s[0].snapshotRows {
        assert Data(s) == rest;
      } else {
        assert Data(s) == [s[0]] + rest && ([s[0]] + rest)[1..] == rest;
        DataConcat(Spared(s[0], ids), Without(rest, ids));
      }
    }
  }

  // ------------------------------------------------------------- the sent list

  class Worker {
    var queue: seq<Batch>
    var slots: array<Batch>
    var len: nat

    ghost predicate Valid()
      reads this
    {
      len <= slots.Length
    }

    ghost function Sent(): seq<Batch>
      reads this, slots
      requires Valid()
    {
      slots[..len]
    }

    constructor ()
      ensures Valid() && Sent() == [] && queue == [] && fresh(slots)
    {
      slots, len, queue := new Batch[0], 0, [];
    }

    /** Joins the sent list, growing it when full; snapshot rows do not. */
    method RecordSent(b: Batch)
      requires Valid()
      modifies this`slots, this`len, slots
      ensures Valid() && (slots == old(slots) || fresh(slots))
      ensures Sent() == old(Sent()) + Kept(b)
    {
      if b.snapshotRows { return; }
      if len == slots.Length {
        var bigger := new Batch[2 * len + 1](_ => ZERO);
        for i := 0 to len
          invariant bigger[..i] == slots[..i]
          invariant slots == old(slots) && len == old(len) && slots[..] == old(slots[..])
          modifies bigger
        {
          bigger[i] := slots[i];
        }
        slots := bigger;
      }
      slots[len] := b;
      len := len + 1;
    }

    /** Compacts the sent list in place and clears the slots it frees. */
    method DropSent(ids: seq<BatchId>)
      requires Valid()
      modifies this`len, slots
      ensures Valid() && Sent() == Without(old(Sent()), set id | id in ids)
      ensures forall k :: len <= k < old(len) ==> slots[k] == ZERO
      ensures slots[old(len)..] == old(slots[len..])
    {
      if |ids| == 0 {
        WithoutNothing(Sent(), set id | id in ids);
        return;
      }
      var kept := Compact(slots, len, ids);
      Clear(slots, kept, len);
      len := kept;
    }

    /** The copy a new session redelivers. */
    method Redeliver() returns (r: seq<Batch>)
      requires Valid()
      ensures r == Sent()
    {
      r := slots[..len];
    }
  }

  /** Keeps, in order and in place, those of the first n slots no id names. */
  method Compact(slots: array<Batch>, n: nat, ids: seq<BatchId>) returns (kept: nat)
    requires n <= slots.Length
    modifies slots
    ensures kept <= n && slots[..kept] == Without(old(slots[..n]), set id | id in ids)
    ensures slots[n..] == old(slots[n..])
  {
    ghost var named := set id | id in ids;
    ghost var was := slots[..n];
    kept := 0;
    for i := 0 to n
      invariant kept <= i && slots[..kept] == Without(was[..i], named)
      invariant slots[i..] == old(slots[..])[i..]
    {
      assert was[..i] + [was[i]] == was[..i + 1] && slots[i] == slots[i..][0] == was[i];
      WithoutOneMore(was[..i], was[i], named);
      var dropped := Mentions(ids, slots[i].id);
      ghost var rest := slots[i..][1..];
      if !dropped {
        slots[kept] := slots[i];
        kept := kept + 1;
      }
      assert slots[i + 1..] == rest;
    }
    assert was[..n] == was;
  }

  method Clear(slots: array<Batch>, from: nat, to: nat)
    requires from <= to <= slots.Length
    modifies slots
    ensures slots[..from] == old(slots[..from]) && slots[to..] == old(slots[to..])
    ensures forall k :: from <= k < to ==> slots[k] == ZERO
  {
    for k := from to to
      invariant slots[..from] == old(slots[..from]) && slots[to..] == old(slots[to..])
      invariant forall j :: from <= j < k ==> slots[j] == ZERO
    {
      slots[k] := ZERO;
    }
  }

  method Mentions(ids: seq<BatchId>, id: BatchId) returns (found: bool)
    ensures found <==> id in ids
  {
    found := false;
    for i := 0 to |ids|
      invariant id !in ids[..i]
    {
      if id == ids[i] { return true; }
    }
  }

  // ----------------------------------------------------------- whole sessions

  /** Where the stream handler stands; Idle is no handler at all. */
  datatype Phase =
    | Idle
    | Redelivering(left: seq<Batch>)
    | Waiting
    | Popped(batch: Batch)
    | Sending(batch: Batch)

  /** The last six fields are history: the batches enqueued before the latest
      session began and since, all acked ids and those acked before it began, what
      lay ahead of it then, and what it has sent. */
  datatype State = State(
    queue: seq<Batch>, sent: seq<Batch>, phase: Phase,
    before: seq<Batch>, since: seq<Batch>,
    acked: set<BatchId>, acked0: set<BatchId>,
    base: seq<Batch>, shown: seq<Batch>)

  datatype Action =
    | Enqueue(batch: Batch)
    | Begin
    | Resend
    | Serve
    | Pop
    | Record
    | Send
    | Lose
    | Ack(ids: set<BatchId>)

  const START := State([], [], Idle, [], [], {}, {}, [], [])

  function Enqueued(s: State): seq<Batch> { s.before + s.since }

  /** In the handler's hand or in the queue, so not on the sent list. */
  function Unsent(s: State): seq<Batch> { if s.phase.Popped? then [s.phase.batch] + s.queue else s.queue }

  /** Everything the session has still to send. */
  function Todo(s: State): seq<Batch> {
    match s.phase
    case Idle => s.queue
    case Redelivering(left) => left + s.queue
    case Waiting => s.queue
    case Popped(b) => [b] + s.queue
    case Sending(b) => [b] + s.queue
  }

  ghost predicate Enabled(s: State, a: Action) {
    match a
    case Enqueue(b) => b.id !in Ids(Enqueued(s))
    case Begin => s.phase.Idle?
    case Resend => s.phase.Redelivering? && s.phase.left != []
    case Serve => s.phase == Redelivering([])
    case Pop => s.phase.Waiting? && s.queue != []
    case Record => s.phase.Popped?
    case Send => s.phase.Sending?
    case Lose => !s.phase.Idle? && !s.phase.Popped?
    case Ack(ids) => ids <= Ids(Enqueued(s))
  }

  ghost function After(s: State, a: Action): State
    requires Enabled(s, a)
  {
    match a
    case Enqueue(b) => s.(queue := s.queue + [b], since := s.since + [b])
    case Begin =>
      s.(phase := Redelivering(s.sent), before := Enqueued(s), since := [],
         acked0 := s.acked, base := s.sent + s.queue, shown := [])
    case Resend => s.(phase := Redelivering(s.phase.left[1..]), shown := s.shown + [s.phase.left[0]])
    case Serve => s.(phase := Waiting)
    case Pop => s.(phase := Popped(s.queue[0]), queue := s.queue[1..])
    case Record => s.(phase := Sending(s.phase.batch), sent := s.sent + Kept(s.phase.batch))
    case Send => s.(phase := Waiting, shown := s.shown + [s.phase.batch])
    case Lose => s.(phase := Idle)
    case Ack(ids) => s.(sent := Without(s.sent, ids), acked := s.acked + ids)
  }

  // ---------------------------------------------------------------- the runs

  ghost predicate Next(s: State, t: State) { exists a :: Enabled(s, a) && t == After(s, a) }

  ghost predicate Run(run: seq<State>) {
    && |run| > 0 && run[0] == START
    && forall n: nat :: n + 1 < |run| ==> Next(run[n], run[n + 1])
  }

  // ------------------------------------------------ nothing unacked has gone

  /** The unacked of the sent list, then of what waits, is what was enqueued less
      what was acked, in enqueue order. */
  ghost predicate Accounted(s: State) {
    Without(s.sent + Data(Unsent(s)), s.acked) == Without(Data(Enqueued(s)), s.acked)
  }

  /** With nothing else on the sent list or waiting. */
  ghost predicate Ledger(s: State) {
    s.sent + Data(Unsent(s)) == Without(Data(Enqueued(s)), s.acked)
  }

  lemma StepAccounted(s: State, a: Action)
    requires Accounted(s) && Enabled(s, a)
    ensures Accounted(After(s, a))
  {
    match a
    case Enqueue(b) =>
      var t := After(s, a);
      assert Unsent(t) == Unsent(s) + [b] && Enqueued(t) == Enqueued(s) + [b];
      OneMoreOwed(s.sent, Unsent(s), Enqueued(s), s.acked, b);
    case Begin => assert Enqueued(s) + [] == Enqueued(s);
    case Pop => assert [s.queue[0]] + s.queue[1..] == s.queue;
    case Record =>
      DataOneFirst(s.phase.batch, s.queue);
      Regroup(s.sent, Kept(s.phase.batch), Data(s.queue));
    case Ack(ids) => AckAccounted(s.sent, Data(Unsent(s)), Data(Enqueued(s)), s.acked, ids);
    case _ =>
  }

  lemma OneMoreOwed(sent: seq<Batch>, waits: seq<Batch>, enqueued: seq<Batch>, acked: set<BatchId>, b: Batch)
    requires Without(sent + Data(waits), acked) == Without(Data(enqueued), acked)
    ensures Without(sent + Data(waits + [b]), acked) == Without(Data(enqueued + [b]), acked)
  {
    DataOneMore(waits, b);
    DataOneMore(enqueued, b);
    Regroup(sent, Data(waits), Kept(b));
    WithoutConcat(sent + Data(waits), Kept(b), acked);
    WithoutConcat(Data(enqueued), Kept(b), acked);
  }

  lemma AckAccounted(sent: seq<Batch>, waits: seq<Batch>, all: seq<Batch>, acked: set<BatchId>, ids: set<BatchId>)
    requires Without(sent + waits, acked) == Without(all, acked)
    ensures Without(Without(sent, ids) + waits, acked + ids) == Without(all, acked + ids)
  {
    WithoutTwice(all, acked, ids);
    WithoutTwice(sent + waits, acked, ids);
    WithoutConcat(sent, waits, acked + ids);
    WithoutConcat(Without(sent, ids), waits, acked + ids);
    WithoutTwice(sent, ids, acked + ids);
    assert ids + (acked + ids) == acked + ids;
  }

  lemma {:induction false} RunAccounted(run: seq<State>, n: nat)
    requires Run(run) && n < |run|
    ensures Accounted(run[n])
    decreases n
  {
    if n > 0 {
      RunAccounted(run, n - 1);
      assert Next(run[n - 1], run[n - 1 + 1]);
      var a :| Enabled(run[n - 1], a) && run[n] == After(run[n - 1], a);
      StepAccounted(run[n - 1], a);
    }
  }

  /** In every run: with nothing acked left on the sent list or waiting, and only
      then, the two are all that is enqueued and unacked, and no more. */
  lemma RunLedger(run: seq<State>, n: nat)
    requires Run(run) && n < |run|
    ensures Accounted(run[n])
    ensures Ledger(run[n]) <==> NoneNamed(run[n].sent + Data(Unsent(run[n])), run[n].acked)
  {
    RunAccounted(run, n);
    WithoutNothing(run[n].sent + Data(Unsent(run[n])), run[n].acked);
  }

  /** Dropping the named ids from the sent list keeps the ledger exactly when none
      of them still waits in the queue or in the handler's hand. */
  lemma AckExactlyOfSent(s: State, ids: set<BatchId>)
    requires Ledger(s)
    ensures Ledger(s.(sent := Without(s.sent, ids), acked := s.acked + ids)) <==> NoneNamed(Data(Unsent(s)), ids)
    ensures NoneNamed(Unsent(s), ids) ==> NoneNamed(Data(Unsent(s)), ids)
  {
    var waits := Data(Unsent(s));
    var t := s.(sent := Without(s.sent, ids), acked := s.acked + ids);
    assert Unsent(t) == Unsent(s);
    WithoutTwice(Data(Enqueued(s)), s.acked, ids);
    WithoutConcat(s.sent, waits, ids);
    WithoutNothing(waits, ids);
    DataIds(Unsent(s));
    if Ledger(t) {
      assert |Without(s.sent, ids) + waits| == |Without(s.sent, ids) + Without(waits, ids)|;
    }
  }

  // --------------------------------------------------- acks of what still waits

  /** The step acks nothing that still waits. */
  ghost predicate Prompt(s: State, t: State) { NoneNamed(Data(Unsent(s)), t.acked - s.acked) }

  ghost predicate AllPrompt(run: seq<State>) { forall n: nat :: n + 1 < |run| ==> Prompt(run[n], run[n + 1]) }

  ghost predicate Fresh(s: State) { s.acked <= Ids(Enqueued(s)) && NoneNamed(Data(Unsent(s)), s.acked) }

  lemma EnqueueFresh(s: State, b: Batch)
    requires Fresh(s) && Enabled(s, Enqueue(b))
    ensures Fresh(After(s, Enqueue(b)))
  {
    var t := After(s, Enqueue(b));
    assert Unsent(t) == Unsent(s) + [b] && Enqueued(t) == Enqueued(s) + [b];
    IdsOneMore(Enqueued(s), b);
    DataOneMore(Unsent(s), b);
    IdsConcat(Data(Unsent(s)), Kept(b));
    assert Ids(Kept(b)) <= {b.id};
  }

  lemma StepFresh(s: State, a: Action)
    requires Fresh(s) && Enabled(s, a) && Prompt(s, After(s, a))
    ensures Fresh(After(s, a))
  {
    var t := After(s, a);
    match a
    case Enqueue(b) => EnqueueFresh(s, b);
    case Begin => assert Enqueued(s) + [] == Enqueued(s);
    case Pop => assert [s.queue[0]] + s.queue[1..] == s.queue;
    case Record =>
      DataOneFirst(s.phase.batch, s.queue);
      IdsConcat(Kept(s.phase.batch), Data(s.queue));
    case _ =>
  }

  /** In a run that acks nothing still waiting the books are exact throughout. */
  lemma {:induction false} PromptLedger(run: seq<State>, n: nat)
    requires Run(run) && AllPrompt(run) && n < |run|
    ensures Ledger(run[n]) && Fresh(run[n])
    decreases n
  {
    if n > 0 {
      PromptLedger(run, n - 1);
      assert Next(run[n - 1], run[n - 1 + 1]) && Prompt(run[n - 1], run[n - 1 + 1]);
      var a :| Enabled(run[n - 1], a) && run[n] == After(run[n - 1], a);
      StepFresh(run[n - 1], a);
      RunLedger(run, n - 1);
      StepExact(run[n - 1], a);
      RunLedger(run, n);
    }
  }

  lemma StepExact(s: State, a: Action)
    requires NoneNamed(s.sent + Data(Unsent(s)), s.acked) && Enabled(s, a) && Fresh(After(s, a))
    ensures var t := After(s, a); NoneNamed(t.sent + Data(Unsent(t)), t.acked)
  {
    var t := After(s, a);
    IdsConcat(s.sent, Data(Unsent(s)));
    IdsConcat(t.sent, Data(Unsent(t)));
    match a
    case Record =>
      DataOneFirst(s.phase.batch, s.queue);
      IdsConcat(Kept(s.phase.batch), Data(s.queue));
      IdsConcat(s.sent, Kept(s.phase.batch));
    case Ack(ids) => WithoutIds(s.sent, ids);
    case _ =>
  }

  lemma {:induction false} WithoutIds(s: seq<Batch>, ids: set<BatchId>)
    ensures Ids(Without(s, ids)) == Ids(s) - ids
    decreases |s|
  {
    if |s| > 0 {
      WithoutIds(s[1..], ids);
      IdsConcat(Spared(s[0], ids), Without(s[1..], ids));
    }
  }

  /** The other runs: an ack that names the next batch of the queue, as one does that
      takes a batch out of the in-flight index before it was sent. The batch joins
      the sent list acked. */
  lemma EarlyAckIsRecorded(run: seq<State>) returns (run': seq<State>)
    requires Run(run) && run[|run| - 1].phase.Waiting? && run[|run| - 1].queue != []
    requires !run[|run| - 1].queue[0].snapshotRows
    ensures Run(run') && run <= run' && |run'| == |run| + 3
    ensures var b, t := run[|run| - 1].queue[0], run'[|run'| - 1];
      b in t.sent && b.id in t.acked && !Ledger(t)
  {
    var s := run[|run| - 1];
    var b := s.queue[0];
    QueueIsEnqueued(run, |run| - 1);
    IdsAmong(Enqueued(s), b);
    var s1 := After(s, Ack({b.id}));
    var s2 := After(s1, Pop);
    var s3 := After(s2, Record);
    run' := run + [s1, s2, s3];
    forall n: nat | n + 1 < |run'| ensures Next(run'[n], run'[n + 1]) {
      if n + 1 < |run| { assert Next(run[n], run[n + 1]); }
    }
    assert s3.sent[|s3.sent| - 1] == b;
    IdsAmong(s3.sent + Data(Unsent(s3)), b);
    RunLedger(run', |run'| - 1);
  }

  lemma {:induction false} QueueIsEnqueued(run: seq<State>, n: nat)
    requires Run(run) && n < |run|
    ensures forall b :: b in Unsent(run[n]) ==> b in Enqueued(run[n])
    decreases n
  {
    if n > 0 {
      QueueIsEnqueued(run, n - 1);
      assert Next(run[n - 1], run[n - 1 + 1]);
      var a :| Enabled(run[n - 1], a) && run[n] == After(run[n - 1], a);
      QueueStaysEnqueued(run[n - 1], a);
    }
  }

  lemma QueueStaysEnqueued(s: State, a: Action)
    requires Enabled(s, a) && forall b :: b in Unsent(s) ==> b in Enqueued(s)
    ensures var t := After(s, a); forall b :: b in Unsent(t) ==> b in Enqueued(t)
  {
    var t := After(s, a);
    match a
    case Enqueue(b) => assert Unsent(t) == Unsent(s) + [b] && Enqueued(t) == Enqueued(s) + [b];
    case Begin => assert Enqueued(t) == Enqueued(s);
    case Pop => assert Unsent(t) == Unsent(s);
    case Record => assert forall b :: b in s.queue ==> b in Unsent(s);
    case _ => assert Unsent(t) == Unsent(s) && Enqueued(t) == Enqueued(s);
  }

  lemma {:induction false} IdsAmong(s: seq<Batch>, b: Batch)
    requires b in s
    ensures b.id in Ids(s)
    decreases |s|
  {
    if s[0] != b { IdsAmong(s[1..], b); }
  }

  /** The step is an ack that names b. */
  ghost predicate Names(s: State, t: State, b: Batch) {
    exists ids :: b.id in ids && Enabled(s, Ack(ids)) && t == After(s, Ack(ids))
  }

  /** Only an ack that names it takes a batch off the sent list: one whose ack came
      early, and is given once, is redelivered to every later session. */
  lemma {:induction false} StaysOnSentList(run: seq<State>, m: nat, n: nat, b: Batch)
    requires Run(run) && m <= n < |run| && b in run[m].sent
    requires forall k: nat :: m <= k && k + 1 <= n ==> !Names(run[k], run[k + 1], b)
    ensures b in run[n].sent
    decreases n - m
  {
    if m < n {
      StaysOnSentList(run, m, n - 1, b);
      assert Next(run[n - 1], run[n - 1 + 1]) && !Names(run[n - 1], run[n - 1 + 1], b);
      var a :| Enabled(run[n - 1], a) && run[n] == After(run[n - 1], a);
      if a.Ack? { WithoutAmong(run[n - 1].sent, a.ids, b); }
    }
  }

  /** At least once: a batch not yet acked is on the sent list, where the next
      session finds it, or still waits. */
  lemma NothingUnackedIsLost(run: seq<State>, n: nat, b: Batch)
    requires Run(run) && n < |run| && b in Enqueued(run[n])
    requires !b.snapshotRows && b.id !in run[n].acked
    ensures b in run[n].sent + Unsent(run[n])
  {
    RunAccounted(run, n);
    var s := run[n];
    DataAmong(Enqueued(s), b);
    WithoutAmong(Data(Enqueued(s)), s.acked, b);
    WithoutAmong(s.sent + Data(Unsent(s)), s.acked, b);
    DataAmong(Unsent(s), b);
  }

  // -------------------------------------------------------- what a session shows

  /** What the session has sent, then what it has still to send, is what lay ahead
      of it when it began and then what was enqueued since. */
  ghost predicate Stream(s: State) {
    !s.phase.Idle? ==> s.shown + Todo(s) == s.base + s.since
  }

  lemma StepStream(s: State, a: Action)
    requires Stream(s) && Enabled(s, a)
    ensures Stream(After(s, a))
  {
    match a
    case Enqueue(b) =>
      if !s.phase.Idle? {
        assert Todo(After(s, a)) == Todo(s) + [b];
        Regroup(s.shown, Todo(s), [b]);
        Regroup(s.base, s.since, [b]);
      }
    case Resend =>
      var left := s.phase.left;
      assert left + s.queue == [left[0]] + (left[1..] + s.queue);
      Regroup(s.shown, [left[0]], left[1..] + s.queue);
    case Serve => assert [] + s.queue == s.queue;
    case Pop => assert [s.queue[0]] + s.queue[1..] == s.queue;
    case Send => Regroup(s.shown, [s.phase.batch], s.queue);
    case _ =>
  }

  lemma {:induction false} RunStream(run: seq<State>, n: nat)
    requires Run(run) && n < |run|
    ensures Stream(run[n])
    decreases n
  {
    if n > 0 {
      RunStream(run, n - 1);
      assert Next(run[n - 1], run[n - 1 + 1]);
      var a :| Enabled(run[n - 1], a) && run[n] == After(run[n - 1], a);
      StepStream(run[n - 1], a);
    }
  }

  /** What lay ahead of the session was everything then unacked. */
  ghost predicate Base(s: State) {
    && Data(s.sent) == s.sent
    && Without(Data(s.base), s.acked0) == Without(Data(s.before), s.acked0)
    && s.acked0 <= s.acked
  }

  lemma StepBase(s: State, a: Action)
    requires Base(s) && Accounted(s) && Enabled(s, a)
    ensures Base(After(s, a))
  {
    match a
    case Begin => DataConcat(s.sent, s.queue);
    case Record => RecordData(s.sent, s.phase.batch);
    case Ack(ids) => DataStays(s.sent, ids);
    case _ =>
  }

  lemma RecordData(sent: seq<Batch>, b: Batch)
    requires Data(sent) == sent
    ensures Data(sent + Kept(b)) == sent + Kept(b)
  {
    if b.snapshotRows { assert sent + [] == sent; } else { DataOneMore(sent, b); }
  }

  lemma NextBase(s: State, t: State)
    requires Base(s) && Accounted(s) && Next(s, t)
    ensures Base(t)
  {
    var a :| Enabled(s, a) && t == After(s, a);
    StepBase(s, a);
  }

  lemma {:induction false} RunBase(run: seq<State>, n: nat)
    requires Run(run) && n < |run|
    ensures Base(run[n])
    decreases n
  {
    if n > 0 {
      RunBase(run, n - 1);
      RunAccounted(run, n - 1);
      assert Next(run[n - 1], run[n - 1 + 1]);
      NextBase(run[n - 1], run[n]);
    }
  }

  /** A session shows the batches unacked when it began and then those enqueued
      since, in enqueue order and without a gap; nothing else exactly when nothing
      acked lay ahead of it. */
  lemma SessionsReplayInOrder(run: seq<State>, n: nat)
    requires Run(run) && n < |run| && !run[n].phase.Idle?
    ensures var s := run[n];
      Without(Data(s.shown) + Data(Todo(s)), s.acked0) == Without(Data(Enqueued(s)), s.acked0)
    ensures var s := run[n];
      Data(s.shown) + Data(Todo(s)) == Without(Data(s.before), s.acked0) + Data(s.since) <==>
        NoneNamed(Data(s.base), s.acked0)
  {
    RunStream(run, n);
    RunBase(run, n);
    var s := run[n];
    DataConcat(s.shown, Todo(s));
    DataConcat(s.base, s.since);
    DataConcat(s.before, s.since);
    WithoutConcat(Data(s.base), Data(s.since), s.acked0);
    WithoutConcat(Data(s.before), Data(s.since), s.acked0);
    WithoutNothing(Data(s.base), s.acked0);
    if Data(s.base) + Data(s.since) == Without(Data(s.before), s.acked0) + Data(s.since) {
      SameFront(Data(s.base), Without(Data(s.before), s.acked0), Data(s.since));
    }
  }

  /** While a session waits for more, the unacked among what it has shown is the
      unacked of the sent list: every unacked batch out of the queue was shown by this
      very session, once, in enqueue order. */
  lemma SessionHasShownTheSentList(run: seq<State>, n: nat)
    requires Run(run) && n < |run| && run[n].phase.Waiting?
    ensures Without(Data(run[n].shown), run[n].acked) == Without(run[n].sent, run[n].acked)
    ensures Without(Data(run[n].shown), run[n].acked) == run[n].sent <==> NoneNamed(run[n].sent, run[n].acked)
  {
    var s := run[n];
    DataConcat(s.shown, s.queue);
    WithoutConcat(Data(s.shown), Data(s.queue), s.acked);
    WithoutConcat(s.sent, Data(s.queue), s.acked);
    RunStream(run, n);
    RunBase(run, n);
    BaseLessAcked(s.base, s.before, s.since, s.acked0, s.acked);
    RunAccounted(run, n);
    SameFront(Without(Data(s.shown), s.acked), Without(s.sent, s.acked), Without(Data(s.queue), s.acked));
    WithoutNothing(s.sent, s.acked);
  }

  lemma BaseLessAcked(base: seq<Batch>, before: seq<Batch>, since: seq<Batch>,
                      acked0: set<BatchId>, acked: set<BatchId>)
    requires Without(Data(base), acked0) == Without(Data(before), acked0) && acked0 <= acked
    ensures Without(Data(base + since), acked) == Without(Data(before + since), acked)
  {
    DataConcat(base, since);
    DataConcat(before, since);
    WithoutConcat(Data(base), Data(since), acked);
    WithoutConcat(Data(before), Data(since), acked);
    WithoutTwice(Data(base), acked0, acked);
    WithoutTwice(Data(before), acked0, acked);
    assert acked0 + acked == acked;
  }

  lemma SameFront<T>(a: seq<T>, b: seq<T>, c: seq<T>)
    requires a + c == b + c
    ensures a == b
  {
    assert |a + c| == |b + c|;
    assert a == (a + c)[..|a|] && b == (b + c)[..|a|];
  }
}
