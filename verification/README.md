# Urutau: a verified model of its ordering, loss and retention guarantees

Urutau is a change-data-capture engine: it snapshots tables, streams their changes to
workers, and tells the source how far it may discard its log. This project models the
parts of it whose promises are about order, loss and retention, and proves those
promises for every input, every interleaving or every reachable state.
`dafny verify dfyconfig.toml` checks the whole project.

| part | files | main results |
|---|---|---|
| Window gate and the relays that drive it | `Gate`, `GateRuns`, `Relay`, `RelayReuse` | nothing lost, delivered twice or overtaken in any interleaving; no lost wake-up; a closed window holds nothing until it is opened again; each owner's queue carries exactly the delivered batches that hash to it; tagged batches stay inside their window's rows and Closes marker; no batch follows its own window's marker, and by number exactly while no number is used again |
| Position orders | `Order`, `Lsn`, `Gtid`, `GtidText`, `Offsets`, `PositionOrder` | in-place normalisation is exact and canonical; containment, for every kind, is having read all the other has; the safe minimum is the greatest lower bound; text round trips, with the exact condition for each |
| Confirmed position | `Inflight`, `Confirmed`, `Retention`, `RetentionCases` | exactly when a confirmed position covers a batch that is not durable or not yet sent, over whole runs of the protocol, and a run for each way it can |
| Columnar kernel | `Key`, `Keyed`, `Collapse`, `Split` | exact key encoding, across column types too; collapse and split preserve what a batch does to any table |
| Redelivery | `Redelivery` | at-least-once FIFO across any number of lost sessions, and what an early ack leaves behind |
| Enrichment join | `Join`, `JoinCells` | the mask-based columnar join refines a row-at-a-time join with the reference's rows; what stands under each column's name, and which rows each written join type keeps |
| Event trail | `EventTrail`, `TrailKeys`, `TrailReader`, `TrailCache` | every lost event is accounted for after any run, and every event read is the one emitted under its number; the tail scan agrees with the full read; nothing is written once the seal can be read; the cache is the least-recently-used cache it claims to be and never changes an answer |
| Row filters | `Filter` | what a filter says of a row, node by node; negation is Kleene negation; exactly which rows the rendered, not-free filter keeps, drops and fails on, and when these are SQL's |

`Text` holds what several parts share: numerals, splitting and joining, Go's string order.

Concurrent code is a step system whose steps are the critical sections of the source;
the classes run the same sections on mutable fields and their contracts name the
functions the steps use. Go map iteration is any order of the keys.

## Where a promise holds only under a condition

- A GTID set survives printing and parsing exactly when every untagged key has one
  range: the parser reads a third segment as a tag (`GtidText.GtidRoundTrip`,
  `GtidText.GapIsLost`).
- An offset map survives exactly when no topic name holds a ':' or a ';'
  (`Offsets.OffsetsRoundTrip`).
- Over GTID sets the safe minimum exists in every order of the positions exactly when
  they form a chain (`PositionOrder.GtidMinimumInEveryOrder`).
- The documentation says a window is known by its worker's attempt and number, so that a
  lost window's Closes marker closes nothing. Known so, no tagged batch follows its
  window's marker (`SingleRelay.NoneFollowsCloses`). The queue carries the number alone,
  and a session that follows a loss numbers from one again. By number none follows in runs
  that mark no number after its marker (`SingleRelay.NoneFollowsByNumber`); from every
  reachable state that has marked such a number the run can go on to one that does
  (`SingleReuse.ReuseCanFollow`), and one loss is enough (`SingleReuse.LossReusesNumber`).
- Whose positions decide a confirmed position: the workers seen owing that are listed; with
  none the frontier; with no frontier all that are listed. It covers a batch that is not
  durable exactly when its worker is none of them, or was listed past the batch, and the
  others, or the frontier, contain it (`Retention.CoversUndurableExactly`). There are four
  ways into it, and no other (`Retention.ConfirmedCoversOnlyDurable`):
  - A batch enters for an idle worker between the read of the owing set and the read of
    the committed positions (`RetentionCases.BatchEnteringBetweenTheReadsIsMissed`).
  - An earlier piece of a transaction carries the previous position and no partial mark, as
    the Postgres reader sends it, and an ack of that position pops it. A batch that is not
    durable pops exactly then (`Retention.PopsBeforeDurable`,
    `RetentionCases.UnmarkedPieceIsMissed`).
  - An owner added while nothing is confirmed is not listed until its first ack
    (`RetentionCases.UnlistedOwnerIsMissed`).
  - An added owner is listed at a position already past a batch it is sent later
    (`RetentionCases.SeededPastIsCovered`).
- A confirmed position covers a batch that enters later, for a worker that stays, exactly
  when the same condition holds of it (`Retention.CoversLaterExactly`). It never does while
  no position of the time of the read, a marker's included, is at or beyond what is still
  to come (`Retention.ConfirmedCoversNothingLater`). Two ways break that:
  - A transaction on two tables is sent under one position, and its second table can be
    confirmed before it is sent (`RetentionCases.SecondTableIsConfirmedUnsent`).
  - A window's Closes marker carries the reader's position, past batches of its table still
    to come, and is noted as sent (`RetentionCases.MarkerConfirmsTheUnsent`).
- The sent list, then what waits, is exactly what was enqueued and not acked as long as
  nothing acked is among them (`Redelivery.RunLedger`), so in every run whose acks name
  nothing still waiting (`Redelivery.PromptLedger`). An ack that takes a batch out of the
  in-flight index before it was sent breaks it: the batch joins the sent list acked
  (`Redelivery.EarlyAckIsRecorded`) and stays there (`Redelivery.StaysOnSentList`).
- Trail keys sort in creation order exactly up to 10^6 objects (`TrailKeys.CreationOrder`).
- The join's documentation says a NULL key is a miss. That is so exactly when the key
  reader knows the type of the reference's join column: a non-null cell it cannot read
  is indexed under the NULL key (`Join.NullKeyMisses`, `Join.NullKeyCanHit`).
- A leaf evaluated on decoded rows agrees with the snapshot's SQL on every row exactly when
  no NULL stands in its list under `not in`, or on a column compared through an exact
  helper (`Filters.LeafAgrees`). Validation lets both through: the first keeps rows SQL
  drops, the second makes the evaluation return an error (`Filters.NullInListParts`,
  `Filters.NullInListFails`). What a whole expression does to a row is exact in
  `Filters.RunDecides`; it never drops a row SQL keeps (`Filters.RenderedDropsNoSqlRow`).

## Model

| member | source | states |
|---|---|---|
| `Gate.KeyInjective` | internal/gate/gate.go:32 | two windows share a map key exactly when they are the same window, whatever characters the target holds |
| `Gate.Gate.constructor` | internal/gate/gate.go:85-98 | a new gate holds nothing, has no open window and no readiness mark |
| `Gate.Gate.OpenKeyLocked` | internal/gate/gate.go:333-347 | finds an open window of the target exactly when there is one |
| `Gate.Gate.FullLocked` | internal/gate/gate.go:350-358 | full exactly when a positive bound is reached by count or by bytes |
| `Gate.Gate.AppendLocked` | internal/gate/gate.go:361-366 | the item joins the end of what the window holds and its size the tally, nothing else changes |
| `Gate.Gate.TakeLocked` | internal/gate/gate.go:370-375 | takes everything the window holds, in order, and clears its tally |
| `Gate.Gate.WakeLocked` | internal/gate/gate.go:378-381 | moves to the next wake epoch and changes nothing else |
| `Gate.Gate.SealLocked` | internal/gate/gate.go:244-249 | the window is no longer open, its mark is gone, what is held is as it was, no other window changes, and the producer is woken |
| `Gate.Gate.Open` | internal/gate/gate.go:106-112 | opens the window and leaves what is held, marked and counted as it is |
| `Gate.Gate.MarkReady` | internal/gate/gate.go:117-126 | marks the window ready for the id only while it is open, and wakes the producer |
| `Gate.Gate.ClearReady` | internal/gate/gate.go:131-135 | takes the mark away and leaves what is held |
| `Gate.Gate.HoldPass` | internal/gate/gate.go:146-183 | one pass of the producer's loop: not held exactly when no window of the target is open; appended below both bounds, drained early when ready, and made to wait otherwise |
| `Gate.Gate.FlushTake` | internal/gate/gate.go:187-200 | what the flush takes, in order, and the gate it leaves |
| `Gate.Gate.CloseTake` | internal/gate/gate.go:211-240 | one round of the close: takes what is held and stays open, or finds nothing and leaves the window not open |
| `Gate.Gate.DrainTake` | internal/gate/gate.go:386-403 | an early drain takes only from a window that is open and ready, tagged with the id it is ready for |
| `Gate.CloseRoundEnds` | internal/gate/gate.go:211-249 | a round of Close that finds nothing held leaves the window not open; any other takes all of it and leaves it open; no round touches another window |
| `Gate.TakesLeaveOpen` | internal/gate/gate.go:187-200 | a flush takes everything and unmarks, an early drain takes only from an open, ready window; both leave the window open and every other as it was |
| `GateRuns.StepInv` | internal/gate/gate.go:106-240 | every critical section, in any order, keeps the gate's shape, the lock's role, the reason a producer waits and the ledger of every target |
| `GateRuns.NothingLostOrOvertaken` | internal/gate/gate.go:146-240 | in every state of every run, the items offered for a target are those delivered, then those being delivered, then those held, then the producer's, in offer order; with no window open nothing is held or being delivered |
| `GateRuns.NoLostWakeUp` | internal/gate/gate.go:117-183 | a producer waiting on the current wake channel faces a window of its target that is open, not ready, and at its count or its byte bound |
| `GateRuns.CloseEnds` | internal/gate/gate.go:211-249 | the step with which a Close ends leaves its window not open, holding nothing, and every other window as it was |
| `GateRuns.ClosedWindowHoldsNothing` | internal/gate/gate.go:146-249 | in every run, from the end of a Close of a window to its next Open the window is not open, and with no other window of its target open the next pass of Hold lets the item through |
| `GateRuns.WindowsWithinBounds` | internal/gate/gate.go:350-381 | the byte tally is the sum of the held sizes; a window fed only by Hold never exceeds the count bound and was below the byte bound before its newest item |
| `Queues.NestedEncloses` | internal/coordinator/snapshot_hash.go:208-317 | in a properly bracketed queue a tagged batch lies after its window's rows and before its Closes marker, with no other window's between |
| `FanoutRelay.RefinesGate` | internal/coordinator/snapshot_hash.go:168-317 | every step of the fan-out relay is a step of the gate or leaves it alone |
| `FanoutRelay.RRunInv` | internal/coordinator/snapshot_hash.go:168-317 | in every run of any number of chunks, the lock, the readiness mark and every owner's queue stand where the relay's position says |
| `FanoutRelay.TaggedInsideItsWindow` | internal/coordinator/snapshot_hash.go:168-317 | with early drains at any moment, every batch tagged for a window that is on an owner's queue sits after that window's rows and before its Closes marker |
| `FanoutRelay.OwnersGetTheirShares` | internal/coordinator/enqueue.go:124-149 | in every run, the live batches on an owner's queue, in order, are exactly the items delivered for the table that are routed to that owner, each with the tag it was delivered under |
| `SingleRelay.RefinesGate` | internal/snapshot/range.go:122-272 | every step of the single-owner path is a step of the gate or leaves it alone |
| `SingleRelay.RRunInv` | internal/coordinator/snapshot.go:207-244 | in every run, with any number of sessions lost, no closed window can be named any more, by the mark or by a send under way; the same by number when no number is used again |
| `SingleRelay.QueueIsDelivered` | internal/coordinator/gate.go:29-31 | in every run, the live batches on the queue, in order, are exactly the items delivered for the table, each with its tag |
| `SingleRelay.NoneFollowsCloses` | internal/snapshot/range.go:112-122 | in every run, no batch tagged for a window, known by attempt and number, follows that window's Closes marker |
| `SingleRelay.NoneFollowsByNumber` | internal/coordinator/snapshot.go:207-244 | by the number on the queue, in every run that marks no number after its Closes marker |
| `SingleReuse.ComesToRest` | internal/gate/gate.go:146-240 | from every reachable state of a marked window, the lock can be freed and the producer can finish: nobody is stuck |
| `SingleReuse.ReuseCanFollow` | internal/worker/remote/chunk_exec.go:44 | from every reachable state that has marked a number whose Closes marker is queued, a run goes on to a batch behind the marker of its own number |
| `SingleReuse.LossReusesNumber` | internal/worker/remote/remote.go:370 | a run with one loss, for any gate and any batch, whose queue is the first session's marker and then a batch tagged with its number |
| `Lsn.LsnRoundTrip` | position/lsn.go:17-46 | parsing undoes printing for every 64-bit LSN |
| `Lsn.LsnReads` | position/lsn.go:17-38 | a text is an LSN exactly when, trimmed, it is two hexadecimal numerals of at most 32 bits around the first slash, and means the first times 2^32 plus the second |
| `Gtid.Sort` | position/gtid.go:61-92 | the array ends sorted by start, then stop, and is a permutation of what it was |
| `Gtid.MergeInPlace` | position/gtid.go:61-92 | the loop that overwrites the front of the slice it still reads leaves the merge of the whole slice |
| `Gtid.Normalize` | position/gtid.go:61-92 | in place: exactly the same transactions, sorted, with a gap between any two ranges |
| `Gtid.MergeHas` | position/gtid.go:61-92 | merging a sorted list keeps exactly its transactions |
| `Gtid.NormalFormUnique` | position/gtid.go:61-92 | a normal list is determined by its transactions |
| `Gtid.ContainsIntervals` | position/gtid.go:96-110 | the scan finds a covering range for each range exactly when there is one |
| `Gtid.Gtid.ContainsSet` | position/gtid.go:239-256 | decides containment server by server |
| `Gtid.OneRange` | position/gtid.go:96-110 | in a normal list a range whose numbers all occur lies inside one range |
| `Gtid.ContainsIsInclusion` | position/gtid.go:239-256 | on well-formed sets Contains is exactly inclusion of transactions |
| `Gtid.CompareDecides` | position/gtid.go:219-236 | Compare answers by inclusion: equal, before, after, or incomparable |
| `Gtid.NormalIsCanonical` | position/gtid.go:61-110 | two normal lists covering each other are the same list |
| `Gtid.MutualContainmentIsEquality` | position/gtid.go:191-256 | sets that contain each other are the same map, so they print alike |
| `Gtid.ContainsPreorder` | position/gtid.go:239-256 | containment is reflexive and transitive, normal or not |
| `Gtid.Gtid.Add` | position/gtid.go:259-263 | the set ends with the transactions of both, well formed |
| `Gtid.UnionIsLeastUpperBound` | position/gtid.go:259-263 | a well-formed set with the transactions of both is their least upper bound |
| `GtidText.AcceptedIntervalsFit` | position/gtid.go:31-58 | an accepted interval did not wrap 64 bits and holds its first number up to and including its last |
| `GtidTextMeaning.IntervalAccepted` | position/gtid.go:31-58 | an interval is accepted exactly when it is one numeral, or two with a dash between and the second no less, below 2^64 - 1, and means the numbers from the first to the last |
| `GtidText.IntervalRoundTrip` | position/gtid.go:23-58 | parsing undoes printing for every interval that fits |
| `GtidText.EntryParsed` | position/gtid.go:144-209 | what the parser makes of a printed entry: itself when tagged or of one range, otherwise the first range taken for a tag |
| `GtidText.GtidRoundTrip` | position/gtid.go:144-209 | parsing undoes printing, in every key order, if and only if every untagged key has one range |
| `GtidText.GapIsLost` | position/gtid.go:144-209 | a text the parser accepts, and the set it yields does not survive its own text |
| `GtidText.ParseGTID` | position/gtid.go:144-179 | the loop computes the specified parse, and whatever it accepts is well formed and fits 64 bits |
| `GtidTextMeaning.ParseAddsUp` | position/gtid.go:144-179 | a text parses exactly when each of its parts does, and then names a server's transaction exactly when one of its parts does: parts with one key add up |
| `Offsets.ContainsLoop` | position/offsets.go:211-228 | decides, in any walk of the maps, whether every partition the other carries is here, at or beyond its offset; a topic without partitions asks for nothing |
| `Offsets.ContainsIsReading` | position/offsets.go:210-230 | one position contains another exactly when it has read every record, by topic, partition and number, that the other has |
| `Offsets.AdvancingIsGreater` | position/offsets.go:142-173 | raising one partition's offset, or adding a partition, gives a strictly greater position |
| `Offsets.MeetLoop` | position/offsets.go:184-206 | computes the meet over every topic, in any walk of the maps |
| `Offsets.MeetPartsLoop` | position/offsets.go:184-206 | computes the meet of one topic's partitions |
| `Offsets.ContainsPreorder` | position/offsets.go:211-228 | containment is reflexive and transitive |
| `Offsets.MeetIsGreatestLowerBound` | position/offsets.go:184-206 | the meet is contained in both and contains whatever both contain |
| `Offsets.MeetReadsBoth` | position/offsets.go:184-206 | the meet has read exactly the records both have |
| `Offsets.PartsRoundTrip` | position/offsets.go:79-141 | one topic's partitions survive printing and parsing in any order |
| `Offsets.OffsetsRoundTrip` | position/offsets.go:79-141 | parsing undoes printing, in every walk, if and only if no topic holds a ':' or a ';' |
| `OffsetsTextMeaning.ParseGives` | position/offsets.go:79-113 | a text parses exactly when every entry gives a topic its partitions and none gives a topic again, and yields just those topics |
| `OffsetsTextMeaning.LastPairCounts` | position/offsets.go:89-107 | one bad pair fails the list, and of two pairs for one partition the later counts |
| `PositionOrder.Preorder` | position/position.go:17-27 | containment is a preorder for every kind of position |
| `PositionOrder.CompareIsContainment` | position/position.go:17-27 | Compare's answer says exactly which of the two contains the other |
| `PositionOrder.ContainsIsReading` | position/position.go:17-27 | for every kind, containing is having read all that the other has, and comparing as less is having read less |
| `PositionOrder.LowerIsGreatestLowerBound` | position/position.go:119-131 | one step of the fold takes a greatest lower bound whenever it succeeds |
| `PositionOrder.MinSafe` | position/position.go:96-114 | the loop computes the specified fold: nothing, a position, or a failure |
| `PositionOrder.MinSafeIsGreatestLowerBound` | position/position.go:96-114 | a result is contained in every input, and contains everything every input contains |
| `PositionOrder.MinSafeNeverFails` | position/position.go:96-131 | over Kafka offsets, and over LSNs, there is always a result |
| `PositionOrder.PermutationsAgree` | position/position.go:96-131 | over Kafka offsets every permutation of the inputs gives a Compare-equal result |
| `PositionOrder.GtidMinimumInEveryOrder` | position/position.go:96-131 | over GTID sets there is a result in every order if and only if the inputs form a chain |
| `PositionOrder.Ahead` | position/position.go:138-150 | lists, sorted, exactly the names whose position compares beyond the global one |
| `PositionOrder.AheadOfTheMinimum` | position/position.go:138-150 | beyond the safe minimum means strictly containing it |
| `Inflight.PositionIndex.Add` | internal/inflight/index.go:54-60 | the batch joins the end of the head list |
| `Inflight.PositionIndex.PopCoveredLocked` | internal/inflight/index.go:148-171 | pops exactly the longest front of the list that acks cover, and returns its ids in order |
| `Inflight.PositionIndex.Truncate` | internal/inflight/index.go:134-143 | records the ack where it advances its table, then pops the front that does not stay; the ids returned are those popped, in order, and the head left is empty or stays |
| `Inflight.PositionIndex.ReleaseMarker` | internal/inflight/index.go:176-191 | removes the marker wherever it stands, then pops the front that does not stay; the ids returned are the marker's, if it was there, and those popped |
| `Inflight.FrontLeaves` | internal/inflight/index.go:148-171 | a pop leaves a head that is empty, a marker, or a batch whose table is not acked through it, and takes only batches that are none of these |
| `Inflight.PopsUnlessStays` | internal/inflight/index.go:148-171 | a batch pops exactly when it is no marker and its table is acked through its position, beyond it when it is partial, in terms of containment |
| `Inflight.AckRecords` | internal/inflight/index.go:130-143 | an ack moves its table to the greater of the two positions, leaves it where they have no order, and touches no other table |
| `Inflight.FirstMarker` | internal/inflight/index.go:176-191 | releasing a marker takes out the first of that id, leaves every other batch in order, and changes nothing when there is none |
| `Inflight.KeptUnlessPopped` | internal/inflight/index.go:148-171 | a batch no ack covers stays in flight |
| `Confirmed.Positions.Record` | internal/confirmed/positions.go:37-44 | sets the worker's position; nil changes nothing |
| `Confirmed.Positions.Baseline` | internal/confirmed/positions.go:50-54 | sets the worker's position, nil included |
| `Confirmed.Positions.Seed` | internal/confirmed/positions.go:57-63 | registers a worker only when it is not there |
| `Confirmed.Positions.Forget` | internal/confirmed/positions.go:66-70 | the worker is no longer counted |
| `Confirmed.Positions.Min` | internal/confirmed/positions.go:112-150 | nil exactly when no worker is listed or one that decides has no position; the frontier when none owes and there is one; otherwise the greatest position every deciding worker contains, and incomparable only over GTID sets of which neither contains the other |
| `Confirmed.Owing` | internal/confirmed/acks.go:116-127 | a worker owes exactly when it has queued, in-flight or buffered batches |
| `Confirmed.AckHost.OnAck` | internal/confirmed/acks.go:72-101 | the outcome of every kind of ack, the index it leaves, and that only a direct commit records a position |
| `Confirmed.Sent.Note` | internal/confirmed/sent.go:20-30 | the table's latest non-empty position |
| `Confirmed.Sent.Frontier` | internal/confirmed/sent.go:61-92 | nothing exactly when no table's position parses; otherwise the sent position that contains all the others, and incomparable only over two that neither contains |
| `Confirmed.FrontierIsGreatest` | internal/confirmed/sent.go:61-92 | a frontier is one of the parsed positions and contains all of them |
| `Confirmed.FrontierOrderDoesNotMatter` | internal/confirmed/sent.go:61-92 | two walks that both give a frontier give Compare-equal ones |
| `Confirmed.ChainHasFrontier` | internal/confirmed/sent.go:61-92 | positions that form a chain never give an error |
| `Retention.PopsBeforeDurable` | internal/inflight/index.go:145-172 | a batch that is not durable pops exactly when neither the position it carries nor a partial mark guards it and its table is acked at or beyond that position |
| `Retention.RunInv` | internal/coordinator/enqueue.go:336-370 | in every run, whatever pieces a transaction is sent in, however many workers share a position, and with batches behind their own table's markers: acked positions are those of durable batches, a committed position is one of these or the one its worker was listed at, and what is sent and not durable is in flight unless it left early |
| `Retention.AnswerHolds` | internal/confirmed/positions.go:100-150 | the answer contains a position exactly when every listed owing worker's committed position does; with none owing, exactly when the frontier does, or with no frontier every listed worker's |
| `Retention.CoversUndurableExactly` | internal/coordinator/confirmed.go:33-68 | an answer contains a batch that is not durable if and only if its worker decides nothing, or was listed past it, and every other decider, or the frontier, contains it |
| `Retention.ConfirmedCoversOnlyDurable` | internal/coordinator/confirmed.go:33-68 | with none entering for the batch's worker between the reads unless that was seen owing, an answer contains no batch that is not durable, did not leave the index early, and whose worker is listed at no position past it |
| `Retention.FrontierNamesNothingMissed` | internal/coordinator/confirmed.go:34-39 | every batch sent when the frontier is read is, when the owing set is read, durable, or its worker is seen owing, or it left the index early |
| `RetentionCases.OtherOrderWouldMiss` | internal/confirmed/positions.go:103-107 | a run in which the owing set read first confirms a batch that is not durable |
| `Retention.CoversLaterExactly` | internal/coordinator/confirmed.go:33-68 | an answer contains a batch that enters later for a worker that stays if and only if the same condition holds: none of that worker's own committed positions ever does, except the one it was listed at |
| `Retention.ConfirmedCoversNothingLater` | internal/coordinator/confirmed.go:33-68 | an answer contains nothing that no position of the time of the read, a marker's included, is at or beyond |
| `RetentionCases.BatchEnteringBetweenTheReadsIsMissed` | internal/coordinator/confirmed.go:33-68 | for any such positions, a run in which a batch enters between the two reads and the answer contains it |
| `RetentionCases.UnmarkedPieceIsMissed` | internal/source/postgres/txnflush.go:27-66 | for any such positions, a run in which an unmarked piece of a transaction leaves the index with the batch before it, and the answer contains it while it is not durable |
| `RetentionCases.SecondTableIsConfirmedUnsent` | internal/source/mysql/reader.go:566-616 | for any such positions, a run in which a transaction's position is confirmed after its first table's batch and before its second's enters |
| `RetentionCases.MarkerConfirmsTheUnsent` | internal/worker/window.go:252-255 | for any such positions, a run in which a window's marker is noted and acked, its position is confirmed, and a batch of its table that it contains enters |
| `RetentionCases.SeededPastIsCovered` | internal/coordinator/repartition.go:236-252 | the same run, with a worker listed at that position and then sent such a batch: the answer contains it while the worker is seen owing |
| `RetentionCases.UnlistedOwnerIsMissed` | internal/coordinator/repartition.go:244-247 | a run in which an owner added while nothing is confirmed owes a batch and the answer contains it |
| `Key.EncodeKey` | internal/columnar/key.go:31-169 | the loop builds the specified bytes and fails exactly on too few indices, one out of range, a NULL or an unsupported type |
| `Key.FieldPrefixFree` | internal/columnar/key.go:31-169 | no encoded field is a proper prefix of another of its column type |
| `Key.EncodePrefixFree` | internal/columnar/key.go:31-169 | no encoded key is a proper prefix of another over the same column types |
| `Key.EncodeInjective` | internal/columnar/key.go:31-169 | encoded keys are equal exactly when the keys are |
| `KeyLayout.TypesCannotCollide` | internal/columnar/key.go:20-24 | keys over different column types are never equal, nor is one the start of the other |
| `KeyLayout.FieldLayout` | internal/columnar/key.go:31-169 | a field is its type's tag, then the number in little-endian two's complement, the flag, the bytes, or their length in four bytes and the bytes |
| `Keyed.ApplyDecides` | internal/columnar/collapse.go:13-20 | applying rows in sequence leaves each key as its own last row says |
| `Keyed.LastRowRules` | internal/columnar/collapse.go:13-20 | a key whose last row is a delete is absent, any other key that has a row holds its last row's cells, and a key without one is as it was |
| `Collapse.CollapseBatch` | internal/columnar/collapse.go:47-181 | encodes, checks, groups and splits: the specified upserts and deletes, or failure exactly on an unencodable key or an unknown operation |
| `Collapse.GroupByCode` | internal/columnar/collapse.go:73-98 | the one-pass grouping finds the last row of each key in first-appearance order |
| `Collapse.SameWinners` | internal/columnar/collapse.go:73-98 | grouping by any exact encoding is grouping by key |
| `Collapse.WinnersAreLast` | internal/columnar/collapse.go:73-98 | each winner is the last row of its key, every key has exactly one |
| `Collapse.FirstAppearanceOrder` | internal/columnar/collapse.go:73-98 | winners come in the order their keys first appear |
| `Collapse.CollapsePreservesMeaning` | internal/columnar/collapse.go:47-181 | from any table, deletes then upserts, or upserts then deletes, give what every row in sequence gives |
| `Collapse.OutputsCoverKeysOnce` | internal/columnar/collapse.go:47-181 | the outputs share no key and hold one row of the batch per distinct key |
| `Collapse.OutputsAreLastRows` | internal/columnar/collapse.go:47-181 | the upserts are exactly the rows last with their key that are no deletes, the deletes exactly those that are |
| `Split.SplitByOwner` | internal/columnar/split.go:18-78 | each owner gets its own rows in batch order, or nothing when it has none |
| `Split.SharesPartitionRows` | internal/columnar/split.go:18-78 | every row is in its owner's share and in no other place, and the shares are as many as the rows |
| `Split.IndicesOwned` | internal/columnar/split.go:18-78 | a share holds only its owner's rows, in batch order |
| `Split.AnyInterleavingAgrees` | internal/coordinator/enqueue.go:121-148 | since the owner is a function of the key, any interleaving of the shares leaves a keyed table as the source batch does |
| `Redelivery.Worker.RecordSent` | internal/coordinator/flight.go:76-83 | the batch joins the end of the sent list unless it is a snapshot window's rows |
| `Redelivery.Worker.DropSent` | internal/coordinator/flight.go:90-116 | in place: the list keeps, in order, what no id names, and the freed slots are cleared |
| `Redelivery.Compact` | internal/coordinator/flight.go:97-109 | the compaction over the slice being read keeps exactly what no id names, in order |
| `Redelivery.Worker.Redeliver` | internal/coordinator/flight.go:38-40 | the copy a session replays is the sent list |
| `Redelivery.AckExactlyOfSent` | internal/coordinator/flight.go:90-116 | an ack keeps the books exactly when it names nothing that still waits to be sent |
| `Redelivery.RunLedger` | internal/coordinator/flight.go:25-116 | in every run, the unacked of the sent list then of what waits is enqueued minus acked, in enqueue order; the two hold nothing else if and only if nothing acked is among them |
| `Redelivery.PromptLedger` | internal/coordinator/flight.go:25-116 | in every run whose acks name nothing still waiting, sent then waiting is enqueued minus acked, in enqueue order |
| `Redelivery.EarlyAckIsRecorded` | internal/coordinator/confirmed.go:168-188 | from every reachable state with a batch next in the queue, an early ack of it leads to the batch on the sent list, acked |
| `Redelivery.StaysOnSentList` | internal/coordinator/flight.go:90-116 | only an ack that names it takes a batch off the sent list, in every run |
| `Redelivery.NothingUnackedIsLost` | internal/coordinator/flight.go:25-116 | an unacked batch is on the sent list or still waits |
| `Redelivery.SessionsReplayInOrder` | internal/coordinator/flight.go:25-68 | in every run, what a session has shown, then what it has still to send, is what was unacked when it began, then what was enqueued since, in order; with nothing acked in between if and only if nothing acked lay ahead of it |
| `Redelivery.SessionHasShownTheSentList` | internal/coordinator/flight.go:25-68 | while a session waits, the unacked part of what it has shown is the unacked part of the sent list, and the whole list if and only if nothing acked is on it |
| `Join.NormalizeKeyDecides` | internal/enrich/enrich_refresh.go:310-336 | normalised keys are equal exactly for equal integers, equal characters, or the same value |
| `Join.BuildIndex` | internal/enrich/enrich_refresh.go:276-300 | succeeds exactly when the non-null keys are distinct, and then points each at its row and holds no other |
| `Join.LookupIsSearch` | internal/enrich/enrich_refresh.go:276-336 | looking a key up finds the one reference row that has its value, if and only if there is one |
| `Join.NullKeyMisses` | internal/enrich/enrich_refresh.go:276-300 | a NULL event key misses if and only if every non-null reference key can be read |
| `Join.NullKeyCanHit` | internal/enrich/enrich_refresh.go:276-300 | one unreadable key, and a NULL key finds it |
| `Join.MembershipMask` | internal/enrich/columnar_mask.go:74-86 | true exactly where the index knows the row's key |
| `Join.GatherRefColumns` | internal/enrich/columnar_values.go:46-86 | each row gets the matched reference row or NULLs; fails exactly when a matched value cannot be held |
| `Join.InsertColumns` | internal/enrich/columnar.go:212-228 | replaces a column of the destination's name or appends one: under each destination's name stands its own column, under every other name what stood there, and the name index stays right |
| `Join.PutUnder` | internal/enrich/columnar.go:214-226 | under each destination's name stands its own value, the later of two for one name |
| `Join.PutElsewhere` | internal/enrich/columnar.go:214-226 | a name that is no destination keeps what stands under it |
| `Join.PutColumnsByRow` | internal/enrich/columnar.go:212-228 | inserting columns inserts into every row that row's values |
| `Join.RowStepByRows` | internal/enrich/columnar.go:145-297 | what one reference makes of a row, told by the reference's rows and no index: the matching row and the join type decide, and for a delete or without a match the join type alone |
| `Join.Refine` | internal/enrich/columnar.go:230-297 | the masks keep a row, and count it as a miss, by its own delete mark, lookup and join type |
| `Join.JoinOne` | internal/enrich/columnar.go:142-302 | one reference over whole columns does to every kept row what the row-at-a-time step does, and fails exactly when that fails on one |
| `Join.JoinAll` | internal/enrich/columnar.go:142-302 | any list of references leaves every row as the row-at-a-time join does, with every miss counted |
| `Join.JoinColumns` | internal/enrich/columnar.go:66-337 | the same surviving rows in the same order with the same values and metadata; kept plus dropped is the input count; failure exactly when a join column is missing or a row fails |
| `JoinCells.ColumnsShow` | internal/enrich/columnar.go:142-337 | a row of the joined batch shows, under a destination of any reference that no later one writes again, the value of the reference row that matches it, or NULL for a delete or without a match |
| `JoinCells.ColumnsLeave` | internal/enrich/columnar.go:142-337 | under a name no reference writes the joined batch shows what the surviving event row brought |
| `JoinCells.InnerMissesAreDrops` | internal/enrich/columnar.go:230-337 | with inner joins alone a batch's miss count is the number of rows it drops |
| `Join.PickOf` | internal/enrich/columnar.go:324-336 | the filter keeps every row its mask keeps |
| `Join.PicksAscend` | internal/enrich/columnar.go:324-336 | and keeps them in order |
| `Join.Stage.ColumnarJoin` | internal/enrich/columnar.go:66-337 | as JoinColumns, and the counters grow by this batch's misses and drops, or not at all when it fails |
| `JoinCells.WrittenTypeKeeps` | internal/enrich/columnar.go:30-41 | "left semi" keeps deletes and rows with a match, "left anti" deletes and rows without, both unchanged; "inner" drops exactly the rows, no deletes, without a match; any other text drops none |
| `JoinCells.KeptByText` | internal/enrich/columnar.go:30-61 | over any list of declared references, a row that fails nothing survives exactly when every reference, by its written type and its matching rows, lets it pass |
| `JoinCells.MissIsUnmatched` | internal/enrich/columnar.go:230-246 | a row is counted as a miss exactly when it is no delete and no reference row matches it |
| `Join.DeletesSurvive` | internal/enrich/columnar.go:51-61 | a delete survives every reference, misses nothing and fails nothing |
| `Join.DeletesCarryNulls` | internal/enrich/columnar.go:51-61 | a delete leaves with NULL under every column a reference injects |
| `TrailLines.BoundBuffer` | internal/eventlog/eventlog_flush.go:123-152 | the trim found in bytes leaves the lines bounded: whole lines only, a marker in the place of those removed |
| `TrailLines.TrimBetweenLines` | internal/eventlog/eventlog_flush.go:127-135 | the next newline after the target is the end of the line that holds the target |
| `TrailLines.TrimKeepsNewest` | internal/eventlog/eventlog_flush.go:123-152 | a buffer within either bound is not trimmed; any other keeps, behind the marker, the longest run of newest lines under the object size |
| `TrailWriter.Writer.Enqueue` | internal/eventlog/eventlog_flush.go:14-43 | numbers the batch and offers line by line, counting what a full queue turns away; nothing once closing |
| `TrailWriter.Writer.MarshalLocked` | internal/eventlog/eventlog_flush.go:230-253 | consecutive numbers after those already given |
| `TrailWriter.Writer.Drain` | internal/eventlog/eventlog_flush.go:71-80 | every queued line into the buffer, in order |
| `TrailWriter.Writer.Flush` | internal/eventlog/eventlog_flush.go:93-116 | success stores the buffer under its key and advances; failure keeps the key and the bounded buffer, whatever was left under the key |
| `TrailWriter.Writer.Close` | internal/eventlog/eventlog_flush.go:155-223 | drains, seals with the final count, uploads; a second call repeats the verdict |
| `TrailWriter.StepInv` | internal/eventlog/eventlog_flush.go:14-223 | every step keeps the numbers rising, every number accounted for, a marker exactly when there was a trim, and the seal last |
| `TrailWriter.ReaderMeetsRisingNumbers` | internal/eventlog/eventlog_flush.go:14-223 | wherever the writer stopped, the uploaded objects and what a failed upload left carry strictly increasing numbers |
| `TrailWriter.BucketHoldsWhatWasEmitted` | internal/eventlog/eventlog_flush.go:14-253 | in every run, each event line in the bucket has the kind, reason and text of the event emitted under its number |
| `TrailWriter.LossesHaveCauses` | internal/eventlog/eventlog_flush.go:14-152 | an event is turned away only when the queue is at its size, and lines are trimmed only from a buffer over both bounds |
| `TrailWriter.ClosedTrail` | internal/eventlog/eventlog_flush.go:155-223 | after a successful Close the uploaded objects are the whole trail and the bucket holds nothing else |
| `TrailKeys.KeysRise` | internal/eventlog/eventlog_flush.go:111-116 | below 10^6 a later object's key sorts after an earlier one's |
| `TrailKeys.KeyPastTheLimitSortsFirst` | internal/eventlog/eventlog_flush.go:111-116 | key 1000000 sorts before key 999999 |
| `TrailKeys.CreationOrder` | internal/eventlog/read.go:260-262 | string order is creation order if and only if there are at most 10^6 objects |
| `TrailReader.Summarize` | internal/eventlog/read.go:288-320 | the loop computes the summary the lines give |
| `TrailReader.MissingIsExact` | internal/eventlog/read.go:313-318 | on a sealed rising trail the missing count is the sealed count minus the events present |
| `TrailReader.MissingAreAbsent` | internal/eventlog/read.go:288-320 | on a rising trail the missing count is the count of absent numbers: up to the seal's count when sealed, otherwise between the least number and the greatest |
| `TrailReader.MarksTold` | internal/eventlog/read.go:288-320 | a trail reads as trimmed, or sealed, exactly when it holds such a mark, and its emitted count is the last seal's |
| `TrailReader.ReadRunTrail` | internal/eventlog/read.go:248-283 | whatever order the keys are listed in, the objects concatenated in key order, their summary and outcome; not found exactly when there is no event |
| `TrailReader.ReadsOnce` | internal/eventlog/read.go:260-277 | a store reads in one way, whatever order it lists its keys in |
| `TrailReader.ReadsBack` | internal/eventlog/read.go:260-277 | within 10^6 objects a run reads back in the order written |
| `TrailReader.ReaderMeetsWhatWasEmitted` | internal/eventlog/read.go:248-283 | in every run, wherever the writer stopped and in whatever order the keys are read, each event line read is the event emitted under its number |
| `TrailReader.LossesAreAccountedFor` | internal/eventlog/read.go:248-320 | after any run ended by a successful Close: rising numbers, sealed with the final count, missing equals turned away plus trimmed, a marker exactly when there was a trim |
| `TrailReader.ScanOutcome` | internal/eventlog/outcome.go:26-48 | by the last terminal event: a stop for "shutdown" succeeded, a stop or a termination for "cancelled" was cancelled, any other failed; unknown exactly without one |
| `TrailReader.OutcomeConcat` | internal/eventlog/outcome.go:26-48 | the outcome of a concatenation is the later part's, or the earlier's when that says nothing |
| `TrailReader.ReadRunOutcome` | internal/eventlog/read.go:149-188 | the newest-first scan gives the outcome of the whole concatenated trail; not found exactly when there is no object |
| `RecentlyUsed.Cache.constructor` | internal/historyserver/cache.go:40-45 | an empty cache of the given size, 32 when that is not positive |
| `RecentlyUsed.Cache.Get` | internal/historyserver/cache.go:48-57 | the stored value, the key moved to the front on a hit and nothing changed on a miss; list and map stay in one-to-one agreement |
| `RecentlyUsed.Cache.Put` | internal/historyserver/cache.go:60-77 | the value at the front, the rest as it was but for what is evicted past the cap; list and map stay in one-to-one agreement within the cap |
| `RecentlyUsed.Cache.EvictPastMax` | internal/historyserver/cache.go:69-76 | leaves the first max keys of the list |
| `RecentlyUsed.HeldAreMostRecent` | internal/historyserver/cache.go:48-77 | after any history of uses the cache holds exactly the max most recently used keys, in order of use |
| `RecentlyUsed.RecencyIsByAge` | internal/historyserver/cache.go:48-77 | that order is by how long ago a key was last used |
| `CachedReads.KeyForExact` | internal/historyserver/cache.go:105-116 | the cache key of a valid run is no other run's key, valid or not |
| `CachedReads.OutcomesAgree` | internal/historyserver/cache.go:105-110 | a trail's own outcome is what the tail scan of the same objects gives |
| `TrailWriter.SealedBucketStays` | internal/eventlog/eventlog_flush.go:195-222 | once the seal is in the bucket, no later step of the writer changes an object, in any run |
| `CachedReads.WritersKeepSealed` | internal/historyserver/cache.go:19-27 | a trail that reads as sealed is never rewritten by its writer |
| `CachedReads.CachedStore.StaysRight` | internal/historyserver/cache.go:19-27 | while sealed runs are not rewritten every cached trail stays right |
| `CachedReads.CachedStore.ReadRunTrail` | internal/historyserver/cache.go:112-136 | cached or not, the answer an uncached read gives now; a sealed trail is kept as the latest used, any other leaves the cache as it was |
| `CachedReads.CachedStore.ReadRunOutcome` | internal/historyserver/cache.go:105-110 | cached or not, the outcome an uncached scan gives now; a cached trail counts as used and nothing new is kept |
| `Filters.ValidateFilter` | spec/validate.go:639-672 | appends to the problems, and adds none exactly when the tree is valid |
| `Filters.ValidatePredicate` | spec/validate.go:804-833 | adds none exactly when column, operator and value fit |
| `Filters.AcceptedByShape` | spec/validate.go:639-672 | a valid node is a non-empty `all`, a non-empty `any`, a `not` or a leaf, and nothing else besides, with valid parts |
| `Filters.AcceptedByValue` | spec/validate.go:804-833 | without a value only the NULL tests, with a single value only comparisons, with a list comparisons and, unless it is empty, membership |
| `Filters.LeafSays` | internal/source/mysql/filter.go:64-100 | on a NULL or absent column only the NULL tests know an answer; on a value each comparison is true of exactly its side of the order, and a list says whether it holds the value unless a NULL leaves that open |
| `Filters.FilterSays` | internal/source/mysql/filter.go:28-62 | `all` is true when every part is and false when one is false, `any` the other way round, `not` swaps true and false |
| `Filters.PredicateNegates` | spec/filter.go:93-118 | the negated operator gives a valid predicate of the opposite truth on every row, unknown staying unknown |
| `Filters.NegateIsNot` | spec/filter.go:66-89 | a valid filter's negation is never nil, is valid, and is the Kleene negation on every row, NULLs included |
| `Filters.NegateNoLarger` | spec/filter.go:60-65 | negating makes no larger tree, so pushing `not` down ends |
| `Filters.RendersExactly` | internal/source/filterexpr/filterexpr.go:23-52 | a valid filter renders if and only if no leaf compares with a list |
| `Filters.RenderKeepsMeaning` | internal/source/filterexpr/filterexpr.go:23-52 | the not-free tree says of every row what the filter says |
| `Filters.LeafDecides` | internal/source/postgres/filter_expr.go:74-159 | a leaf fails exactly when an exact column's search meets a NULL before an equal element, and otherwise keeps exactly what SQL keeps with the NULLs removed from a `not in` list |
| `Filters.LeafAgrees` | internal/source/postgres/filter_expr.go:74-159 | a leaf keeps exactly the rows SQL keeps and fails on none, on every row, if and only if no NULL stands in its list under `not in` or on a column compared through the exact helper |
| `Filters.RunDecides` | internal/source/postgres/reader.go:124-149 | every expression on every row: it fails exactly when it gets to a failing leaf, and otherwise keeps the row exactly when the expression without the NULLs of its `not in` lists is true |
| `Filters.RenderedDropsNoSqlRow` | internal/source/postgres/filter_expr.go:26-55 | a row the filter's SQL keeps is never dropped: it is kept, or an exact column makes the evaluation fail |
| `Filters.RenderedAcceptsSqlRows` | internal/source/postgres/filter_expr.go:26-55 | the rendered expression lets through exactly the rows the filter's SQL keeps and fails on none, when no list with a NULL ends up under `not in` or on an exact column |
| `Filters.NullInListParts` | internal/source/postgres/filter_expr.go:98-115 | a valid `not in` filter that keeps a row SQL drops |
| `Filters.NullInListFails` | internal/source/postgres/filter_expr.go:126-155 | a valid `in` filter whose evaluation fails on a row SQL keeps |
| `Filters.BangWouldKeepNull` | internal/source/postgres/filter_expr.go:35-36 | negating the guarded leaf with `!` keeps a row against SQL exactly when the column is NULL |

## Left out

- `GateRuns.NothingLostOrOvertaken`: one producer and at most one open window per target, as the gate is used; cancelled holds, a failing sink and ReleaseAll drop or reroute items on purpose and are not steps.
- `Gate.Gate.HoldPass`: the loop around it waits on a channel; waiting is a step of GateRuns, and channels are epochs.
- `FanoutRelay.TaggedInsideItsWindow`: one table per relay, a batch reaches its owners' queues in one step, and the list of pending windows and the relay's sticky error are not modelled.
- `Retention.ConfirmedCoversOnlyDurable`: tables the workers commit themselves; a batch moves from its buffer to the in-flight index in one step; each worker's own stream batches enter in stream order; staged tables and their cycles are not modelled; a worker is retired only once it owes nothing, so the forced removal of an owner that does not drain is not a step, and what left its index early goes with it.
- `SingleRelay.NoneFollowsCloses`: one window of one partition per relay; the worker's own handling of a marker whose number it has open is not modelled.
- `Confirmed.Positions.Min`: positions of one kind; the panic on comparing different kinds is not modelled.
- `Key.EncodeKey`: lengths below 2^32, and column types by the width and shape of their payload; a float's bits are an opaque payload.
- `Join.JoinColumns`: no sticky error and no cold-drop reference; column types enter only through whether a destination can hold a value; Arrow reference counting is left out.
- `TrailWriter.Writer.Flush`: the marker's JSON and the upload are parameters, and a JSON marker that fails to marshal is not modelled.
- `TrailReader.ReadRunTrail`: store errors and lines that do not parse are not modelled; a line travels with its decoded meaning.
- `RecentlyUsed.Cache.Put`: list elements and map entries are equal values rather than one shared object.
- `CachedReads.CachedStore.ReadRunTrail`: the merging of concurrent misses is left out; StaysRight covers a store that moves on between a read and a put.
- `Filters.RenderedAcceptsSqlRows`: values are ranks in their column's order; literals of the wrong type for a column are left out, and so is what the expression library makes of a NULL in the list of a case-insensitive MySQL text column.
- The budget, byte accounting and oversized batches of the in-flight index: bookkeeping beside the order.
- The rendezvous hash, the coalescer, the pause buffer, worker supervision and the maintenance scheduler: they depend on timers, pods or code outside this scope.
- gRPC and Flight transport, Kubernetes, TLS, S3 clients, HTTP handlers, the command line and metrics: plumbing without a promise of order.
- `core/cast.go` and the rest of `spec/validate.go`: each case is decided alone, with no state or order between them.
