/** Reading a run's trail back (internal/eventlog/read.go, outcome.go). */
module TrailReader {
  import opened Text
  import opened TrailKeys
  import opened TrailLines
  import opened TrailWriter

  // ------------------------------------------------------------ the summary

  datatype Summary = Summary(dropped: bool, missing: int, emitted: nat, sealed: bool)

  /** The least positive number, 0 without one. */
  function MinNum(lines: seq<Line>): nat {
    if |lines| == 0 then 0
    else
      var rest := MinNum(lines[1..]);
      if lines[0].Event? && lines[0].num > 0 && (rest == 0 || lines[0].num < rest) then lines[0].num else rest
  }

  function MaxNum(lines: seq<Line>): nat {
    if |lines| == 0 then 0
    else
      var rest := MaxNum(lines[1..]);
      if lines[0].Event? && lines[0].num > rest then lines[0].num else rest
  }

  function Missing(lines: seq<Line>): int {
    if AnySealed(lines) && SealCount(lines) > CountEvents(lines) then SealCount(lines) - CountEvents(lines)
    else if MinNum(lines) > 0 then MaxNum(lines) - MinNum(lines) + 1 - CountEvents(lines)
    else 0
  }

  function SummaryOf(lines: seq<Line>): Summary {
    Summary(AnyDropped(lines), Missing(lines), SealCount(lines), AnySealed(lines))
  }

  lemma {:induction false} MinMaxConcat(a: seq<Line>, b: seq<Line>)
    ensures MinNum(a + b) ==
      if MinNum(a) == 0 || 0 < MinNum(b) <= MinNum(a) then MinNum(b) else MinNum(a)
    ensures MaxNum(a + b) == (if MaxNum(a) > MaxNum(b) then MaxNum(a) else MaxNum(b))
    ensures SealCount(a + b) == (if AnySealed(b) then SealCount(b) else SealCount(a))
    decreases |a|
  {
    if |a| == 0 {
      assert a + b == b;
      if !AnySealed(b) { NoSealNoCount(b); }
    } else {
      MinMaxConcat(a[1..], b);
      FoldsConcat(a[1..], b);
      assert (a + b)[1..] == a[1..] + b;
    }
  }

  lemma {:induction false} NoSealNoCount(b: seq<Line>)
    requires !AnySealed(b)
    ensures SealCount(b) == 0
    decreases |b|
  {
    if |b| > 0 { NoSealNoCount(b[1..]); }
  }

  method Summarize(lines: seq<Line>) returns (r: Summary)
    ensures r == SummaryOf(lines)
  {
    var minSeq, maxSeq, count, dropped, emitted, sealed := 0, 0, 0, false, 0, false;
    for i := 0 to |lines|
      invariant minSeq == MinNum(lines[..i]) && maxSeq == MaxNum(lines[..i]) && count == CountEvents(lines[..i])
      invariant dropped == AnyDropped(lines[..i]) && sealed == AnySealed(lines[..i]) && emitted == SealCount(lines[..i])
    {
      assert lines[..i] + [lines[i]] == lines[..i + 1];
      FoldsConcat(lines[..i], [lines[i]]);
      MinMaxConcat(lines[..i], [lines[i]]);
      match lines[i] {
        case DroppedMark(_) => dropped := true;
        case SealedMark(n, _) => sealed, emitted := true, n;
        case Event(num, _, _, _) =>
          if num > 0 {
            count := count + 1;
            if minSeq == 0 || num < minSeq { minSeq := num; }
            if num > maxSeq { maxSeq := num; }
          }
      }
    }
    assert lines[..|lines|] == lines;
    var missing := 0;
    if sealed && emitted > count {
      missing := emitted - count;
    } else if minSeq > 0 {
      missing := maxSeq - minSeq + 1 - count;
    }
    r := Summary(dropped, missing, emitted, sealed);
  }

  /** A rising trail has no more events than the numbers they span. */
  lemma {:induction false} SpanCovers(lines: seq<Line>, lo: nat, hi: nat)
    requires Ascends(lines, lo, hi)
    ensures MinNum(lines) == 0 <==> CountEvents(lines) == 0
    ensures MinNum(lines) == 0 <==> MaxNum(lines) == 0
    ensures MinNum(lines) > 0 ==> lo < MinNum(lines) <= MaxNum(lines) <= hi
    ensures MinNum(lines) > 0 ==> CountEvents(lines) <= MaxNum(lines) - MinNum(lines) + 1
    decreases |lines|
  {
    if |lines| > 0 {
      var from := if lines[0].Event? then lines[0].num else lo;
      SpanCovers(lines[1..], from, hi);
      AscendsBound(lines[1..], from, hi);
    }
  }

  /** On a sealed rising trail the count of missing events is exact. */
  lemma MissingIsExact(lines: seq<Line>)
    requires Ascends(lines, 0, SealCount(lines)) && AnySealed(lines)
    ensures Missing(lines) == SealCount(lines) - CountEvents(lines)
  {
    AscendsBound(lines, 0, SealCount(lines));
    SpanCovers(lines, 0, SealCount(lines));
  }

  /** The numbers the lines carry. */
  ghost function Numbers(lines: seq<Line>): set<nat> {
    set i | 0 <= i < |lines| && lines[i].Event? && lines[i].num > 0 :: lines[i].num
  }

  ghost function Span(lo: nat, hi: nat): (s: set<nat>)
    ensures |s| == if hi >= lo then hi - lo + 1 else 0
    ensures forall n :: n in s <==> lo <= n <= hi
    decreases hi + 1 - lo
  {
    if hi < lo then {} else
    var s: set<nat> := {lo} + Span(lo + 1, hi);
    s
  }

  lemma NumbersFirst(lines: seq<Line>)
    requires |lines| > 0
    ensures Numbers(lines) ==
      Numbers(lines[1..]) + if lines[0].Event? && lines[0].num > 0 then {lines[0].num} else {}
  {
    var rest := lines[1..];
    forall n | n in Numbers(rest) ensures n in Numbers(lines) {
      var i :| 0 <= i < |rest| && rest[i].Event? && rest[i].num > 0 && rest[i].num == n;
      assert lines[i + 1] == rest[i];
    }
    forall n | n in Numbers(lines)
      ensures n in Numbers(rest) || (lines[0].Event? && lines[0].num == n)
    {
      var i :| 0 <= i < |lines| && lines[i].Event? && lines[i].num > 0 && lines[i].num == n;
      if i > 0 { assert rest[i - 1] == lines[i]; }
    }
  }

  /** The least and the greatest number a trail carries. */
  lemma {:induction false} LeastAndGreatest(lines: seq<Line>)
    ensures Numbers(lines) == {} <==> MinNum(lines) == 0
    ensures Numbers(lines) == {} <==> MaxNum(lines) == 0
    ensures MinNum(lines) > 0 ==> MinNum(lines) in Numbers(lines) && MaxNum(lines) in Numbers(lines)
    ensures forall n :: n in Numbers(lines) ==> MinNum(lines) <= n <= MaxNum(lines)
    decreases |lines|
  {
    if |lines| > 0 {
      LeastAndGreatest(lines[1..]);
      NumbersFirst(lines);
    }
  }

  /** A rising trail carries as many numbers as events. */
  lemma {:induction false} RisingCounts(lines: seq<Line>, lo: nat, hi: nat)
    requires Ascends(lines, lo, hi)
    ensures |Numbers(lines)| == CountEvents(lines)
    ensures forall n :: n in Numbers(lines) ==> lo < n <= hi
    decreases |lines|
  {
    if |lines| > 0 {
      var from := if lines[0].Event? then lines[0].num else lo;
      RisingCounts(lines[1..], from, hi);
      AscendsBound(lines[1..], from, hi);
      NumbersFirst(lines);
    }
  }

  lemma Without(all: set<nat>, some: set<nat>)
    requires some <= all
    ensures |all - some| == |all| - |some|
  {
    assert all == (all - some) + some;
  }

  /** The count of missing events is the count of the numbers that are not there: up
      to the seal's count on a sealed trail, and otherwise between the first number
      and the last. */
  lemma MissingAreAbsent(lines: seq<Line>, hi: nat)
    requires Ascends(lines, 0, hi) && (AnySealed(lines) ==> hi == SealCount(lines))
    ensures AnySealed(lines) ==> Missing(lines) == |Span(1, SealCount(lines)) - Numbers(lines)|
    ensures !AnySealed(lines) && Numbers(lines) != {} ==>
      Missing(lines) == |Span(MinNum(lines), MaxNum(lines)) - Numbers(lines)|
    ensures !AnySealed(lines) && Numbers(lines) == {} ==> Missing(lines) == 0
  {
    RisingCounts(lines, 0, hi);
    LeastAndGreatest(lines);
    if AnySealed(lines) {
      MissingIsExact(lines);
      Without(Span(1, SealCount(lines)), Numbers(lines));
    } else {
      Without(Span(MinNum(lines), MaxNum(lines)), Numbers(lines));
    }
  }

  lemma {:induction false} AnyMarks(lines: seq<Line>)
    ensures AnyDropped(lines) <==> exists i :: 0 <= i < |lines| && lines[i].DroppedMark?
    ensures AnySealed(lines) <==> exists i :: 0 <= i < |lines| && lines[i].SealedMark?
    decreases |lines|
  {
    if |lines| > 0 {
      AnyMarks(lines[1..]);
      assert forall i :: 0 <= i < |lines[1..]| ==> lines[i + 1] == lines[1..][i];
      assert forall i :: 1 <= i < |lines| ==> lines[i] == lines[1..][i - 1];
    }
  }

  lemma {:induction false} LastSealCounts(lines: seq<Line>, i: nat)
    requires i < |lines| && lines[i].SealedMark? && !AnySealed(lines[i + 1..])
    ensures SealCount(lines) == lines[i].emitted
    decreases |lines|
  {
    var rest := lines[1..];
    if i > 0 {
      assert rest[i - 1] == lines[i] && rest[i..] == lines[i + 1..];
      LastSealCounts(rest, i - 1);
      AnyMarks(rest);
    }
  }

  /** A trail reads as trimmed, or as sealed, exactly when it holds such a mark, and
      the count of emitted events is the last seal's. */
  lemma MarksTold(lines: seq<Line>)
    ensures SummaryOf(lines).dropped <==> exists i :: 0 <= i < |lines| && lines[i].DroppedMark?
    ensures SummaryOf(lines).sealed <==> exists i :: 0 <= i < |lines| && lines[i].SealedMark?
    ensures forall i: nat :: LastSeal(lines, i) ==> SummaryOf(lines).emitted == lines[i].emitted
  {
    AnyMarks(lines);
    forall i: nat | LastSeal(lines, i) ensures SealCount(lines) == lines[i].emitted {
      AnyMarks(lines[i + 1..]);
      LastSealCounts(lines, i);
    }
  }

  ghost predicate LastSeal(lines: seq<Line>, i: nat) {
    i < |lines| && lines[i].SealedMark? && forall j :: i < j < |lines| ==> !lines[j].SealedMark?
  }

  // ------------------------------------------------------------- the outcome

  datatype Outcome = Succeeded | Failed | Cancelled | Unknown

  function Classify(l: Line): Outcome {
    match l
    case Event(_, JobTerminated, reason, _) => if reason == "cancelled" then Cancelled else Failed
    case Event(_, JobStopped, reason, _) =>
      if reason == "shutdown" then Succeeded else if reason == "cancelled" then Cancelled else Failed
    case _ => Unknown
  }

  /** What the last terminal event says. */
  function OutcomeOf(lines: seq<Line>): Outcome {
    if |lines| == 0 then Unknown
    else if OutcomeOf(lines[1..]) != Unknown then OutcomeOf(lines[1..])
    else Classify(lines[0])
  }

  lemma {:induction false} OutcomeConcat(a: seq<Line>, b: seq<Line>)
    ensures OutcomeOf(a + b) == if OutcomeOf(b) != Unknown then OutcomeOf(b) else OutcomeOf(a)
    decreases |a|
  {
    if |a| == 0 {
      assert a + b == b;
    } else {
      OutcomeConcat(a[1..], b);
      assert (a + b)[1..] == a[1..] + b;
    }
  }

  ghost predicate Terminal(l: Line) { l.Event? && (l.kind == JobStopped || l.kind == JobTerminated) }

  ghost predicate LastTerminal(lines: seq<Line>, i: nat) {
    i < |lines| && Terminal(lines[i]) && forall j :: i < j < |lines| ==> !Terminal(lines[j])
  }

  /** The outcome the last terminal event gives its run: a stop for shutdown succeeded,
      either kind with reason cancelled was cancelled, and any other failed. */
  ghost predicate EndedSo(l: Line, r: Outcome)
    requires Terminal(l)
  {
    && (r == Cancelled <==> l.reason == "cancelled")
    && (r == Succeeded <==> l.kind == JobStopped && l.reason == "shutdown")
    && r != Unknown
  }

  ghost predicate Told(lines: seq<Line>, r: Outcome) {
    && (r == Unknown <==> forall i :: 0 <= i < |lines| ==> !Terminal(lines[i]))
    && forall i: nat :: LastTerminal(lines, i) ==> EndedSo(lines[i], r)
  }

  lemma {:induction false} OutcomeTold(lines: seq<Line>)
    ensures Told(lines, OutcomeOf(lines))
    decreases |lines|
  {
    if |lines| > 0 {
      var rest := lines[1..];
      OutcomeTold(rest);
      assert forall i :: 0 <= i < |rest| ==> lines[i + 1] == rest[i];
      forall i: nat | LastTerminal(lines, i) ensures EndedSo(lines[i], OutcomeOf(lines)) {
        if i > 0 { assert LastTerminal(rest, i - 1); }
      }
      if forall i :: 0 <= i < |rest| ==> !Terminal(rest[i]) {
        assert Terminal(lines[0]) ==> EndedSo(lines[0], Classify(lines[0]));
      }
    }
  }

  method ScanOutcome(lines: seq<Line>) returns (r: Outcome)
    ensures r == OutcomeOf(lines) && Told(lines, r)
  {
    OutcomeTold(lines);
    var i := |lines|;
    while i > 0
      invariant 0 <= i <= |lines| && OutcomeOf(lines[i..]) == Unknown
    {
      i := i - 1;
      assert lines[i..][1..] == lines[i + 1..];
      assert lines == lines[..i] + lines[i..];
      OutcomeConcat(lines[..i], lines[i..]);
      if Classify(lines[i]) != Unknown { return Classify(lines[i]); }
    }
    assert lines[0..] == lines;
    return Unknown;
  }

  // -------------------------------------------------------------- the objects

  type Store = map<string, seq<Line>>

  /** The objects under the keys, in that order, concatenated. */
  function Gathered(keys: seq<string>, store: Store): seq<Line>
    requires forall i :: 0 <= i < |keys| ==> keys[i] in store
  {
    if |keys| == 0 then []
    else (if IsObject(keys[0]) then store[keys[0]] else []) + Gathered(keys[1..], store)
  }

  lemma {:induction false} GatheredMore(keys: seq<string>, key: string, store: Store)
    requires (forall i :: 0 <= i < |keys| ==> keys[i] in store) && key in store
    ensures Gathered(keys + [key], store) == Gathered(keys, store) + if IsObject(key) then store[key] else []
    decreases |keys|
  {
    var last := if IsObject(key) then store[key] else [];
    if |keys| == 0 {
      assert keys + [key] == [key] && [key][1..] == [];
      assert Gathered([key], store) == last + Gathered([], store);
    } else {
      GatheredMore(keys[1..], key, store);
      assert (keys + [key])[1..] == keys[1..] + [key];
      Regroup(if IsObject(keys[0]) then store[keys[0]] else [], Gathered(keys[1..], store), last);
    }
  }

  datatype Trail = Trail(lines: seq<Line>, summary: Summary, outcome: Outcome)

  /** A run without events is not found. */
  function TrailFrom(lines: seq<Line>): Option<Trail> {
    if |lines| == 0 then None else Some(Trail(lines, SummaryOf(lines), OutcomeOf(lines)))
  }

  ghost predicate NoObjects(store: Store) { forall key :: key in store ==> !IsObject(key) }

  /** What a read of the store gives, its keys sorted. */
  ghost predicate Reads(store: Store, r: Option<Trail>) {
    exists sorted ::
      SortedKeys(sorted, store.Keys) && AllStored(sorted, store) && r == TrailFrom(Gathered(sorted, store))
  }

  /** What the outcome of a store is: nothing without objects. */
  ghost predicate ReadsOutcome(store: Store, r: Option<Outcome>) {
    exists sorted ::
      && SortedKeys(sorted, store.Keys) && AllStored(sorted, store)
      && (r.None? <==> NoObjects(store))
      && (r.Some? ==> r.value == OutcomeOf(Gathered(sorted, store)))
  }

  ghost predicate AllStored(keys: seq<string>, store: Store) { forall i :: 0 <= i < |keys| ==> keys[i] in store }

  /** Sorting leaves no choice: a store reads in one way. */
  lemma ReadsOnce(store: Store, a: Option<Trail>, b: Option<Trail>)
    requires Reads(store, a) && Reads(store, b)
    ensures a == b
  {
    var ks :| SortedKeys(ks, store.Keys) && AllStored(ks, store) && a == TrailFrom(Gathered(ks, store));
    var ls :| SortedKeys(ls, store.Keys) && AllStored(ls, store) && b == TrailFrom(Gathered(ls, store));
    SortedKeysUnique(ks, ls, store.Keys);
  }

  lemma SortedAreStored(keys: seq<string>, store: Store)
    requires SortedKeys(keys, store.Keys)
    ensures forall i :: 0 <= i < |keys| ==> keys[i] in store
  {
    forall i | 0 <= i < |keys| ensures keys[i] in store { assert keys[i] in store.Keys; }
  }

  /** Whatever order the store lists its keys in, the trail is the concatenation of
      its objects in key order; a run without events is not found. */
  method ReadRunTrail(store: Store, listing: seq<string>) returns (r: Option<Trail>)
    requires Once(listing, store.Keys)
    ensures Reads(store, r)
  {
    var keys := SortStrings(listing, store.Keys);
    SortedAreStored(keys, store);
    var lines: seq<Line> := [];
    for i := 0 to |keys|
      invariant lines == Gathered(keys[..i], store)
    {
      assert keys[..i] + [keys[i]] == keys[..i + 1];
      GatheredMore(keys[..i], keys[i], store);
      if !IsObject(keys[i]) { continue; }
      lines := lines + store[keys[i]];
    }
    assert keys[..|keys|] == keys;
    assert AllStored(keys, store);
    if lines == [] { return None; }
    var summary := Summarize(lines);
    var outcome := ScanOutcome(lines);
    r := Some(Trail(lines, summary, outcome));
  }

  /** The newest-first scan, stopping at the first object that classifies, gives the
      outcome of the whole concatenated trail; a run without objects is not found. */
  method ReadRunOutcome(store: Store, listing: seq<string>) returns (r: Option<Outcome>)
    requires Once(listing, store.Keys)
    ensures ReadsOutcome(store, r)
  {
    var keys := SortStrings(listing, store.Keys);
    SortedAreStored(keys, store);
    assert AllStored(keys, store);
    var found, i := false, |keys|;
    while i > 0
      invariant 0 <= i <= |keys| && OutcomeOf(Gathered(keys[i..], store)) == Unknown
      invariant found <==> exists j :: i <= j < |keys| && IsObject(keys[j])
    {
      i := i - 1;
      assert keys[i..][1..] == keys[i + 1..] && keys[i..][0] == keys[i];
      if !IsObject(keys[i]) {
        assert [] + Gathered(keys[i + 1..], store) == Gathered(keys[i + 1..], store);
        continue;
      }
      found := true;
      OutcomeConcat(store[keys[i]], Gathered(keys[i + 1..], store));
      var outcome := ScanOutcome(store[keys[i]]);
      if outcome != Unknown {
        NewestDecides(keys, i, store, outcome);
        assert keys[i] in store;
        return Some(outcome);
      }
    }
    assert keys[0..] == keys;
    if !found {
      forall key | key in store ensures !IsObject(key) {
        assert key in keys;
        var j :| 0 <= j < |keys| && keys[j] == key;
      }
      return None;
    }
    r := Some(Unknown);
  }

  lemma {:induction false} NewestDecides(keys: seq<string>, i: nat, store: Store, outcome: Outcome)
    requires i < |keys| && outcome != Unknown && forall j :: 0 <= j < |keys| ==> keys[j] in store
    requires OutcomeOf(Gathered(keys[i..], store)) == outcome
    ensures OutcomeOf(Gathered(keys, store)) == outcome
    decreases i
  {
    if i == 0 {
      assert keys[0..] == keys;
    } else {
      assert keys[1..][i - 1..] == keys[i..];
      NewestDecides(keys[1..], i - 1, store, outcome);
      OutcomeConcat(if IsObject(keys[0]) then store[keys[0]] else [], Gathered(keys[1..], store));
    }
  }

  // --------------------------------------------------------------- whole runs

  ghost function KeysTo(base: string, n: nat): (r: seq<string>)
    ensures |r| == n && forall i :: 0 <= i < n ==> r[i] == Key(base, i)
  {
    seq(n, i requires 0 <= i < n => Key(base, i))
  }

  /** The bucket as it is listed: each object under its printed key. */
  ghost predicate Listed(base: string, bucket: Bucket, store: Store) {
    && (forall k :: k in bucket ==> Named(base, bucket, store, k))
    && (forall name :: name in store ==> Names(base, bucket, name))
  }

  ghost predicate Named(base: string, bucket: Bucket, store: Store, k: Slot)
    requires k in bucket
  {
    Key(base, k.num) in store && store[Key(base, k.num)] == bucket[k]
  }

  ghost predicate Names(base: string, bucket: Bucket, name: string) {
    exists k :: k in bucket && name == Key(base, k.num)
  }

  lemma ListedOnce(base: string, bucket: Bucket, a: Store, b: Store)
    requires Listed(base, bucket, a) && Listed(base, bucket, b)
    ensures a == b
  {
    forall name ensures name in a <==> name in b { ListedHolds(base, bucket, a, b, name); }
    forall name | name in a ensures a[name] == b[name] { ListedHolds(base, bucket, a, b, name); }
  }

  lemma ListedHolds(base: string, bucket: Bucket, a: Store, b: Store, name: string)
    requires Listed(base, bucket, a) && Listed(base, bucket, b)
    ensures name in a <==> name in b
    ensures name in a ==> a[name] == b[name]
  {
    if name in a || name in b {
      assert Names(base, bucket, name);
      var k :| k in bucket && name == Key(base, k.num);
      assert Named(base, bucket, a, k) && Named(base, bucket, b, k);
    }
  }

  lemma {:induction false} SealedIsStored(keys: seq<string>, store: Store) returns (i: nat)
    requires (forall j :: 0 <= j < |keys| ==> keys[j] in store) && AnySealed(Gathered(keys, store))
    ensures i < |keys| && AnySealed(store[keys[i]])
    decreases |keys|
  {
    var first := if IsObject(keys[0]) then store[keys[0]] else [];
    FoldsConcat(first, Gathered(keys[1..], store));
    if AnySealed(first) {
      i := 0;
    } else {
      i := SealedIsStored(keys[1..], store);
      i := i + 1;
    }
  }

  /** A trail that reads as sealed has the seal in some object of the bucket. */
  lemma SealedIsInBucket(base: string, bucket: Bucket, store: Store, t: Trail)
    requires Listed(base, bucket, store) && Reads(store, Some(t)) && t.summary.sealed
    ensures !Unsealed(bucket)
  {
    var ks :| SortedKeys(ks, store.Keys) && AllStored(ks, store) && Some(t) == TrailFrom(Gathered(ks, store));
    var i := SealedIsStored(ks, store);
    assert Names(base, bucket, ks[i]);
    var k :| k in bucket && ks[i] == Key(base, k.num);
    assert Named(base, bucket, store, k);
  }

  lemma {:induction false} BucketHolds(objects: seq<seq<Line>>, k: Slot)
    ensures k in BucketOf(objects) <==> k.num < |objects|
    ensures k in BucketOf(objects) ==> BucketOf(objects)[k] == objects[k.num]
    decreases |objects|
  {
    if |objects| > 0 { BucketHolds(objects[..|objects| - 1], k); }
  }

  lemma StoreHolds(base: string, objects: seq<seq<Line>>, store: Store, i: nat)
    requires Listed(base, BucketOf(objects), store) && i < |objects|
    ensures Key(base, i) in store && store[Key(base, i)] == objects[i]
  {
    BucketHolds(objects, Slot(i));
    assert Named(base, BucketOf(objects), store, Slot(i));
  }

  /** The sorted keys of a run's objects are its keys in creation order. */
  lemma StoreSorted(base: string, objects: seq<seq<Line>>, store: Store)
    requires |objects| <= LIMIT && Listed(base, BucketOf(objects), store)
    ensures SortedKeys(KeysTo(base, |objects|), store.Keys)
  {
    var keys := KeysTo(base, |objects|);
    forall i, j | 0 <= i < j < |keys| ensures LexLess(keys[i], keys[j]) { KeysRise(base, i, j); }
    forall name ensures name in store.Keys <==> name in keys { StoreNames(base, objects, store, keys, name); }
  }

  lemma StoreNames(base: string, objects: seq<seq<Line>>, store: Store, keys: seq<string>, name: string)
    requires Listed(base, BucketOf(objects), store)
    requires |keys| == |objects| && forall i :: 0 <= i < |keys| ==> keys[i] == Key(base, i)
    ensures name in store <==> name in keys
  {
    if name in store {
      assert Names(base, BucketOf(objects), name);
      NameListed(base, objects, keys, name);
    }
    if i :| 0 <= i < |keys| && keys[i] == name {
      StoreHolds(base, objects, store, i);
    }
  }

  lemma NameListed(base: string, objects: seq<seq<Line>>, keys: seq<string>, name: string)
    requires Names(base, BucketOf(objects), name)
    requires |keys| == |objects| && forall i :: 0 <= i < |keys| ==> keys[i] == Key(base, i)
    ensures name in keys
  {
    var k :| k in BucketOf(objects) && name == Key(base, k.num);
    BucketHolds(objects, k);
    assert keys[k.num] == name;
  }

  lemma {:induction false} GatheredIsFlatten(keys: seq<string>, objects: seq<seq<Line>>, store: Store)
    requires |keys| == |objects|
    requires forall i :: 0 <= i < |keys| ==> keys[i] in store && store[keys[i]] == objects[i] && IsObject(keys[i])
    ensures Gathered(keys, store) == Flatten(objects)
    decreases |keys|
  {
    if |keys| > 0 { GatheredIsFlatten(keys[1..], objects[1..], store); }
  }

  lemma StoreReads(base: string, objects: seq<seq<Line>>, store: Store)
    requires Listed(base, BucketOf(objects), store)
    ensures forall i :: 0 <= i < |objects| ==> Key(base, i) in store
    ensures Gathered(KeysTo(base, |objects|), store) == Flatten(objects)
  {
    var keys := KeysTo(base, |objects|);
    forall i | 0 <= i < |keys| ensures keys[i] in store && store[keys[i]] == objects[i] && IsObject(keys[i]) {
      StoreHolds(base, objects, store, i);
      KeyIsObject(base, i);
    }
    GatheredIsFlatten(keys, objects, store);
  }

  /** Within 10^6 objects, sorting the keys reads a run back in the order written. */
  lemma ReadsBack(base: string, objects: seq<seq<Line>>, store: Store, sorted: seq<string>)
    requires |objects| <= LIMIT && Listed(base, BucketOf(objects), store) && SortedKeys(sorted, store.Keys)
    ensures forall i :: 0 <= i < |sorted| ==> sorted[i] in store
    ensures Gathered(sorted, store) == Flatten(objects)
  {
    StoreSorted(base, objects, store);
    StoreReads(base, objects, store);
    SortedKeysUnique(sorted, KeysTo(base, |objects|), store.Keys);
  }

  lemma {:induction false} GatheredSay(keys: seq<string>, store: Store, drafts: seq<Draft>)
    requires forall i :: 0 <= i < |keys| ==> keys[i] in store && AllSay(store[keys[i]], drafts)
    ensures AllSay(Gathered(keys, store), drafts)
    decreases |keys|
  {
    if |keys| > 0 { GatheredSay(keys[1..], store, drafts); }
  }

  /** In every run, wherever the writer stopped and in whatever order the keys are
      read, each event a reader meets is the one emitted under its number. */
  lemma ReaderMeetsWhatWasEmitted(c: Config, run: seq<State>, n: nat, base: string, store: Store, keys: seq<string>)
    requires Run(c, run) && n < |run| && Listed(base, run[n].bucket, store) && AllStored(keys, store)
    ensures |run[n].drafts| == run[n].emitted && AllSay(Gathered(keys, store), run[n].drafts)
  {
    BucketHoldsWhatWasEmitted(c, run, n);
    forall i | 0 <= i < |keys| ensures AllSay(store[keys[i]], run[n].drafts) {
      assert Names(base, run[n].bucket, keys[i]);
      var k :| k in run[n].bucket && keys[i] == Key(base, k.num);
      assert Named(base, run[n].bucket, store, k);
    }
    GatheredSay(keys, store, run[n].drafts);
  }

  /** After any run ended by a successful Close within 10^6 objects, whatever order
      the store lists its keys in, the reader finds the numbers rising, the trail
      sealed with the final count, as many events missing as the queue turned away and
      the trims removed, and a marker exactly when there was a trim. */
  lemma LossesAreAccountedFor(c: Config, run: seq<State>, n: nat, base: string, store: Store, sorted: seq<string>)
    requires Run(c, run) && n < |run| && run[n].phase == Closed(true) && |run[n].objects| <= LIMIT
    requires Listed(base, run[n].bucket, store) && SortedKeys(sorted, store.Keys)
    ensures forall i :: 0 <= i < |sorted| ==> sorted[i] in store
    ensures var s, trail := run[n], Gathered(sorted, store);
      && Ascends(trail, 0, s.emitted)
      && SummaryOf(trail) == Summary(s.trims > 0, s.overflowed + s.trimmed, s.emitted, true)
  {
    ClosedTrail(c, run, n);
    ReadsBack(base, run[n].objects, store, sorted);
    MissingIsExact(Flatten(run[n].objects));
  }
}
