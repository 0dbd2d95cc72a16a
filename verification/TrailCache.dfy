/** The bounded cache of decoded trails (internal/historyserver/cache.go). */
module RecentlyUsed {
  import opened Text

  datatype RunKey = RunKey(text: string)

  // ---------------------------------------------------- most recent use first

  function Remove(s: seq<RunKey>, k: RunKey): (r: seq<RunKey>)
    ensures |r| <= |s|
  {
    if |s| == 0 then [] else (if s[0] == k then [] else [s[0]]) + Remove(s[1..], k)
  }

  /** The distinct keys of a history of uses, the latest use first. */
  function Recency(uses: seq<RunKey>): seq<RunKey> {
    if |uses| == 0 then [] else [uses[0]] + Remove(Recency(uses[1..]), uses[0])
  }

  function First<T>(s: seq<T>, n: nat): (r: seq<T>)
    ensures |r| <= n && r <= s
  {
    if |s| <= n then s else s[..n]
  }

  ghost predicate Unrepeated(s: seq<RunKey>) {
    |s| == 0 || (s[0] !in s[1..] && Unrepeated(s[1..]))
  }

  lemma {:induction false} RemoveAbsent(s: seq<RunKey>, k: RunKey)
    ensures k !in Remove(s, k)
    ensures forall x :: x in Remove(s, k) <==> x in s && x != k
    ensures k !in s ==> Remove(s, k) == s
    decreases |s|
  {
    if |s| > 0 {
      RemoveAbsent(s[1..], k);
      assert s == [s[0]] + s[1..];
    }
  }

  lemma {:induction false} RemoveUnrepeated(s: seq<RunKey>, k: RunKey)
    requires Unrepeated(s)
    ensures Unrepeated(Remove(s, k)) && |Remove(s, k)| == |s| - if k in s then 1 else 0
    decreases |s|
  {
    if |s| > 0 {
      RemoveUnrepeated(s[1..], k);
      RemoveAbsent(s[1..], k);
      assert s == [s[0]] + s[1..];
      if s[0] != k {
        assert Remove(s, k)[1..] == Remove(s[1..], k);
      } else {
        assert Remove(s, k) == Remove(s[1..], k);
      }
    }
  }

  lemma {:induction false} RecencyUnrepeated(uses: seq<RunKey>)
    ensures Unrepeated(Recency(uses))
    ensures forall k :: k in Recency(uses) <==> k in uses
    decreases |uses|
  {
    if |uses| > 0 {
      var rest := Recency(uses[1..]);
      RecencyUnrepeated(uses[1..]);
      RemoveUnrepeated(rest, uses[0]);
      RemoveAbsent(rest, uses[0]);
      assert Recency(uses)[1..] == Remove(rest, uses[0]);
      assert uses == [uses[0]] + uses[1..];
    }
  }

  /** How many uses ago a key was last used. */
  function Age(uses: seq<RunKey>, k: RunKey): nat
    requires k in uses
  {
    if uses[0] == k then 0 else 1 + Age(uses[1..], k)
  }

  lemma {:induction false} RemoveKeepsOrder(s: seq<RunKey>, k: RunKey, p: nat, q: nat) returns (p': nat, q': nat)
    requires p < q < |Remove(s, k)|
    ensures p' < q' < |s| && s[p'] == Remove(s, k)[p] && s[q'] == Remove(s, k)[q]
    decreases |s|
  {
    var rest := Remove(s[1..], k);
    if s[0] == k {
      p', q' := RemoveKeepsOrder(s[1..], k, p, q);
      p', q' := p' + 1, q' + 1;
    } else if p > 0 {
      p', q' := RemoveKeepsOrder(s[1..], k, p - 1, q - 1);
      p', q' := p' + 1, q' + 1;
    } else {
      RemoveAbsent(s[1..], k);
      assert rest[q - 1] in s[1..];
      var j :| 0 <= j < |s| - 1 && s[1..][j] == rest[q - 1];
      p', q' := 0, j + 1;
    }
  }

  lemma RecencyTail(uses: seq<RunKey>, j: nat)
    requires 0 < j < |Recency(uses)|
    ensures var k := Recency(uses)[j]; k == Remove(Recency(uses[1..]), uses[0])[j - 1] && k in uses[1..] && k != uses[0]
  {
    var rest := Recency(uses[1..]);
    RecencyUnrepeated(uses[1..]);
    RemoveAbsent(rest, uses[0]);
    assert Remove(rest, uses[0])[j - 1] in Remove(rest, uses[0]);
  }

  /** Earlier in the list means used more recently, so what is past the cap is the
      least recently used. */
  lemma {:induction false} RecencyIsByAge(uses: seq<RunKey>, i: nat, j: nat)
    requires i < j < |Recency(uses)|
    ensures Recency(uses)[i] in uses && Recency(uses)[j] in uses
    ensures Age(uses, Recency(uses)[i]) < Age(uses, Recency(uses)[j])
    decreases |uses|
  {
    RecencyTail(uses, j);
    assert uses == [uses[0]] + uses[1..];
    if i > 0 {
      RecencyTail(uses, i);
      var p, q := RemoveKeepsOrder(Recency(uses[1..]), uses[0], i - 1, j - 1);
      RecencyIsByAge(uses[1..], p, q);
    }
  }

  lemma {:induction false} RemoveConcat(s: seq<RunKey>, t: seq<RunKey>, k: RunKey)
    ensures Remove(s + t, k) == Remove(s, k) + Remove(t, k)
    decreases |s|
  {
    if |s| == 0 {
      assert s + t == t;
    } else {
      RemoveConcat(s[1..], t, k);
      assert (s + t)[1..] == s[1..] + t;
      Regroup(if s[0] == k then [] else [s[0]], Remove(s[1..], k), Remove(t, k));
    }
  }

  lemma {:induction false} PrefixUnrepeated(s: seq<RunKey>, n: nat)
    requires Unrepeated(s) && n <= |s|
    ensures Unrepeated(s[..n])
    decreases n
  {
    if n > 0 {
      PrefixUnrepeated(s[1..], n - 1);
      assert s[..n][1..] == s[1..][..n - 1];
    }
  }

  /** A cache of the max most recent keys needs only itself to stay one: moving the
      used key to the front and cutting off the end is what the whole history gives. */
  lemma UseKeepsRecency(uses: seq<RunKey>, k: RunKey, max: nat)
    requires max > 0
    ensures First(Recency([k] + uses), max) == First([k] + Remove(First(Recency(uses), max), k), max)
  {
    var all := Recency(uses);
    var kept := First(all, max);
    assert ([k] + uses)[1..] == uses;
    RecencyUnrepeated(uses);
    PrefixUnrepeated(all, |kept|);
    var rest := all[|kept|..];
    assert all == kept + rest && kept == all[..|kept|];
    RemoveConcat(kept, rest, k);
    RemoveUnrepeated(kept, k);
    SameFront(k, Remove(kept, k), Remove(rest, k), max);
  }

  lemma SameFront(k: RunKey, a: seq<RunKey>, b: seq<RunKey>, max: nat)
    requires max > 0 && (b == [] || |a| >= max - 1)
    ensures First([k] + (a + b), max) == First([k] + a, max)
  {
    if b == [] { assert a + b == a; } else { assert ([k] + (a + b))[..max] == ([k] + a)[..max]; }
  }

  /** What a cache of max keys becomes when key k is used. */
  function Inserted(keys: seq<RunKey>, k: RunKey, max: nat): seq<RunKey> {
    if k in keys then [k] + Remove(keys, k) else First([k] + keys, max)
  }

  /** The keys a cache of max holds after a history of uses, the latest first. */
  function Held(uses: seq<RunKey>, max: nat): seq<RunKey> {
    if |uses| == 0 then [] else Inserted(Held(uses[1..], max), uses[0], max)
  }

  /** A cache holds exactly the max most recently used keys, in order of use. */
  lemma {:induction false} HeldAreMostRecent(uses: seq<RunKey>, max: nat)
    requires max > 0
    ensures Held(uses, max) == First(Recency(uses), max)
    decreases |uses|
  {
    if |uses| > 0 {
      HeldAreMostRecent(uses[1..], max);
      Used(uses[1..], uses[0], max);
      assert [uses[0]] + uses[1..] == uses;
    }
  }

  lemma Used(uses: seq<RunKey>, key: RunKey, max: nat)
    requires max > 0
    ensures First(Recency([key] + uses), max) == Inserted(First(Recency(uses), max), key, max)
  {
    var all := Recency(uses);
    var was := First(all, max);
    UseKeepsRecency(uses, key, max);
    RecencyUnrepeated(uses);
    PrefixUnrepeated(all, |was|);
    assert was == all[..|was|];
    RemoveUnrepeated(was, key);
    RemoveAbsent(was, key);
  }

  // ------------------------------------------------------------------ the cache

  datatype Entry<T> = Entry(key: RunKey, value: T)

  ghost function KeysOf<T>(order: seq<Entry<T>>): (r: seq<RunKey>)
    ensures |r| == |order| && forall i :: 0 <= i < |r| ==> r[i] == order[i].key
  {
    seq(|order|, i requires 0 <= i < |order| => order[i].key)
  }

  /** The list with the element of key k unlinked. */
  function Unlink<T>(order: seq<Entry<T>>, k: RunKey): (r: seq<Entry<T>>) {
    if |order| == 0 then [] else (if order[0].key == k then [] else [order[0]]) + Unlink(order[1..], k)
  }

  /** List and map in one-to-one agreement. */
  ghost predicate Agree<T>(order: seq<Entry<T>>, items: map<RunKey, Entry<T>>) {
    && (forall i, j :: 0 <= i < j < |order| ==> order[i].key != order[j].key)
    && (forall i :: 0 <= i < |order| ==> order[i].key in items && items[order[i].key] == order[i])
    && (forall k :: k in items ==> items[k].key == k && k in KeysOf(order))
  }

  lemma {:induction false} UnlinkKeys<T>(order: seq<Entry<T>>, k: RunKey)
    ensures KeysOf(Unlink(order, k)) == Remove(KeysOf(order), k)
    decreases |order|
  {
    if |order| > 0 {
      UnlinkKeys(order[1..], k);
      assert KeysOf(order)[1..] == KeysOf(order[1..]);
      var rest := Unlink(order[1..], k);
      if order[0].key == k {
        assert Unlink(order, k) == rest;
      } else {
        assert KeysOf([order[0]] + rest) == [order[0].key] + KeysOf(rest);
      }
    }
  }

  lemma {:induction false} UnlinkFrom<T>(order: seq<Entry<T>>, k: RunKey, i: nat) returns (j: nat)
    requires i < |Unlink(order, k)|
    ensures j < |order| && order[j] == Unlink(order, k)[i] && order[j].key != k
    decreases |order|
  {
    if order[0].key == k {
      j := UnlinkFrom(order[1..], k, i);
      j := j + 1;
    } else if i == 0 {
      j := 0;
    } else {
      j := UnlinkFrom(order[1..], k, i - 1);
      j := j + 1;
    }
  }

  lemma DistinctIsUnrepeated<T>(order: seq<Entry<T>>)
    requires forall i, j :: 0 <= i < j < |order| ==> order[i].key != order[j].key
    ensures Unrepeated(KeysOf(order))
    decreases |order|
  {
    if |order| > 0 {
      DistinctIsUnrepeated(order[1..]);
      assert KeysOf(order)[1..] == KeysOf(order[1..]);
    }
  }

  lemma {:induction false} UnrepeatedIsDistinct(s: seq<RunKey>, i: nat, j: nat)
    requires Unrepeated(s) && i < j < |s|
    ensures s[i] != s[j]
    decreases |s|
  {
    if i > 0 { UnrepeatedIsDistinct(s[1..], i - 1, j - 1); } else { assert s[j] == s[1..][j - 1]; }
  }

  lemma MovedKeys<T>(order: seq<Entry<T>>, items: map<RunKey, Entry<T>>, e: Entry<T>)
    requires Agree(order, items) && e.key in items
    ensures KeysOf([e] + Unlink(order, e.key)) == [e.key] + Remove(KeysOf(order), e.key)
    ensures Unrepeated([e.key] + Remove(KeysOf(order), e.key)) && |Unlink(order, e.key)| == |order| - 1
  {
    var rest := Unlink(order, e.key);
    UnlinkKeys(order, e.key);
    assert KeysOf([e] + rest) == [e.key] + KeysOf(rest);
    DistinctIsUnrepeated(order);
    RemoveUnrepeated(KeysOf(order), e.key);
    FrontUnrepeated(KeysOf(order), e.key);
  }

  lemma FrontUnrepeated(keys: seq<RunKey>, k: RunKey)
    requires Unrepeated(keys)
    ensures Unrepeated([k] + Remove(keys, k))
  {
    RemoveUnrepeated(keys, k);
    RemoveAbsent(keys, k);
    assert ([k] + Remove(keys, k))[1..] == Remove(keys, k);
  }

  lemma UnrepeatedAgrees<T>(order: seq<Entry<T>>, items: map<RunKey, Entry<T>>, keys: seq<RunKey>)
    requires Unrepeated(keys) && KeysOf(order) == keys
    requires forall i :: 0 <= i < |order| ==> order[i].key in items && items[order[i].key] == order[i]
    requires forall k :: k in items ==> items[k].key == k && k in keys
    ensures Agree(order, items)
  {
    forall i, j | 0 <= i < j < |order| ensures order[i].key != order[j].key { UnrepeatedIsDistinct(keys, i, j); }
  }

  /** Moving k's element to the front, with its value set. */
  lemma MovedAgrees<T>(order: seq<Entry<T>>, items: map<RunKey, Entry<T>>, e: Entry<T>)
    requires Agree(order, items) && e.key in items
    ensures Agree([e] + Unlink(order, e.key), items[e.key := e])
  {
    var moved, keys := [e] + Unlink(order, e.key), [e.key] + Remove(KeysOf(order), e.key);
    MovedKeys(order, items, e);
    RemoveAbsent(KeysOf(order), e.key);
    forall i | 0 <= i < |moved| ensures moved[i].key in items && items[e.key := e][moved[i].key] == moved[i] {
      if i > 0 { var j := UnlinkFrom(order, e.key, i - 1); }
    }
    UnrepeatedAgrees(moved, items[e.key := e], keys);
  }

  lemma PushedAgrees<T>(order: seq<Entry<T>>, items: map<RunKey, Entry<T>>, e: Entry<T>)
    requires Agree(order, items) && e.key !in items
    ensures Agree([e] + order, items[e.key := e])
    ensures KeysOf([e] + order) == [e.key] + KeysOf(order) && e.key !in KeysOf(order)
  {
    var more := [e] + order;
    assert forall i :: 1 <= i < |more| ==> more[i] == order[i - 1];
    assert KeysOf(more) == [e.key] + KeysOf(order);
  }

  lemma EvictedAgrees<T>(order: seq<Entry<T>>, items: map<RunKey, Entry<T>>)
    requires Agree(order, items) && |order| > 0
    ensures Agree(order[..|order| - 1], items - {order[|order| - 1].key})
    ensures KeysOf(order[..|order| - 1]) == KeysOf(order)[..|order| - 1]
  {
    var n := |order| - 1;
    assert KeysOf(order) == KeysOf(order[..n]) + [order[n].key];
  }

  /** The key just used is held. */
  lemma InsertedHolds<T>(order: seq<Entry<T>>, items: map<RunKey, Entry<T>>, keys: seq<RunKey>, k: RunKey, max: nat)
    requires Agree(order, items) && max > 0 && KeysOf(order) == Inserted(keys, k, max)
    ensures k in items
  {
    assert KeysOf(order)[0] == k;
  }

  const DEFAULT_RETAINED := 32

  class Cache<T> {
    const max: nat
    /** Front is the most recently used. */
    var order: seq<Entry<T>>
    var items: map<RunKey, Entry<T>>

    /** List and map agree one to one, within the cap. */
    ghost predicate Valid()
      reads this
    {
      max > 0 && |order| <= max && Agree(order, items)
    }

    constructor (retained: int)
      ensures Valid() && items == map[] && order == []
      ensures max == if retained <= 0 then DEFAULT_RETAINED else retained
    {
      max := if retained <= 0 then DEFAULT_RETAINED else retained;
      order, items := [], map[];
    }

    /** A hit counts as a use; a miss changes nothing. */
    method Get(key: RunKey) returns (r: Option<T>)
      requires Valid()
      modifies this`order
      ensures Valid() && r == if key in items then Some(items[key].value) else None
      ensures KeysOf(order) == if r.Some? then Inserted(old(KeysOf(order)), key, max) else old(KeysOf(order))
      ensures r.None? ==> order == old(order)
    {
      if key !in items { return None; }
      var e := items[key];
      MovedKeys(order, items, e);
      MovedAgrees(order, items, e);
      assert items[key := e] == items;
      order := [e] + Unlink(order, key);
      r := Some(e.value);
    }

    /** Puts the value at the front, then evicts from the back past the cap. */
    method Put(key: RunKey, value: T)
      requires Valid()
      modifies this
      ensures Valid() && KeysOf(order) == Inserted(old(KeysOf(order)), key, max)
      ensures Within(items, old(items)[key := Entry(key, value)])
    {
      var e := Entry(key, value);
      if key in items {
        MovedKeys(order, items, e);
        MovedAgrees(order, items, e);
        order, items := [e] + Unlink(order, key), items[key := e];
        return;
      }
      PushedAgrees(order, items, e);
      order, items := [e] + order, items[key := e];
      EvictPastMax();
    }

    method EvictPastMax()
      requires Agree(order, items) && max > 0
      modifies this`order, this`items
      ensures Valid() && Within(items, old(items)) && KeysOf(order) == First(old(KeysOf(order)), max)
    {
      while |order| > max
        invariant Agree(order, items) && Within(items, old(items))
        invariant First(KeysOf(order), max) == First(old(KeysOf(order)), max)
      {
        EvictOldest();
      }
    }

    method EvictOldest()
      requires Agree(order, items) && |order| > max
      modifies this`order, this`items
      ensures Agree(order, items) && Within(items, old(items)) && |order| == |old(order)| - 1
      ensures First(KeysOf(order), max) == First(old(KeysOf(order)), max)
    {
      EvictedAgrees(order, items);
      EvictedFirst(order, max);
      var rest, oldest := order[..|order| - 1], order[|order| - 1];
      order, items := rest, items - {oldest.key};
    }
  }

  ghost predicate Within<K, V>(m: map<K, V>, n: map<K, V>) { forall k :: k in m ==> k in n && m[k] == n[k] }

  lemma EvictedFirst<T>(order: seq<Entry<T>>, max: nat)
    requires |order| > max
    ensures First(KeysOf(order[..|order| - 1]), max) == First(KeysOf(order), max)
  {
    var keys, rest := KeysOf(order), KeysOf(order[..|order| - 1]);
    assert rest[..max] == keys[..max];
  }
}

/** The store behind the history server: a cache of sealed trails in front of the
    reads of the bucket. */
module CachedReads {
  import opened Text
  import opened TrailLines
  import opened TrailKeys
  import opened TrailReader
  import opened TrailWriter
  import opened RecentlyUsed

  datatype RunId = RunId(pipeline: string, run: string)

  /** A single path segment: not empty, not a dot name, no separator, no control
      character. */
  predicate ValidSegment(s: string) {
    && s != "" && s != "." && s != ".."
    && '/' !in s && '\\' !in s
    && forall i :: 0 <= i < |s| ==> s[i] >= ' ' && s[i] != 127 as char
  }

  predicate ValidId(id: RunId) { ValidSegment(id.pipeline) && ValidSegment(id.run) }

  function KeyFor(id: RunId): RunKey { RunKey(id.pipeline + ['/'] + id.run) }

  /** The key of a valid run is no other run's key, valid or not. */
  lemma KeyForExact(id: RunId, other: RunId)
    requires ValidId(id) && KeyFor(id) == KeyFor(other)
    ensures id == other
  {
    var s, p, r := KeyFor(id).text, id.pipeline, id.run;
    assert forall j :: 0 <= j < |p| ==> s[j] == p[j];
    assert forall j :: |p| < j < |s| ==> s[j] == r[j - |p| - 1];
    assert s == other.pipeline + ['/'] + other.run && s[|other.pipeline|] == '/';
    assert |other.pipeline| == |p|;
    assert p == s[..|p|] == other.pipeline && r == s[|p| + 1..] == other.run;
  }

  // -------------------------------------------------------- reads of the bucket

  /** The tail scan's outcome is the full read's, for every run with an event. */
  lemma OutcomesAgree(store: Store, t: Trail)
    requires Reads(store, Some(t))
    ensures ReadsOutcome(store, Some(t.outcome))
  {
    var ks :| SortedKeys(ks, store.Keys) && AllStored(ks, store) && Some(t) == TrailFrom(Gathered(ks, store));
    if NoObjects(store) {
      NothingGathered(ks, store);
    }
    assert SortedKeys(ks, store.Keys);
  }

  lemma {:induction false} NothingGathered(keys: seq<string>, store: Store)
    requires NoObjects(store) && forall i :: 0 <= i < |keys| ==> keys[i] in store
    ensures Gathered(keys, store) == []
    decreases |keys|
  {
    if |keys| > 0 { NothingGathered(keys[1..], store); }
  }

  // -------------------------------------------------------------- a cached store

  /** What the bucket holds of each run. */
  type World = map<RunId, Store>

  function StoreIn(w: World, id: RunId): Store { if id in w then w[id] else map[] }

  datatype Read<T> = Found(value: T) | NotFound | InvalidId

  /** An uncached read of a run. */
  ghost predicate ReadsRun(w: World, id: RunId, r: Read<Trail>) {
    match r
    case InvalidId => !ValidId(id)
    case NotFound => ValidId(id) && Reads(StoreIn(w, id), None)
    case Found(t) => ValidId(id) && Reads(StoreIn(w, id), Some(t))
  }

  ghost predicate ReadsRunOutcome(w: World, id: RunId, r: Read<Outcome>) {
    match r
    case InvalidId => !ValidId(id)
    case NotFound => ValidId(id) && ReadsOutcome(StoreIn(w, id), None)
    case Found(o) => ValidId(id) && ReadsOutcome(StoreIn(w, id), Some(o))
  }

  /** A sealed run is never written again. */
  ghost predicate SealedStay(w: World, w': World) {
    forall id, t :: Reads(StoreIn(w, id), Some(t)) && t.summary.sealed ==> StoreIn(w', id) == StoreIn(w, id)
  }

  /** Between two moments a run's bucket is its writer's, at two states of one run
      of the writer. */
  ghost predicate OneWriter(w: World, w': World, id: RunId) {
    exists c: Config, run: seq<State>, m: nat, n: nat, base: string ::
      && Run(c, run) && m <= n < |run|
      && Listed(base, run[m].bucket, StoreIn(w, id)) && Listed(base, run[n].bucket, StoreIn(w', id))
  }

  /** The writer writes nothing once a reader can see its seal. */
  lemma WritersKeepSealed(w: World, w': World)
    requires forall id :: OneWriter(w, w', id)
    ensures SealedStay(w, w')
  {
    forall id, t | Reads(StoreIn(w, id), Some(t)) && t.summary.sealed ensures StoreIn(w', id) == StoreIn(w, id) {
      assert OneWriter(w, w', id);
      var c: Config, run: seq<State>, m: nat, n: nat, base: string :|
        && Run(c, run) && m <= n < |run|
        && Listed(base, run[m].bucket, StoreIn(w, id)) && Listed(base, run[n].bucket, StoreIn(w', id));
      SealedIsInBucket(base, run[m].bucket, StoreIn(w, id), t);
      SealedBucketStays(c, run, m, n);
      ListedOnce(base, run[m].bucket, StoreIn(w, id), StoreIn(w', id));
    }
  }

  /** The cached trail is the sealed trail of the run its key names. */
  ghost predicate Faithful(w: World, key: RunKey, t: Trail) {
    t.summary.sealed && exists id :: ValidId(id) && KeyFor(id) == key && Reads(StoreIn(w, id), Some(t))
  }

  lemma FaithfulStays(w: World, w': World, key: RunKey, t: Trail)
    requires Faithful(w, key, t) && SealedStay(w, w')
    ensures Faithful(w', key, t)
  {
    var id :| ValidId(id) && KeyFor(id) == key && Reads(StoreIn(w, id), Some(t));
    assert Reads(StoreIn(w', id), Some(t));
  }

  lemma FaithfulReads(w: World, id: RunId, t: Trail)
    requires Faithful(w, KeyFor(id), t)
    ensures ReadsRun(w, id, Found(t)) && ReadsRunOutcome(w, id, Found(t.outcome))
  {
    var owner :| ValidId(owner) && KeyFor(owner) == KeyFor(id) && Reads(StoreIn(w, owner), Some(t));
    KeyForExact(owner, id);
    OutcomesAgree(StoreIn(w, id), t);
  }

  ghost predicate AllFaithful(w: World, items: map<RunKey, Entry<Trail>>) {
    forall k :: k in items ==> Faithful(w, k, items[k].value)
  }

  class CachedStore {
    const cache: Cache<Trail>

    constructor (retained: int, ghost w: World)
      ensures fresh(cache) && Right(w)
    {
      cache := new Cache(retained);
    }

    /** Every cached trail is right for the bucket as it stands. */
    ghost predicate Right(w: World)
      reads cache
    {
      cache.Valid() && AllFaithful(w, cache.items)
    }

    /** A bucket that keeps its sealed runs keeps the cache right. */
    lemma StaysRight(w: World, w': World)
      requires Right(w) && SealedStay(w, w')
      ensures Right(w')
    {
      forall k | k in cache.items ensures Faithful(w', k, cache.items[k].value) {
        FaithfulStays(w, w', k, cache.items[k].value);
      }
    }

    /** Cached or not, the answer is the one an uncached read gives now; a sealed
        trail is kept and counts as used, any other leaves the cache as it was. */
    method ReadRunTrail(w: World, id: RunId, listing: seq<string>) returns (r: Read<Trail>)
      requires Right(w) && Once(listing, StoreIn(w, id).Keys)
      modifies cache
      ensures Right(w) && ReadsRun(w, id, r)
      ensures var key := KeyFor(id);
        if r.Found? && r.value.summary.sealed then
          && KeysOf(cache.order) == Inserted(old(KeysOf(cache.order)), key, cache.max)
          && key in cache.items && cache.items[key].value == r.value
        else cache.order == old(cache.order) && cache.items == old(cache.items)
    {
      var key := KeyFor(id);
      var hit := cache.Get(key);
      if hit.Some? {
        FaithfulReads(w, id, hit.value);
        return Found(hit.value);
      }
      r := ReadUncached(w, id, listing);
      if r.Found? && r.value.summary.sealed {
        SealedIsFaithful(w, id, r.value);
        cache.Put(key, r.value);
        InsertedHolds(cache.order, cache.items, old(KeysOf(cache.order)), key, cache.max);
      }
    }

    /** The outcome alone: a cached trail gives its own and counts as used, and
        nothing new is kept. */
    method ReadRunOutcome(w: World, id: RunId, listing: seq<string>) returns (r: Read<Outcome>)
      requires Right(w) && Once(listing, StoreIn(w, id).Keys)
      modifies cache
      ensures Right(w) && ReadsRunOutcome(w, id, r) && cache.items == old(cache.items)
      ensures var key := KeyFor(id);
        KeysOf(cache.order) ==
          if key in old(cache.items) then Inserted(old(KeysOf(cache.order)), key, cache.max)
          else old(KeysOf(cache.order))
    {
      var hit := cache.Get(KeyFor(id));
      if hit.Some? {
        FaithfulReads(w, id, hit.value);
        return Found(hit.value.outcome);
      }
      r := ReadOutcomeUncached(w, id, listing);
    }
  }

  method ReadUncached(w: World, id: RunId, listing: seq<string>) returns (r: Read<Trail>)
    requires Once(listing, StoreIn(w, id).Keys)
    ensures ReadsRun(w, id, r)
  {
    if !ValidId(id) { return InvalidId; }
    var store := StoreIn(w, id);
    var t := TrailReader.ReadRunTrail(store, listing);
    r := if t.None? then NotFound else Found(t.value);
  }

  method ReadOutcomeUncached(w: World, id: RunId, listing: seq<string>) returns (r: Read<Outcome>)
    requires Once(listing, StoreIn(w, id).Keys)
    ensures ReadsRunOutcome(w, id, r)
  {
    if !ValidId(id) { return InvalidId; }
    var store := StoreIn(w, id);
    var o := TrailReader.ReadRunOutcome(store, listing);
    r := if o.None? then NotFound else Found(o.value);
  }

  lemma SealedIsFaithful(w: World, id: RunId, t: Trail)
    requires ReadsRun(w, id, Found(t)) && t.summary.sealed
    ensures Faithful(w, KeyFor(id), t)
  {
  }
}
