/** Kafka offsets (position/offsets.go): per topic, an offset per partition, with
    a partial order by containment and a meet. */
module Offsets {
  import opened Text
  import opened Order

  datatype Partition = Partition(num: int)

  type Parts = map<Partition, int>
  type Topics = map<string, Parts>

  const HALF_31: nat := 0x8000_0000
  const HALF_63: nat := 0x8000_0000_0000_0000

  predicate PartsAtLeast(mine: Parts, theirs: Parts) {
    forall p :: p in theirs ==> p in mine && mine[p] >= theirs[p]
  }

  function PartsOf(o: Topics, t: string): Parts { if t in o then o[t] else map[] }

  /** Every partition the other carries is at or beyond it here; a topic with no
      partitions asks for nothing. */
  predicate Contains(o: Topics, other: Topics) {
    forall t :: t in other ==> PartsAtLeast(PartsOf(o, t), other[t])
  }

  function Compare(o: Topics, other: Topics): int { ByContainment(Contains(o, other), Contains(other, o)) }

  function Min(a: int, b: int): int { if a < b then a else b }

  function MeetParts(mine: Parts, theirs: Parts): Parts {
    map p | p in mine && p in theirs :: Min(mine[p], theirs[p])
  }

  /** The per-partition minimum over what both sides carry. */
  function Meet(o: Topics, other: Topics): Topics {
    map t | t in o && t in other :: MeetParts(o[t], other[t])
  }

  /** Meet as the source computes it: two nested passes over the maps. */
  method MeetLoop(o: Topics, other: Topics) returns (met: Topics)
    ensures met == Meet(o, other)
  {
    met := map[];
    var todo := o.Keys;
    while todo != {}
      invariant todo <= o.Keys
      invariant met == map t | t in o && t in other && t !in todo :: MeetParts(o[t], other[t])
      decreases todo
    {
      var t :| t in todo;
      todo := todo - {t};
      if t in other {
        var parts := MeetPartsLoop(o[t], other[t]);
        met := met[t := parts];
      }
    }
  }

  method MeetPartsLoop(mine: Parts, theirs: Parts) returns (r: Parts)
    ensures r == MeetParts(mine, theirs)
  {
    r := map[];
    var todo := mine.Keys;
    while todo != {}
      invariant todo <= mine.Keys
      invariant r == map p | p in mine && p in theirs && p !in todo :: Min(mine[p], theirs[p])
      decreases todo
    {
      var p :| p in todo;
      todo := todo - {p};
      if p in theirs {
        r := r[p := if mine[p] < theirs[p] then mine[p] else theirs[p]];
      }
    }
  }

  /** Contains as the source decides it. */
  method ContainsLoop(o: Topics, other: Topics) returns (r: bool)
    ensures r == Contains(o, other)
  {
    var todo := other.Keys;
    while todo != {}
      invariant todo <= other.Keys
      invariant forall t :: t in other && t !in todo ==> PartsAtLeast(PartsOf(o, t), other[t])
      decreases todo
    {
      var t :| t in todo;
      todo := todo - {t};
      var theirs := other[t];
      var mine := if t in o then o[t] else map[];
      if t !in o && |theirs| > 0 {
        if PartsAtLeast(mine, theirs) { NothingAsked(theirs); }
        return false;
      }
      var parts := theirs.Keys;
      while parts != {}
        invariant parts <= theirs.Keys
        invariant forall p :: p in theirs && p !in parts ==> p in mine && mine[p] >= theirs[p]
        decreases parts
      {
        var p :| p in parts;
        parts := parts - {p};
        if p !in mine || mine[p] < theirs[p] { return false; }
      }
    }
    return true;
  }

  lemma NothingAsked(theirs: Parts)
    requires PartsAtLeast(map[], theirs)
    ensures |theirs| == 0
  {
    assert theirs.Keys == {};
  }

  lemma ContainsPreorder(a: Topics, b: Topics, c: Topics)
    ensures Contains(a, a)
    ensures Contains(a, b) && Contains(b, c) ==> Contains(a, c)
  {
    if Contains(a, b) && Contains(b, c) {
      forall t | t in c ensures PartsAtLeast(PartsOf(a, t), c[t]) {
        assert PartsAtLeast(PartsOf(b, t), c[t]);
        if t in b { assert PartsAtLeast(PartsOf(a, t), b[t]); }
      }
    }
  }

  // ------------------------------------------------------- what has been read

  /** A message of a topic's partition. */
  datatype Message = Message(topic: string, partition: Partition, num: int)

  /** Everything of a partition up to its offset has been read; of a partition with
      no offset, nothing. */
  predicate HasRead(o: Topics, m: Message) {
    m.topic in o && m.partition in o[m.topic] && m.num <= o[m.topic][m.partition]
  }

  /** Containing is having read every message the other has. */
  lemma ContainsIsReading(o: Topics, other: Topics)
    ensures Contains(o, other) <==> forall m :: HasRead(other, m) ==> HasRead(o, m)
  {
    if Contains(o, other) {
      forall m | HasRead(other, m) ensures HasRead(o, m) {
        assert PartsAtLeast(PartsOf(o, m.topic), other[m.topic]);
      }
    }
    if forall m :: HasRead(other, m) ==> HasRead(o, m) {
      forall t, p | t in other && p in other[t] ensures t in o && p in o[t] && o[t][p] >= other[t][p] {
        assert HasRead(other, Message(t, p, other[t][p]));
        assert HasRead(o, Message(t, p, other[t][p]));
      }
    }
  }

  /** A partition moved on, or heard of for the first time, is a strictly greater
      position. */
  lemma AdvancingIsGreater(o: Topics, t: string, p: Partition, off: int)
    requires p in PartsOf(o, t) ==> off > PartsOf(o, t)[p]
    ensures var next := o[t := PartsOf(o, t)[p := off]];
      Contains(next, o) && !Contains(o, next) && Compare(next, o) == 1 && Compare(o, next) == -1
  {
    var next := o[t := PartsOf(o, t)[p := off]];
    var m := Message(t, p, off);
    assert HasRead(next, m) && !HasRead(o, m);
    ContainsIsReading(o, next);
    forall m | HasRead(o, m) ensures HasRead(next, m) {
      if m.topic == t { assert next[t] == o[t][p := off]; }
    }
    ContainsIsReading(next, o);
  }

  /** The meet has read exactly what both have. */
  lemma MeetReadsBoth(a: Topics, b: Topics, m: Message)
    ensures HasRead(Meet(a, b), m) <==> HasRead(a, m) && HasRead(b, m)
  {
  }

  /** Meet is the greatest lower bound under containment. */
  lemma MeetIsGreatestLowerBound(a: Topics, b: Topics)
    ensures Contains(a, Meet(a, b)) && Contains(b, Meet(a, b))
    ensures forall l :: Contains(a, l) && Contains(b, l) ==> Contains(Meet(a, b), l)
  {
    forall l | Contains(a, l) && Contains(b, l) ensures Contains(Meet(a, b), l) {
      forall t | t in l ensures PartsAtLeast(PartsOf(Meet(a, b), t), l[t]) {
        assert PartsAtLeast(PartsOf(a, t), l[t]) && PartsAtLeast(PartsOf(b, t), l[t]);
      }
    }
  }

  // ------------------------------------------------------------------- text

  /** Partitions are 32-bit, offsets 64-bit. */
  predicate PartFits(p: Partition, off: int) {
    0 - HALF_31 <= p.num < HALF_31 && 0 - HALF_63 <= off < HALF_63
  }

  function PairText(p: Partition, off: int): string { ['p'] + FormatInt(p.num) + ['='] + FormatInt(off) }

  /** One "p0=10" pair; the "p" may be missing. */
  function ParsePair(s: string): Option<(Partition, int)> {
    match Cut(s, '=')
    case None => None
    case Some((k, v)) =>
      match (ParseInt(HALF_31, if k != [] && k[0] == 'p' then k[1..] else k), ParseInt(HALF_63, v))
      case (Some(p), Some(off)) => Some((Partition(p), off))
      case _ => None
  }

  /** The pairs in order, later ones over earlier ones; one bad pair fails all. */
  function Collect(pairs: seq<Option<(Partition, int)>>, acc: Parts): Option<Parts> {
    if pairs == [] then Some(acc)
    else
      match pairs[0]
      case None => None
      case Some((p, off)) => Collect(pairs[1..], acc[p := off])
  }

  function ParseEach(pairs: seq<string>): seq<Option<(Partition, int)>> {
    seq(|pairs|, i requires 0 <= i < |pairs| => ParsePair(pairs[i]))
  }

  function ParseParts(s: string): Option<Parts> {
    if s == [] then Some(map[]) else Collect(ParseEach(Split(s, ',')), map[])
  }

  function ParseTopics(entries: seq<string>, acc: Topics): Option<Topics> {
    if entries == [] then Some(acc)
    else
      match Cut(entries[0], ':')
      case None => None
      case Some((topic, rest)) =>
        match ParseParts(rest)
        case None => None
        case Some(parts) => if topic in acc then None else ParseTopics(entries[1..], acc[topic := parts])
  }

  function Parse(s: string): Option<Topics> {
    if s == [] then Some(map[]) else ParseTopics(Split(s, ';'), map[])
  }

  /** One topic's partitions in the order ps. */
  function PartsText(parts: Parts, ps: seq<Partition>): string
    requires forall p :: p in ps ==> p in parts
  {
    Join(PairTexts(parts, ps), ',')
  }

  /** How a printer walks the maps: the topics, and each topic's partitions, each
      once and in some order. */
  datatype Walk = Walk(topics: seq<string>, parts: map<string, seq<Partition>>)

  ghost predicate Walks(w: Walk, o: Topics) {
    && Once(w.topics, o.Keys)
    && forall t :: t in o ==> t in w.parts && Once(w.parts[t], o[t].Keys)
  }

  ghost function EntryText(o: Topics, w: Walk, t: string): string
    requires Walks(w, o) && t in o
  {
    t + [':'] + PartsText(o[t], w.parts[t])
  }

  ghost function Entries(o: Topics, w: Walk, ts: seq<string>): seq<string>
    requires Walks(w, o) && forall t :: t in ts ==> t in o
  {
    seq(|ts|, i requires 0 <= i < |ts| => EntryText(o, w, ts[i]))
  }

  ghost function Print(o: Topics, w: Walk): string
    requires Walks(w, o)
  {
    Join(Entries(o, w, w.topics), ';')
  }

  // ------------------------------------------------------------- round trip

  ghost predicate Numeric(s: string) { forall i :: 0 <= i < |s| ==> IntChar(s[i]) }

  lemma PairCut(a: string, b: string)
    requires Numeric(a) && Numeric(b)
    ensures Cut(['p'] + a + ['='] + b, '=') == Some((['p'] + a, b)) && Neat(['p'] + a + ['='] + b)
  {
    CutHead(['p'] + a, b, '=');
  }

  lemma PairParsed(a: string, b: string, p: int, off: int)
    requires Numeric(a) && Numeric(b)
    requires ParseInt(HALF_31, a) == Some(p) && ParseInt(HALF_63, b) == Some(off)
    ensures ParsePair(['p'] + a + ['='] + b) == Some((Partition(p), off))
  {
    PairCut(a, b);
    var k := ['p'] + a;
    assert k[0] == 'p' && k[1..] == a;
  }

  lemma PairRoundTrip(p: Partition, off: int)
    requires PartFits(p, off)
    ensures ParsePair(PairText(p, off)) == Some((p, off)) && Neat(PairText(p, off))
  {
    FormatIntChars(p.num);
    FormatIntChars(off);
    ParseIntFormat(HALF_31, p.num);
    ParseIntFormat(HALF_63, off);
    PairCut(FormatInt(p.num), FormatInt(off));
    PairParsed(FormatInt(p.num), FormatInt(off), p.num, off);
  }

  function PairTexts(parts: Parts, ps: seq<Partition>): seq<string>
    requires forall p :: p in ps ==> p in parts
  {
    seq(|ps|, i requires 0 <= i < |ps| => PairText(ps[i], parts[ps[i]]))
  }

  ghost predicate PartsFit(parts: Parts) { forall p :: p in parts ==> PartFits(p, parts[p]) }

  function PairsOf(parts: Parts, ps: seq<Partition>): seq<Option<(Partition, int)>>
    requires forall p :: p in ps ==> p in parts
  {
    seq(|ps|, i requires 0 <= i < |ps| => Some((ps[i], parts[ps[i]])))
  }

  lemma {:induction false} PairsCollected(parts: Parts, ps: seq<Partition>, acc: Parts)
    requires forall p :: p in ps ==> p in parts
    ensures Collect(PairsOf(parts, ps), acc) == Some(AddAll(parts, ps, acc))
    decreases |ps|
  {
    if ps != [] {
      assert PairsOf(parts, ps)[1..] == PairsOf(parts, ps[1..]);
      PairsCollected(parts, ps[1..], acc[ps[0] := parts[ps[0]]]);
    }
  }

  lemma PairsParsed(parts: Parts, ps: seq<Partition>)
    requires PartsFit(parts) && forall p :: p in ps ==> p in parts
    ensures ParseEach(PairTexts(parts, ps)) == PairsOf(parts, ps)
    ensures forall i :: 0 <= i < |ps| ==> Neat(PairTexts(parts, ps)[i])
  {
    forall i | 0 <= i < |ps|
      ensures ParseEach(PairTexts(parts, ps))[i] == PairsOf(parts, ps)[i] && Neat(PairTexts(parts, ps)[i])
    {
      PairAt(parts, ps, i);
    }
  }

  lemma PairAt(parts: Parts, ps: seq<Partition>, i: nat)
    requires PartsFit(parts) && i < |ps| && forall p :: p in ps ==> p in parts
    ensures ParsePair(PairTexts(parts, ps)[i]) == Some((ps[i], parts[ps[i]])) && Neat(PairTexts(parts, ps)[i])
  {
    assert ps[i] in ps;
    PairRoundTrip(ps[i], parts[ps[i]]);
  }

  predicate Neat(s: string) { s != [] && ',' !in s && ';' !in s && ':' !in s }

  lemma PartsRoundTrip(parts: Parts, ps: seq<Partition>)
    requires PartsFit(parts) && Once(ps, parts.Keys)
    ensures ParseParts(PartsText(parts, ps)) == Some(parts)
    ensures ':' !in PartsText(parts, ps) && ';' !in PartsText(parts, ps)
  {
    var texts := PairTexts(parts, ps);
    PairsParsed(parts, ps);
    forall i | 0 <= i < |texts| ensures Neat(texts[i]) { assert Neat(PairTexts(parts, ps)[i]); }
    JoinAvoids(texts, ',', ';');
    JoinAvoids(texts, ',', ':');
    PairsCollected(parts, ps, map[]);
    AddAllFromNothing(parts, ps);
    if ps != [] { SplitJoin(texts, ','); }
  }

  /** A topic name the text form can carry. */
  predicate Carried(t: string) { ':' !in t && ';' !in t }

  lemma EntryParsed(o: Topics, w: Walk, t: string)
    requires Walks(w, o) && t in o && PartsFit(o[t]) && Carried(t)
    ensures Cut(EntryText(o, w, t), ':') == Some((t, PartsText(o[t], w.parts[t])))
    ensures ParseParts(PartsText(o[t], w.parts[t])) == Some(o[t])
    ensures ';' !in EntryText(o, w, t) && EntryText(o, w, t) != []
  {
    PartsRoundTrip(o[t], w.parts[t]);
    CutHead(t, PartsText(o[t], w.parts[t]), ':');
  }

  /** One turn of the parse, whatever text gave it. */
  lemma TopicTaken(entries: seq<string>, acc: Topics, topic: string, rest: string, parts: Parts)
    requires entries != [] && topic !in acc
    requires Cut(entries[0], ':') == Some((topic, rest)) && ParseParts(rest) == Some(parts)
    ensures ParseTopics(entries, acc) == ParseTopics(entries[1..], acc[topic := parts])
  {
  }

  lemma EntryTaken(o: Topics, w: Walk, t: string, entries: seq<string>, acc: Topics)
    requires Walks(w, o) && t in o && PartsFit(o[t]) && Carried(t) && t !in acc
    requires entries != [] && entries[0] == EntryText(o, w, t)
    ensures ParseTopics(entries, acc) == ParseTopics(entries[1..], acc[t := o[t]])
  {
    EntryParsed(o, w, t);
    TopicTaken(entries, acc, t, PartsText(o[t], w.parts[t]), o[t]);
  }

  lemma FirstTaken(o: Topics, w: Walk, ts: seq<string>, acc: Topics)
    requires Walks(w, o) && (forall t :: t in ts ==> t in o) && ts != []
    requires PartsFit(o[ts[0]]) && Carried(ts[0]) && ts[0] !in acc
    ensures ParseTopics(Entries(o, w, ts), acc) == ParseTopics(Entries(o, w, ts[1..]), acc[ts[0] := o[ts[0]]])
  {
    assert Entries(o, w, ts)[1..] == Entries(o, w, ts[1..]);
    EntryTaken(o, w, ts[0], Entries(o, w, ts), acc);
  }

  lemma {:induction false} EntriesParsed(o: Topics, w: Walk, ts: seq<string>, acc: Topics)
    requires Walks(w, o) && (forall t :: t in o ==> PartsFit(o[t])) && Untaken(o, ts, acc)
    ensures ParseTopics(Entries(o, w, ts), acc) == Some(AddAll(o, ts, acc))
    decreases |ts|
  {
    if ts != [] {
      var t := ts[0];
      FirstTaken(o, w, ts, acc);
      RestUntaken(o, ts, acc);
      EntriesParsed(o, w, ts[1..], acc[t := o[t]]);
    }
  }

  /** Topics listed once each, all carried, none taken yet. */
  ghost predicate Untaken(o: Topics, ts: seq<string>, acc: Topics) {
    Distinct(ts) && forall t :: t in ts ==> t in o && t !in acc && Carried(t)
  }

  lemma RestUntaken(o: Topics, ts: seq<string>, acc: Topics)
    requires ts != [] && Untaken(o, ts, acc)
    ensures Untaken(o, ts[1..], acc[ts[0] := o[ts[0]]])
  {
    assert ts[0] in ts && forall u :: u in ts[1..] ==> u in ts && u != ts[0];
  }

  lemma {:induction false} ParsedTopicsCarried(entries: seq<string>, acc: Topics)
    requires forall i :: 0 <= i < |entries| ==> ';' !in entries[i]
    requires forall t :: t in acc ==> Carried(t)
    ensures var r := ParseTopics(entries, acc); r.Some? ==> forall t :: t in r.value ==> Carried(t)
    decreases |entries|
  {
    if entries != [] {
      match Cut(entries[0], ':')
      case None =>
      case Some((topic, rest)) =>
        match ParseParts(rest)
        case None =>
        case Some(parts) => if topic !in acc { ParsedTopicsCarried(entries[1..], acc[topic := parts]); }
    }
  }

  lemma CarriedRoundTrip(o: Topics, w: Walk)
    requires Walks(w, o) && forall t :: t in o ==> PartsFit(o[t]) && Carried(t)
    ensures Parse(Print(o, w)) == Some(o)
  {
    var es := Entries(o, w, w.topics);
    if w.topics == [] {
      assert o == map[];
    } else {
      forall i | 0 <= i < |es| ensures ';' !in es[i] && es[i] != [] {
        assert w.topics[i] in w.topics;
        EntryParsed(o, w, w.topics[i]);
      }
      SplitJoin(es, ';');
      assert Split([], ';') == [[]] && es[0] != [];
      EntriesParsed(o, w, w.topics, map[]);
      AddAllFromNothing(o, w.topics);
    }
  }

  /** Parsing undoes printing, in whatever order the maps are walked, exactly when
      no topic name holds a ':' or a ';'. */
  lemma OffsetsRoundTrip(o: Topics, w: Walk)
    requires Walks(w, o) && forall t :: t in o ==> PartsFit(o[t])
    ensures Parse(Print(o, w)) == Some(o) <==> forall t :: t in o ==> Carried(t)
  {
    if forall t :: t in o ==> Carried(t) {
      CarriedRoundTrip(o, w);
    } else if Print(o, w) != [] {
      ParsedTopicsCarried(Split(Print(o, w), ';'), map[]);
    }
  }
}

/** Which texts are offsets, and which offsets they give. */
module OffsetsTextMeaning {
  import opened Text
  import opened Offsets

  type Pair = Option<(Partition, int)>

  /** Pair i gives partition p its offset, and no later pair gives it one. */
  ghost predicate LastFor(pairs: seq<Pair>, p: Partition, i: nat) {
    && i < |pairs| && pairs[i].Some? && pairs[i].value.0 == p
    && forall j :: i < j < |pairs| ==> pairs[j].None? || pairs[j].value.0 != p
  }

  ghost predicate AllPairs(pairs: seq<Pair>) { forall i :: 0 <= i < |pairs| ==> pairs[i].Some? }

  ghost predicate Names(pairs: seq<Pair>, p: Partition) {
    exists i :: 0 <= i < |pairs| && pairs[i].Some? && pairs[i].value.0 == p
  }

  lemma FirstPair(pairs: seq<Pair>, p: Partition)
    requires pairs != []
    ensures AllPairs(pairs) <==> pairs[0].Some? && AllPairs(pairs[1..])
    ensures Names(pairs, p) <==> (pairs[0].Some? && pairs[0].value.0 == p) || Names(pairs[1..], p)
    ensures forall i: nat :: i > 0 && LastFor(pairs, p, i) ==> LastFor(pairs[1..], p, i - 1)
    ensures LastFor(pairs, p, 0) ==> !Names(pairs[1..], p)
  {
    var rest := pairs[1..];
    assert forall i :: 0 <= i < |rest| ==> rest[i] == pairs[i + 1];
    assert forall i :: 1 <= i < |pairs| ==> pairs[i] == rest[i - 1];
  }

  /** One bad pair fails the list; of two pairs for a partition the later counts. */
  lemma {:induction false} LastPairCounts(pairs: seq<Pair>, acc: Parts, p: Partition)
    ensures Collect(pairs, acc).Some? <==> AllPairs(pairs)
    ensures AllPairs(pairs) ==>
      && (p in Collect(pairs, acc).value <==> p in acc || Names(pairs, p))
      && (forall i: nat :: LastFor(pairs, p, i) ==>
           p in Collect(pairs, acc).value && Collect(pairs, acc).value[p] == pairs[i].value.1)
      && (p in acc && !Names(pairs, p) ==> Collect(pairs, acc).value[p] == acc[p])
    decreases |pairs|
  {
    if pairs != [] {
      FirstPair(pairs, p);
      if pairs[0].Some? { LastPairCounts(pairs[1..], acc[pairs[0].value.0 := pairs[0].value.1], p); }
    }
  }

  // ------------------------------------------------------------------- topics

  /** An entry's topic and what it gives it, or None for a bad entry. */
  type Entry<X> = Option<(string, X)>

  ghost predicate GivesAt<X>(es: seq<Entry<X>>, i: nat, t: string) {
    i < |es| && es[i].Some? && es[i].value.0 == t
  }

  ghost predicate Given<X>(es: seq<Entry<X>>, t: string) { exists i: nat :: GivesAt(es, i, t) }

  /** Entry j is bad, or gives a topic that an entry before it has given. */
  ghost predicate Spoils<X>(es: seq<Entry<X>>, j: nat)
    requires j < |es|
  {
    es[j].None? || Given(es[..j], es[j].value.0)
  }

  ghost predicate AnySpoils<X>(es: seq<Entry<X>>, n: nat)
    requires n <= |es|
  {
    exists j :: 0 <= j < n && Spoils(es, j)
  }

  /** Each entry's topic has what that entry gives, and there is no other topic. */
  ghost predicate Collected<X>(es: seq<Entry<X>>, r: map<string, X>) {
    && (forall t :: t in r <==> Given(es, t))
    && (forall i: nat, t :: GivesAt(es, i, t) ==> t in r && r[t] == es[i].value.1)
  }

  /** The first n entries taken in order. */
  ghost function After<X>(es: seq<Entry<X>>, n: nat): Option<map<string, X>>
    requires n <= |es|
  {
    if n == 0 then Some(map[])
    else if After(es, n - 1).None? || es[n - 1].None? then None
    else
      var acc, (t, x) := After(es, n - 1).value, es[n - 1].value;
      if t in acc then None else Some(acc[t := x])
  }

  lemma GivenMore<X>(es: seq<Entry<X>>, n: nat, t: string)
    requires n < |es|
    ensures Given(es[..n + 1], t) <==> Given(es[..n], t) || GivesAt(es, n, t)
  {
    var less, more := es[..n], es[..n + 1];
    if i: nat :| GivesAt(less, i, t) { assert GivesAt(more, i, t); }
    if i: nat :| GivesAt(more, i, t) {
      if i < n { assert GivesAt(less, i, t); }
    }
    if GivesAt(es, n, t) { assert GivesAt(more, n, t); }
  }

  lemma CollectedMore<X>(es: seq<Entry<X>>, n: nat, acc: map<string, X>, t: string, x: X)
    requires n < |es| && Collected(es[..n], acc) && es[n] == Some((t, x)) && t !in acc
    ensures Collected(es[..n + 1], acc[t := x])
  {
    var less, more, r := es[..n], es[..n + 1], acc[t := x];
    forall u ensures u in r <==> Given(more, u) { GivenMore(es, n, u); }
    forall i: nat, u | GivesAt(more, i, u) ensures u in r && r[u] == more[i].value.1 {
      if i < n { assert GivesAt(less, i, u); }
    }
  }

  lemma {:induction false} AfterGives<X>(es: seq<Entry<X>>, n: nat)
    requires n <= |es|
    ensures After(es, n).Some? <==> !AnySpoils(es, n)
    ensures After(es, n).Some? ==> Collected(es[..n], After(es, n).value)
    decreases n
  {
    if n > 0 {
      AfterGives(es, n - 1);
      assert AnySpoils(es, n) <==> AnySpoils(es, n - 1) || Spoils(es, n - 1);
      if After(es, n).Some? {
        CollectedMore(es, n - 1, After(es, n - 1).value, es[n - 1].value.0, es[n - 1].value.1);
      }
    }
  }

  /** What "topic:pairs" gives. */
  function EntryOf(entry: string): Entry<Parts> {
    match Cut(entry, ':')
    case None => None
    case Some((topic, rest)) =>
      match ParseParts(rest)
      case None => None
      case Some(parts) => Some((topic, parts))
  }

  function EntriesOf(entries: seq<string>): (es: seq<Entry<Parts>>)
    ensures |es| == |entries| && forall i :: 0 <= i < |es| ==> es[i] == EntryOf(entries[i])
  {
    seq(|entries|, i requires 0 <= i < |entries| => EntryOf(entries[i]))
  }

  lemma ParseOne(entries: seq<string>, acc: Topics, e: Entry<Parts>)
    requires entries != [] && e == EntryOf(entries[0])
    ensures e.None? ==> ParseTopics(entries, acc).None?
    ensures e.Some? && e.value.0 in acc ==> ParseTopics(entries, acc).None?
    ensures e.Some? && e.value.0 !in acc ==>
      ParseTopics(entries, acc) == ParseTopics(entries[1..], acc[e.value.0 := e.value.1])
  {
  }

  lemma {:induction false} ParseIsAfter(entries: seq<string>, es: seq<Entry<Parts>>, n: nat)
    requires n <= |entries| && es == EntriesOf(entries)
    ensures ParseTopics(entries, map[]) ==
      if After(es, n).None? then None else ParseTopics(entries[n..], After(es, n).value)
    decreases n
  {
    if n == 0 {
      assert entries[0..] == entries;
    } else {
      ParseIsAfter(entries, es, n - 1);
      if After(es, n - 1).Some? {
        assert entries[n - 1..][1..] == entries[n..];
        ParseOne(entries[n - 1..], After(es, n - 1).value, es[n - 1]);
      }
    }
  }

  /** A text parses exactly when every entry between semicolons gives a topic its
      partitions and none gives a topic again, and then gives just those. */
  lemma ParseGives(s: string)
    requires s != []
    ensures var es := EntriesOf(Split(s, ';'));
      && (Parse(s).Some? <==> !AnySpoils(es, |es|))
      && (Parse(s).Some? ==> Collected(es, Parse(s).value))
  {
    var entries := Split(s, ';');
    var es := EntriesOf(entries);
    ParseIsAfter(entries, es, |es|);
    AfterGives(es, |es|);
    assert es[..|es|] == es && entries[|entries|..] == [];
  }
}
