/** The text form of a GTID set (position/gtid.go), and what parsing makes of it. */
module GtidText {
  import opened Text
  import opened Gtid

  /** A range of 64-bit transaction numbers. */
  predicate Fits(iv: Interval) { iv.start < iv.stop < TWO_64 }

  predicate AllFit(ivs: seq<Interval>) { Valid(ivs) && forall i :: 0 <= i < |ivs| ==> Fits(ivs[i]) }

  /** "n" or "n-m", both ends included. */
  function IntervalText(iv: Interval): string
    requires iv.start < iv.stop
  {
    if iv.stop == iv.start + 1 then Format(10, iv.start)
    else Format(10, iv.start) + ['-'] + Format(10, iv.stop - 1)
  }

  /** parseInterval, in 64-bit arithmetic: the end plus one may wrap to zero. */
  function ParseInterval(s: string): Option<Interval> {
    var p := Split(s, '-');
    if |p| > 2 then None
    else
      match (ParseUint(10, TWO_64, p[0]), ParseUint(10, TWO_64, p[|p| - 1]))
      case (Some(start), Some(last)) => RangeOf(start, last)
      case _ => None
  }

  function RangeOf(start: nat, last: nat): Option<Interval> {
    var stop := (last + 1) % TWO_64;
    if stop <= start then None else Some(Interval(start, stop))
  }

  lemma RangeOfFits(start: nat, last: nat)
    requires last < TWO_64 && RangeOf(start, last).Some?
    ensures Fits(RangeOf(start, last).value) && RangeOf(start, last).value == Interval(start, last + 1)
  {
  }

  /** Whatever is accepted did not wrap: it holds its first number up to and
      including its last one. */
  lemma AcceptedIntervalsFit(s: string)
    requires ParseInterval(s).Some?
    ensures Fits(ParseInterval(s).value)
    ensures var p := Split(s, '-');
      && ParseInterval(s).value.start == Value(10, p[0])
      && ParseInterval(s).value.stop == Value(10, p[|p| - 1]) + 1
  {
    var p := Split(s, '-');
    RangeOfFits(Value(10, p[0]), Value(10, p[|p| - 1]));
  }

  /** A text of digits and dashes that does not end in a space. */
  predicate Plain(s: string) {
    s != [] && forall i :: 0 <= i < |s| ==> '0' <= s[i] <= '9' || s[i] == '-'
  }

  lemma DigitsOnly(n: nat)
    ensures Plain(Format(10, n)) && '-' !in Format(10, n)
  {
    FormatValue(10, n);
    forall i | 0 <= i < |Format(10, n)| ensures '0' <= Format(10, n)[i] <= '9' {
      assert DigitValue(Format(10, n)[i]) < 10;
    }
  }

  lemma RangeText(a: string, b: string, m: nat, n: nat)
    requires Plain(a) && Plain(b) && '-' !in a && '-' !in b
    requires ParseUint(10, TWO_64, a) == Some(m) && ParseUint(10, TWO_64, b) == Some(n)
    requires m <= n < TWO_64 - 1
    ensures m == n ==> ParseInterval(a) == Some(Interval(m, m + 1))
    ensures ParseInterval(a + ['-'] + b) == Some(Interval(m, n + 1)) && Plain(a + ['-'] + b)
  {
    DashSplits(a, b);
    RangeOfIs(m, n);
  }

  lemma DashSplits(a: string, b: string)
    requires '-' !in a && '-' !in b
    ensures Split(a, '-') == [a] && Split(a + ['-'] + b, '-') == [a, b]
  {
    SplitHead(a, b, '-');
    SplitHead(b, [], '-');
    assert [a] + [b] == [a, b];
  }

  lemma RangeOfIs(start: nat, last: nat)
    requires start <= last < TWO_64 - 1
    ensures RangeOf(start, last) == Some(Interval(start, last + 1))
  {
  }

  lemma IntervalRoundTrip(iv: Interval)
    requires Fits(iv)
    ensures ParseInterval(IntervalText(iv)) == Some(iv) && Plain(IntervalText(iv))
  {
    DigitsOnly(iv.start);
    DigitsOnly(iv.stop - 1);
    ParseFormat(10, TWO_64, iv.start);
    ParseFormat(10, TWO_64, iv.stop - 1);
    RangeText(Format(10, iv.start), Format(10, iv.stop - 1), iv.start, iv.stop - 1);
  }

  // ------------------------------------------------------------- whole sets

  predicate IsHex(c: char) { DigitValue(c) < 16 }

  /** The 8-4-4-4-12 text form of section 4 of RFC 9562. */
  predicate ValidUuid(s: string) {
    && |s| == 36
    && forall i :: 0 <= i < 36 ==> if i in {8, 13, 18, 23} then s[i] == '-' else IsHex(s[i])
  }

  function IntervalTexts(ivs: seq<Interval>): (r: seq<string>)
    requires Valid(ivs)
    ensures |r| == |ivs| && forall i :: 0 <= i < |r| ==> r[i] == IntervalText(ivs[i])
  {
    seq(|ivs|, i requires 0 <= i < |ivs| => IntervalText(ivs[i]))
  }

  /** One server's entry: its key, then each range after a colon. */
  function EntryText(k: string, ivs: seq<Interval>): string
    requires Valid(ivs)
  {
    Join([k] + IntervalTexts(ivs), ':')
  }

  function ParseIntervals(segs: seq<string>): Option<seq<Interval>> {
    if segs == [] then Some([])
    else
      match (ParseInterval(segs[0]), ParseIntervals(segs[1..]))
      case (Some(iv), Some(rest)) => Some([iv] + rest)
      case _ => None
  }

  /** One comma-separated part: the key it adds to, and its ranges. A second
      segment that is not the last is read as a tag. */
  function ParsePart(part: string): Option<(string, seq<Interval>)> {
    var segs := Split(part, ':');
    if |segs| < 2 || !ValidUuid(segs[0]) then None
    else
      var key := if |segs| >= 3 then segs[0] + [':'] + segs[1] else segs[0];
      match ParseIntervals(if |segs| >= 3 then segs[2..] else segs[1..])
      case None => None
      case Some(ivs) => Some((key, ivs))
  }

  function ParseParts(parts: seq<string>, acc: Set): Option<Set> {
    if parts == [] then Some(acc)
    else
      match Added(acc, parts[0])
      case None => None
      case Some(next) => ParseParts(parts[1..], next)
  }

  /** One part's ranges added to those of its key. */
  function Added(acc: Set, part: string): Option<Set> {
    match ParsePart(TrimSpace(part))
    case None => None
    case Some((k, ivs)) => Some(acc[k := NormalForm(Ranges(acc, k) + ivs)])
  }

  function Parse(s: string): Option<Set> {
    if s == [] then Some(map[]) else ParseParts(Split(s, ','), map[])
  }

  /** The set's text with its keys in the order ks. */
  function Print(g: Set, ks: seq<string>): string
    requires forall k :: k in ks ==> k in g && Valid(g[k])
  {
    Join(Entries(g, ks), ',')
  }

  function Entries(g: Set, ks: seq<string>): (r: seq<string>)
    requires forall k :: k in ks ==> k in g && Valid(g[k])
    ensures |r| == |ks| && forall i :: 0 <= i < |r| ==> r[i] == EntryText(ks[i], g[ks[i]])
  {
    seq(|ks|, i requires 0 <= i < |ks| => EntryText(ks[i], g[ks[i]]))
  }

  predicate Tagged(k: string) { ':' in k }

  /** "uuid" or "uuid:tag". */
  predicate GoodKey(k: string) {
    ',' !in k && ValidUuid(Split(k, ':')[0]) && |Split(k, ':')| <= 2
  }

  /** What ParseGTID can produce. */
  ghost predicate Parsable(g: Set) {
    WellFormed(g) && forall k :: k in g ==> GoodKey(k) && AllFit(g[k])
  }

  // ------------------------------------------------------------- round trip

  lemma {:induction false} TextsRoundTrip(ivs: seq<Interval>)
    requires AllFit(ivs)
    ensures ParseIntervals(IntervalTexts(ivs)) == Some(ivs)
    decreases |ivs|
  {
    if ivs != [] {
      IntervalRoundTrip(ivs[0]);
      TextsRoundTrip(ivs[1..]);
      var texts := IntervalTexts(ivs);
      assert texts[1..] == IntervalTexts(ivs[1..]);
      ParsedFirst(texts, ivs[0], ivs[1..]);
      assert ivs == [ivs[0]] + ivs[1..];
    }
  }

  lemma ParsedFirst(texts: seq<string>, iv: Interval, rest: seq<Interval>)
    requires texts != [] && ParseInterval(texts[0]) == Some(iv) && ParseIntervals(texts[1..]) == Some(rest)
    ensures ParseIntervals(texts) == Some([iv] + rest)
  {
  }

  lemma {:induction false} TextsJoined(ivs: seq<Interval>)
    requires ivs != [] && AllFit(ivs)
    ensures var s := Join(IntervalTexts(ivs), ':');
      s != [] && !IsSpace(s[|s| - 1]) && ',' !in s && Split(s, ':') == IntervalTexts(ivs)
  {
    var texts := IntervalTexts(ivs);
    forall i | 0 <= i < |texts| ensures Plain(texts[i]) { IntervalRoundTrip(ivs[i]); }
    JoinAvoids(texts, ':', ',');
    SplitJoin(texts, ':');
    JoinEnds(texts);
  }

  lemma {:induction false} JoinEnds(texts: seq<string>)
    requires texts != [] && forall i :: 0 <= i < |texts| ==> Plain(texts[i])
    ensures var s := Join(texts, ':'); s != [] && !IsSpace(s[|s| - 1])
    decreases |texts|
  {
    if |texts| > 1 { JoinEnds(texts[1..]); }
  }

  lemma EntrySegments(k: string, ivs: seq<Interval>)
    requires GoodKey(k) && ivs != [] && AllFit(ivs)
    ensures Split(EntryText(k, ivs), ':') == Split(k, ':') + IntervalTexts(ivs)
    ensures TrimSpace(EntryText(k, ivs)) == EntryText(k, ivs) && ',' !in EntryText(k, ivs)
  {
    var rest := Join(IntervalTexts(ivs), ':');
    TextsJoined(ivs);
    assert ([k] + IntervalTexts(ivs))[1..] == IntervalTexts(ivs);
    assert EntryText(k, ivs) == k + [':'] + rest;
    SplitConcat(k, rest, ':');
    KeyStarts(k);
    TrimNothing(EntryText(k, ivs));
  }

  lemma KeyStarts(k: string)
    requires GoodKey(k)
    ensures k != [] && !IsSpace(k[0])
  {
    var segs := Split(k, ':');
    JoinSplit(k, ':');
    assert IsHex(segs[0][0]);
    assert Join(segs, ':')[0] == segs[0][0];
  }

  /** What the parser makes of one printed entry: itself, except that an untagged
      key with several ranges loses its first range to a tag. */
  lemma EntryParsed(k: string, ivs: seq<Interval>)
    requires GoodKey(k) && ivs != [] && AllFit(ivs)
    ensures ParsePart(EntryText(k, ivs)) ==
      if Tagged(k) || |ivs| == 1 then Some((k, ivs))
      else Some((k + [':'] + IntervalText(ivs[0]), ivs[1..]))
  {
    EntrySegments(k, ivs);
    var segs, texts := Split(k, ':'), IntervalTexts(ivs);
    JoinSplit(k, ':');
    SplitTagged(k);
    if Tagged(k) {
      assert (segs + texts)[2..] == texts;
      TextsRoundTrip(ivs);
    } else if |ivs| == 1 {
      assert (segs + texts)[1..] == texts;
      TextsRoundTrip(ivs);
    } else {
      assert (segs + texts)[2..] == IntervalTexts(ivs[1..]);
      TextsRoundTrip(ivs[1..]);
    }
  }

  lemma SplitTagged(k: string)
    requires GoodKey(k)
    ensures Tagged(k) ==> |Split(k, ':')| == 2 && k == Split(k, ':')[0] + [':'] + Split(k, ':')[1]
    ensures !Tagged(k) ==> Split(k, ':') == [k]
  {
    JoinSplit(k, ':');
    if Tagged(k) {
      assert Split(k, ':') != [k];
    } else {
      SplitHead(k, [], ':');
    }
  }

  /** A key the parser reads back as printed. */
  predicate Survives(k: string, ivs: seq<Interval>) { Tagged(k) || |ivs| == 1 }

  lemma OneMerged(acc: Set, k: string, ivs: seq<Interval>)
    requires k !in acc && Normal(ivs)
    ensures NormalForm(Ranges(acc, k) + ivs) == ivs
  {
    assert Ranges(acc, k) + ivs == ivs;
    NormalFormUnique(ivs, ivs);
  }

  lemma {:induction false} EntriesParsed(g: Set, ks: seq<string>, acc: Set)
    requires Parsable(g) && Distinct(ks)
    requires forall k :: k in ks ==> k in g && k !in acc && Survives(k, g[k])
    ensures ParseParts(Entries(g, ks), acc) == Some(AddAll(g, ks, acc))
    decreases |ks|
  {
    if ks != [] {
      var k := ks[0];
      assert k in ks;
      EntryTaken(Entries(g, ks), k, g[k], acc);
      assert Entries(g, ks)[1..] == Entries(g, ks[1..]);
      RestUntaken(g, ks, acc);
      EntriesParsed(g, ks[1..], acc[k := g[k]]);
    }
  }

  /** One turn of the parse on a key that survives. */
  lemma EntryTaken(entries: seq<string>, k: string, ivs: seq<Interval>, acc: Set)
    requires GoodKey(k) && ivs != [] && AllFit(ivs) && Normal(ivs) && Survives(k, ivs) && k !in acc
    requires entries != [] && entries[0] == EntryText(k, ivs)
    ensures ParseParts(entries, acc) == ParseParts(entries[1..], acc[k := ivs])
  {
    EntrySegments(k, ivs);
    EntryParsed(k, ivs);
    OneMerged(acc, k, ivs);
  }

  lemma RestUntaken(g: Set, ks: seq<string>, acc: Set)
    requires ks != [] && Distinct(ks)
    requires forall k :: k in ks ==> k in g && k !in acc && Survives(k, g[k])
    ensures Distinct(ks[1..])
    ensures forall k :: k in ks[1..] ==> k in g && k !in acc[ks[0] := g[ks[0]]] && Survives(k, g[k])
  {
    assert ks[0] in ks && forall j :: j in ks[1..] ==> j in ks && j != ks[0];
  }

  /** Keys a parse never adds stay out of its result. */
  lemma {:induction false} KeyNotParsed(g: Set, ks: seq<string>, acc: Set, u: string)
    requires Parsable(g) && u in g && !Survives(u, g[u]) && u !in acc
    requires forall k :: k in ks ==> k in g
    ensures var r := ParseParts(Entries(g, ks), acc); r.Some? ==> u !in r.value
    decreases |ks|
  {
    if ks != [] {
      var k := ks[0];
      EntrySegments(k, g[k]);
      EntryParsed(k, g[k]);
      var (key, ivs) := ParsePart(EntryText(k, g[k])).value;
      assert key != u by {
        if !Survives(k, g[k]) { assert key[|k|] == ':'; assert ':' in key; }
      }
      assert Entries(g, ks)[1..] == Entries(g, ks[1..]);
      KeyNotParsed(g, ks[1..], acc[key := NormalForm(Ranges(acc, key) + ivs)], u);
    }
  }

  lemma PrintedEntries(g: Set, ks: seq<string>)
    requires Parsable(g) && ks != [] && forall k :: k in ks ==> k in g
    ensures Print(g, ks) != [] && Split(Print(g, ks), ',') == Entries(g, ks)
  {
    var es := Entries(g, ks);
    forall i | 0 <= i < |es| ensures ',' !in es[i] { EntrySegments(ks[i], g[ks[i]]); }
    SplitJoin(es, ',');
    assert ks[0] in ks;
    KeyStarts(ks[0]);
    assert ([ks[0]] + IntervalTexts(g[ks[0]]))[0] == ks[0];
    assert es[0] != [] && Split([], ',') == [[]];
  }

  lemma PrintedParsed(g: Set, ks: seq<string>)
    requires Parsable(g) && Once(ks, g.Keys)
    ensures Parse(Print(g, ks)) == ParseParts(Entries(g, ks), map[])
  {
    if ks == [] {
      assert Print(g, ks) == [];
    } else {
      PrintedEntries(g, ks);
    }
  }

  /** Parsing undoes printing exactly when every untagged key has one range,
      whatever order the keys are printed in. */
  lemma GtidRoundTrip(g: Set, ks: seq<string>)
    requires Parsable(g) && Once(ks, g.Keys)
    ensures Parse(Print(g, ks)) == Some(g) <==> forall k :: k in g ==> Survives(k, g[k])
  {
    PrintedParsed(g, ks);
    if forall k :: k in g ==> Survives(k, g[k]) {
      EntriesParsed(g, ks, map[]);
      AddAllFromNothing(g, ks);
    } else {
      var u :| u in g && !Survives(u, g[u]);
      KeyNotParsed(g, ks, map[], u);
    }
  }

  lemma UuidChars(u: string)
    requires ValidUuid(u)
    ensures ':' !in u && ',' !in u
  {
    forall i | 0 <= i < |u| ensures u[i] != ':' && u[i] != ',' { assert u[i] == '-' || IsHex(u[i]); }
  }

  /** Transactions 1 to 5 and 7 of any one server: a text that parses to them, and
      their own text, which does not. */
  lemma GapIsLost(u: string)
    requires ValidUuid(u)
    ensures var g: Set := map[u := [Interval(1, 6), Interval(7, 8)]];
      Parse(u + ":1-5," + u + ":7") == Some(g) && Parsable(g) && Parse(Print(g, [u])) != Some(g)
  {
    var g: Set := map[u := [Interval(1, 6), Interval(7, 8)]];
    UuidChars(u);
    SplitHead(u, [], ':');
    GapParsed(u);
    GtidRoundTrip(g, [u]);
    assert !Survives(u, g[u]);
  }

  lemma GapTexts(u: string)
    ensures EntryText(u, [Interval(1, 6)]) == u + ":1-5" && EntryText(u, [Interval(7, 8)]) == u + ":7"
  {
    assert Format(10, 1) == "1" && Format(10, 5) == "5" && Format(10, 7) == "7";
    OneIntervalText(u, Interval(1, 6));
    OneIntervalText(u, Interval(7, 8));
  }

  lemma OneIntervalText(u: string, iv: Interval)
    requires iv.start < iv.stop
    ensures EntryText(u, [iv]) == u + ":" + IntervalText(iv)
  {
    var texts := [u] + IntervalTexts([iv]);
    assert texts == [u, IntervalText(iv)] && texts[1..] == [IntervalText(iv)];
    assert Join([IntervalText(iv)], ':') == IntervalText(iv);
  }

  lemma GapParsed(u: string)
    requires ValidUuid(u) && GoodKey(u) && !Tagged(u)
    ensures Parse(u + ":1-5," + u + ":7") == Some(map[u := [Interval(1, 6), Interval(7, 8)]])
  {
    var a, b := [Interval(1, 6)], [Interval(7, 8)];
    var parts := [EntryText(u, a), EntryText(u, b)];
    GapSplit(u);
    EntryTaken(parts, u, a, map[]);
    assert parts[1..] == [parts[1]];
    GapAdded(u);
  }

  lemma GapSplit(u: string)
    requires GoodKey(u)
    ensures Split(u + ":1-5," + u + ":7", ',') == [EntryText(u, [Interval(1, 6)]), EntryText(u, [Interval(7, 8)])]
  {
    var first, second := EntryText(u, [Interval(1, 6)]), EntryText(u, [Interval(7, 8)]);
    GapTexts(u);
    EntrySegments(u, [Interval(1, 6)]);
    EntrySegments(u, [Interval(7, 8)]);
    SplitHead(first, second, ',');
    SplitHead(second, [], ',');
    assert u + ":1-5," + u + ":7" == first + [','] + second;
    assert [first] + [second] == [first, second];
  }

  lemma GapAdded(u: string)
    requires GoodKey(u) && !Tagged(u)
    ensures ParseParts([EntryText(u, [Interval(7, 8)])], map[u := [Interval(1, 6)]]) ==
      Some(map[u := [Interval(1, 6), Interval(7, 8)]])
  {
    var b, acc: Set := [Interval(7, 8)], map[u := [Interval(1, 6)]];
    LoneEntryParsed(u, Interval(7, 8));
    OnePart(EntryText(u, b), u, b, acc);
    GapIsNormal();
    assert acc[u := [Interval(1, 6), Interval(7, 8)]] == map[u := [Interval(1, 6), Interval(7, 8)]];
  }

  lemma LoneEntryParsed(u: string, iv: Interval)
    requires GoodKey(u) && Fits(iv)
    ensures ParsePart(TrimSpace(EntryText(u, [iv]))) == Some((u, [iv]))
  {
    EntrySegments(u, [iv]);
    EntryParsed(u, [iv]);
  }

  lemma GapIsNormal()
    ensures NormalForm([Interval(1, 6)] + [Interval(7, 8)]) == [Interval(1, 6), Interval(7, 8)]
  {
    var ivs := [Interval(1, 6), Interval(7, 8)];
    assert [Interval(1, 6)] + [Interval(7, 8)] == ivs;
    NormalFormUnique(ivs, ivs);
  }

  lemma OnePart(part: string, k: string, ivs: seq<Interval>, acc: Set)
    requires ParsePart(TrimSpace(part)) == Some((k, ivs))
    ensures ParseParts([part], acc) == Some(acc[k := NormalForm(Ranges(acc, k) + ivs)])
  {
    assert [part][1..] == [];
  }

  // -------------------------------------------------- what the parser produces

  lemma {:induction false} IntervalsFit(segs: seq<string>)
    requires ParseIntervals(segs).Some?
    ensures AllFit(ParseIntervals(segs).value) && |ParseIntervals(segs).value| == |segs|
    decreases |segs|
  {
    if segs != [] {
      AcceptedIntervalsFit(segs[0]);
      IntervalsFit(segs[1..]);
    }
  }

  lemma PartFits(part: string)
    requires ',' !in part && ParsePart(part).Some?
    ensures var (k, ivs) := ParsePart(part).value; GoodKey(k) && AllFit(ivs) && ivs != []
  {
    var segs := Split(part, ':');
    SplitAvoids(part, ':', ',');
    IntervalsFit(if |segs| >= 3 then segs[2..] else segs[1..]);
    SplitHead(segs[0], segs[1], ':');
    SplitHead(segs[1], [], ':');
  }

  lemma NormalFormFits(ivs: seq<Interval>)
    requires AllFit(ivs)
    ensures AllFit(NormalForm(ivs))
  {
    NormalFormKeeps(ivs);
    var r := NormalForm(ivs);
    forall i | 0 <= i < |r| ensures Fits(r[i]) {
      assert Has(r, r[i].stop - 1);
      assert Has(ivs, r[i].stop - 1);
    }
  }

  lemma PartAdded(acc: Set, k: string, ivs: seq<Interval>)
    requires Parsable(acc) && GoodKey(k) && AllFit(ivs) && ivs != []
    ensures Parsable(acc[k := NormalForm(Ranges(acc, k) + ivs)])
  {
    NormalFormKeeps(Ranges(acc, k) + ivs);
    NormalFormFits(Ranges(acc, k) + ivs);
  }

  /** ParseGTID: splits on commas, and adds each part to its key's ranges. What
      it accepts is well formed and fits 64 bits, so GtidRoundTrip speaks of
      everything it can produce. */
  method ParseGTID(s: string) returns (r: Option<Set>)
    ensures r == Parse(s)
    ensures r.Some? ==> Parsable(r.value)
  {
    var sets: Set := map[];
    if s == [] { return Some(sets); }
    var parts := Split(s, ',');
    var i := 0;
    assert parts[0..] == parts;
    while i < |parts|
      invariant 0 <= i <= |parts| && Parsable(sets)
      invariant ParseParts(parts[i..], sets) == Parse(s)
    {
      assert parts[i..][1..] == parts[i + 1..];
      var next := AddPart(sets, parts[i]);
      if next.None? { return None; }
      sets := next.value;
      i := i + 1;
    }
    r := Some(sets);
  }

  method AddPart(sets: Set, text: string) returns (r: Option<Set>)
    requires Parsable(sets) && ',' !in text
    ensures r == Added(sets, text) && (r.Some? ==> Parsable(r.value))
  {
    var part := TrimSpace(text);
    TrimAvoids(text, ',');
    var parsed := ParsePart(part);
    if parsed.None? { return None; }
    var (k, ivs) := parsed.value;
    PartFits(part);
    PartAdded(sets, k, ivs);
    var merged := NormalizeSeq((if k in sets then sets[k] else []) + ivs);
    NormalFormUnique(Ranges(sets, k) + ivs, merged);
    r := Some(sets[k := merged]);
  }
}

/** Which texts are GTID sets, and which transactions they name. */
module GtidTextMeaning {
  import opened Text
  import opened Gtid
  import opened GtidText

  ghost predicate Digits(s: string) { s != [] && forall i :: 0 <= i < |s| ==> '0' <= s[i] <= '9' }

  lemma DigitsParse(s: string)
    ensures ParseUint(10, TWO_64, s) == if Digits(s) && Value(10, s) < TWO_64 then Some(Value(10, s)) else None
    ensures Digits(s) ==> '-' !in s
  {
    forall i | 0 <= i < |s| ensures DigitValue(s[i]) < 10 <==> '0' <= s[i] <= '9' {}
  }

  /** s is "m-n" for the numbers m and n, cut at i. */
  ghost predicate RangeAt(s: string, i: nat, m: nat, n: nat) {
    && i < |s| && s[i] == '-' && Digits(s[..i]) && Digits(s[i + 1..])
    && Value(10, s[..i]) == m && Value(10, s[i + 1..]) == n
  }

  /** A text is one number or two with a dash between, the second no less than the
      first, and below 2^64 - 1; it means the numbers from the first to the last. */
  ghost predicate Means(s: string, m: nat, n: nat) {
    && m <= n < TWO_64 - 1
    && ((Digits(s) && m == n == Value(10, s)) || exists i: nat :: RangeAt(s, i, m, n))
  }

  lemma RangeSplits(s: string, i: nat, m: nat, n: nat)
    requires RangeAt(s, i, m, n)
    ensures Split(s, '-') == [s[..i], s[i + 1..]]
  {
    DigitsParse(s[..i]);
    DigitsParse(s[i + 1..]);
    assert s == s[..i] + ['-'] + s[i + 1..];
    DashSplits(s[..i], s[i + 1..]);
  }

  lemma TwoPartsAt(s: string)
    requires |Split(s, '-')| == 2
    ensures var p := Split(s, '-'); |p[0]| < |s| && s[|p[0]|] == '-' && s[..|p[0]|] == p[0] && s[|p[0]| + 1..] == p[1]
  {
    var p := Split(s, '-');
    JoinSplit(s, '-');
    assert p == [p[0], p[1]] && p[1..] == [p[1]] && Join([p[1]], '-') == p[1];
    assert s == p[0] + ['-'] + p[1];
  }

  lemma OnePartOnly(s: string)
    requires |Split(s, '-')| == 1
    ensures Split(s, '-') == [s]
  {
    JoinSplit(s, '-');
    var p := Split(s, '-');
    assert p == [p[0]] && Join(p, '-') == p[0];
  }

  /** parseInterval accepts exactly the texts that mean a range, and gives it. */
  lemma IntervalAccepted(s: string, m: nat, n: nat)
    ensures ParseInterval(s) == Some(Interval(m, n + 1)) <==> Means(s, m, n)
  {
    if Means(s, m, n) {
      MeansParses(s, m, n);
    }
    if ParseInterval(s) == Some(Interval(m, n + 1)) {
      ParsedMeans(s, m, n);
    }
  }

  lemma MeansParses(s: string, m: nat, n: nat)
    requires Means(s, m, n)
    ensures ParseInterval(s) == Some(Interval(m, n + 1))
  {
    RangeOfIs(m, n);
    if Digits(s) && m == n == Value(10, s) {
      DigitsParse(s);
      SplitHead(s, [], '-');
    } else {
      var i: nat :| RangeAt(s, i, m, n);
      RangeSplits(s, i, m, n);
      DigitsParse(s[..i]);
      DigitsParse(s[i + 1..]);
    }
  }

  lemma ParsedMeans(s: string, m: nat, n: nat)
    requires ParseInterval(s) == Some(Interval(m, n + 1))
    ensures Means(s, m, n)
  {
    var p := Split(s, '-');
    AcceptedIntervalsFit(s);
    DigitsParse(p[0]);
    DigitsParse(p[|p| - 1]);
    if |p| == 1 {
      OnePartOnly(s);
    } else {
      TwoPartsAt(s);
      assert RangeAt(s, |p[0]|, m, n);
    }
  }

  // ------------------------------------------------------------- whole texts

  ghost predicate Holds(g: Set, k: string, n: nat) { k in g && Has(g[k], n) }

  ghost predicate PartHolds(part: string, k: string, n: nat) {
    var p := ParsePart(TrimSpace(part));
    p.Some? && p.value.0 == k && Has(p.value.1, n)
  }

  ghost predicate SomePartHolds(parts: seq<string>, k: string, n: nat) {
    exists i :: 0 <= i < |parts| && PartHolds(parts[i], k, n)
  }

  ghost predicate AllValid(g: Set) { forall k :: k in g ==> Valid(g[k]) }

  lemma AddedHolds(acc: Set, part: string, k: string, n: nat)
    requires AllValid(acc) && Added(acc, part).Some?
    ensures AllValid(Added(acc, part).value)
    ensures Holds(Added(acc, part).value, k, n) <==> Holds(acc, k, n) || PartHolds(part, k, n)
  {
    var (key, ivs) := ParsePart(TrimSpace(part)).value;
    var segs := Split(TrimSpace(part), ':');
    IntervalsFit(if |segs| >= 3 then segs[2..] else segs[1..]);
    NormalFormKeeps(Ranges(acc, key) + ivs);
    HasEither(Ranges(acc, key), ivs, n);
  }

  lemma HasEither(a: seq<Interval>, b: seq<Interval>, n: nat)
    ensures Has(a + b, n) <==> Has(a, n) || Has(b, n)
  {
    if i :| 0 <= i < |a| && a[i].start <= n < a[i].stop { assert (a + b)[i] == a[i]; }
    if i :| 0 <= i < |b| && b[i].start <= n < b[i].stop { assert (a + b)[|a| + i] == b[i]; }
  }

  lemma {:induction false} PartsHold(parts: seq<string>, acc: Set, k: string, n: nat)
    requires AllValid(acc) && ParseParts(parts, acc).Some?
    ensures Holds(ParseParts(parts, acc).value, k, n) <==> Holds(acc, k, n) || SomePartHolds(parts, k, n)
    decreases |parts|
  {
    if parts != [] {
      AddedHolds(acc, parts[0], k, n);
      PartsHold(parts[1..], Added(acc, parts[0]).value, k, n);
      FirstPart(parts, k, n);
    }
  }

  lemma FirstPart(parts: seq<string>, k: string, n: nat)
    requires parts != []
    ensures SomePartHolds(parts, k, n) <==> PartHolds(parts[0], k, n) || SomePartHolds(parts[1..], k, n)
  {
    var rest := parts[1..];
    if i :| 0 <= i < |rest| && PartHolds(rest[i], k, n) { assert parts[i + 1] == rest[i]; }
    if i :| 0 <= i < |parts| && PartHolds(parts[i], k, n) {
      if i > 0 { assert rest[i - 1] == parts[i]; }
    }
  }

  ghost predicate Parses(part: string) { ParsePart(TrimSpace(part)).Some? }

  ghost predicate AllParse(parts: seq<string>) { forall i :: 0 <= i < |parts| ==> Parses(parts[i]) }

  lemma {:induction false} PartsAccepted(parts: seq<string>, acc: Set)
    ensures ParseParts(parts, acc).Some? <==> AllParse(parts)
    decreases |parts|
  {
    if parts != [] {
      assert forall i :: 1 <= i < |parts| ==> parts[i] == parts[1..][i - 1];
      assert forall i :: 0 <= i < |parts[1..]| ==> parts[1..][i] == parts[i + 1];
      if Added(acc, parts[0]).Some? { PartsAccepted(parts[1..], Added(acc, parts[0]).value); }
    }
  }

  /** A text parses exactly when each of its parts does, and then names a server's
      transaction exactly when one of its parts does: parts with one key add up. */
  lemma ParseAddsUp(s: string, k: string, n: nat)
    ensures s != [] ==> (Parse(s).Some? <==> AllParse(Split(s, ',')))
    ensures s == [] ==> Parse(s) == Some(map[])
    ensures s != [] && Parse(s).Some? ==>
      (Holds(Parse(s).value, k, n) <==> SomePartHolds(Split(s, ','), k, n))
  {
    if s != [] {
      PartsAccepted(Split(s, ','), map[]);
      if Parse(s).Some? { PartsHold(Split(s, ','), map[], k, n); }
    }
  }
}
