/** Text forms shared by the position and key formats: numerals in base 10 and
    16, splitting and joining on a separator, and cutting at a separator. */
module Text {

  datatype Option<+T> = None | Some(value: T)

  const TWO_32: nat := 0x1_0000_0000
  const TWO_64: nat := 0x1_0000_0000_0000_0000

  // ---------------------------------------------------------------- numerals

  /** The value of a digit character in base 16; 16 when it is not a digit. */
  function DigitValue(c: char): nat {
    if '0' <= c <= '9' then c as int - '0' as int
    else if 'a' <= c <= 'f' then c as int - 'a' as int + 10
    else if 'A' <= c <= 'F' then c as int - 'A' as int + 10
    else 16
  }

  function DigitChar(d: nat): char
    requires d < 16
  {
    "0123456789ABCDEF"[d]
  }

  /** Upper-case numeral of n, as %d and %X print it. */
  function Format(base: nat, n: nat): (s: string)
    requires 2 <= base <= 16
    ensures s != []
    decreases n
  {
    if n < base then [DigitChar(n)] else Format(base, n / base) + [DigitChar(n % base)]
  }

  predicate AllDigits(base: nat, s: string) {
    forall i :: 0 <= i < |s| ==> DigitValue(s[i]) < base
  }

  function Value(base: nat, s: string): nat {
    if s == [] then 0 else Value(base, s[..|s| - 1]) * base + DigitValue(s[|s| - 1])
  }

  /** strconv.ParseUint: no sign, no empty text, values below limit only. */
  function ParseUint(base: nat, limit: nat, s: string): Option<nat> {
    if s == [] || !AllDigits(base, s) || Value(base, s) >= limit then None else Some(Value(base, s))
  }

  lemma DigitCharValue(d: nat)
    requires d < 16
    ensures DigitValue(DigitChar(d)) == d
  {
    assert d in {0, 1, 2, 3, 4, 5, 6, 7, 8, 9, 10, 11, 12, 13, 14, 15};
  }

  lemma DivMod(n: nat, base: nat)
    requires 2 <= base <= n
    ensures 0 <= n % base < base && 0 <= n / base < n
    ensures n / base * base + n % base == n
  {
  }

  lemma ValueMore(base: nat, s: string, c: char)
    ensures Value(base, s + [c]) == Value(base, s) * base + DigitValue(c)
  {
    assert (s + [c])[..|s|] == s;
  }

  lemma {:induction false} FormatDigits(base: nat, n: nat)
    requires 2 <= base <= 16
    ensures AllDigits(base, Format(base, n))
    decreases n
  {
    if n < base {
      DigitCharValue(n);
    } else {
      DivMod(n, base);
      FormatDigits(base, n / base);
      DigitCharValue(n % base);
    }
  }

  lemma {:induction false} FormatNumber(base: nat, n: nat)
    requires 2 <= base <= 16
    ensures Value(base, Format(base, n)) == n
    decreases n
  {
    if n < base {
      DigitCharValue(n);
      ValueMore(base, [], DigitChar(n));
    } else {
      DivMod(n, base);
      FormatNumber(base, n / base);
      DigitCharValue(n % base);
      ValueMore(base, Format(base, n / base), DigitChar(n % base));
    }
  }

  lemma FormatValue(base: nat, n: nat)
    requires 2 <= base <= 16
    ensures AllDigits(base, Format(base, n)) && Value(base, Format(base, n)) == n
  {
    FormatDigits(base, n);
    FormatNumber(base, n);
  }

  lemma ParseFormat(base: nat, limit: nat, n: nat)
    requires 2 <= base <= 16 && n < limit
    ensures ParseUint(base, limit, Format(base, n)) == Some(n)
  {
    FormatValue(base, n);
  }

  /** Signed decimal, as %d prints it. */
  function FormatInt(i: int): (s: string)
    ensures s != []
  {
    if i < 0 then "-" + Format(10, -i) else Format(10, i)
  }

  /** strconv.ParseInt in base 10: an optional sign, then digits in range. */
  function ParseInt(half: nat, s: string): Option<int> {
    if s == [] then None
    else
      var neg := s[0] == '-';
      var digits := if s[0] == '-' || s[0] == '+' then s[1..] else s;
      match ParseUint(10, 2 * half, digits)
      case None => None
      case Some(u) =>
        if neg then (if u > half then None else Some(0 - u))
        else if u >= half then None else Some(u)
  }

  /** A character that occurs in a printed integer. */
  predicate IntChar(c: char) { '0' <= c <= '9' || c == '-' || c == '+' }

  lemma FormatIntChars(i: int)
    ensures forall j :: 0 <= j < |FormatInt(i)| ==> IntChar(FormatInt(i)[j])
  {
    var m := if i < 0 then -i else i;
    FormatValue(10, m);
    forall j | 0 <= j < |Format(10, m)| ensures IntChar(Format(10, m)[j]) {
      assert DigitValue(Format(10, m)[j]) < 10;
    }
  }

  lemma ParseIntFormat(half: nat, i: int)
    requires 0 - half <= i < half
    ensures ParseInt(half, FormatInt(i)) == Some(i)
  {
    var m: nat := if i < 0 then 0 - i else i;
    ParseFormat(10, 2 * half, m);
    NoSign(m);
    ParseSigned(half, Format(10, m), m);
  }

  lemma ParseSigned(half: nat, digits: string, m: nat)
    requires digits != [] && digits[0] != '-' && digits[0] != '+' && ParseUint(10, 2 * half, digits) == Some(m)
    ensures m < half ==> ParseInt(half, digits) == Some(m)
    ensures m <= half ==> ParseInt(half, "-" + digits) == Some(0 - m)
  {
    assert ("-" + digits)[1..] == digits;
  }

  lemma NoSign(m: nat)
    ensures Format(10, m)[0] != '-' && Format(10, m)[0] != '+'
  {
    FormatValue(10, m);
    assert DigitValue(Format(10, m)[0]) < 10;
  }

  lemma FormatIntInjective(i: int, j: int)
    requires FormatInt(i) == FormatInt(j)
    ensures i == j
  {
    var half: nat := 1 + (if i < 0 then -i else i) + (if j < 0 then -j else j);
    ParseIntFormat(half, i);
    ParseIntFormat(half, j);
  }

  // ------------------------------------------------------- split, join, cut

  /** strings.Split on a one-character separator. */
  function Split(s: string, c: char): (r: seq<string>)
    ensures |r| >= 1
    ensures forall i :: 0 <= i < |r| ==> c !in r[i]
  {
    if s == [] then [[]]
    else
      var rest := Split(s[1..], c);
      if s[0] == c then [[]] + rest else [[s[0]] + rest[0]] + rest[1..]
  }

  function Join(parts: seq<string>, c: char): string {
    if parts == [] then []
    else if |parts| == 1 then parts[0]
    else parts[0] + [c] + Join(parts[1..], c)
  }

  lemma {:induction false} SplitHead(p: string, rest: string, c: char)
    requires c !in p
    ensures Split(p, c) == [p]
    ensures Split(p + [c] + rest, c) == [p] + Split(rest, c)
    decreases |p|
  {
    var s := p + [c] + rest;
    if p == [] {
      assert s[1..] == rest;
    } else {
      SplitHead(p[1..], rest, c);
      assert s[1..] == p[1..] + [c] + rest;
      assert p == [p[0]] + p[1..];
    }
  }

  lemma SplitFirst(first: string, joined: string, rest: seq<string>, c: char)
    requires c !in first && Split(joined, c) == rest
    ensures Split(first + [c] + joined, c) == [first] + rest
  {
    SplitHead(first, joined, c);
  }

  lemma {:induction false} SplitJoin(parts: seq<string>, c: char)
    requires parts != []
    requires forall i :: 0 <= i < |parts| ==> c !in parts[i]
    ensures Split(Join(parts, c), c) == parts
    decreases |parts|
  {
    if |parts| == 1 {
      SplitHead(parts[0], [], c);
    } else {
      SplitJoin(parts[1..], c);
      SplitFirst(parts[0], Join(parts[1..], c), parts[1..], c);
      assert parts == [parts[0]] + parts[1..];
    }
  }

  lemma {:induction false} SplitConcat(a: string, rest: string, c: char)
    ensures Split(a + [c] + rest, c) == Split(a, c) + Split(rest, c)
    decreases |a|
  {
    var s := a + [c] + rest;
    if a == [] {
      assert s[1..] == rest;
    } else {
      assert s[1..] == a[1..] + [c] + rest;
      SplitConcat(a[1..], rest, c);
    }
  }

  lemma {:induction false} JoinSplit(s: string, c: char)
    ensures Join(Split(s, c), c) == s
    decreases |s|
  {
    if s != [] {
      JoinSplit(s[1..], c);
      var rest := Split(s[1..], c);
      if s[0] == c {
        assert ([[]] + rest)[1..] == rest;
      } else {
        assert ([[s[0]] + rest[0]] + rest[1..])[1..] == rest[1..];
      }
    }
  }

  lemma {:induction false} SplitAvoids(s: string, c: char, d: char)
    requires d !in s
    ensures forall i :: 0 <= i < |Split(s, c)| ==> d !in Split(s, c)[i]
    decreases |s|
  {
    if s != [] { SplitAvoids(s[1..], c, d); }
  }

  lemma {:induction false} JoinAvoids(parts: seq<string>, c: char, d: char)
    requires c != d && forall i :: 0 <= i < |parts| ==> d !in parts[i]
    ensures d !in Join(parts, c)
    decreases |parts|
  {
    if |parts| > 1 { JoinAvoids(parts[1..], c, d); }
  }

  /** strings.Cut at the first occurrence of c. */
  function Cut(s: string, c: char): (r: Option<(string, string)>)
    ensures r.None? <==> c !in s
    ensures r.Some? ==> s == r.value.0 + [c] + r.value.1 && c !in r.value.0
  {
    if s == [] then None
    else if s[0] == c then
      assert s == [] + [c] + s[1..];
      Some(([], s[1..]))
    else
      match Cut(s[1..], c)
      case None => None
      case Some(p) =>
        assert s == ([s[0]] + p.0) + [c] + p.1;
        Some(([s[0]] + p.0, p.1))
  }

  lemma {:induction false} CutHead(p: string, rest: string, c: char)
    requires c !in p
    ensures Cut(p + [c] + rest, c) == Some((p, rest))
    decreases |p|
  {
    var s := p + [c] + rest;
    if p == [] {
      assert s[1..] == rest;
    } else {
      assert s[1..] == p[1..] + [c] + rest;
      CutHead(p[1..], rest, c);
      assert p == [p[0]] + p[1..];
    }
  }

  /** Text before the last separator and text after it determine each other. */
  lemma LastSeparator(a: string, b: string, x: string, y: string, c: char)
    requires a + [c] + b == x + [c] + y
    requires c !in b && c !in y
    ensures a == x && b == y
  {
    var s, t := a + [c] + b, x + [c] + y;
    assert s[|a|] == c && t[|x|] == c;
    assert forall i :: |a| < i < |s| ==> s[i] == b[i - |a| - 1] && s[i] != c;
    assert forall i :: |x| < i < |t| ==> t[i] == y[i - |x| - 1] && t[i] != c;
    assert a == s[..|a|] && x == t[..|x|];
    assert b == s[|a| + 1..] && y == t[|x| + 1..];
  }

  // -------------------------------------------------------------- trim space

  /** Unicode's white space: tab to carriage return, the space, and the wider ones. */
  predicate IsSpace(c: char) {
    || '\t' <= c <= '\r' || c == ' ' || c == '\U{85}' || c == '\U{A0}' || c == '\U{1680}'
    || '\U{2000}' <= c <= '\U{200A}' || c == '\U{2028}' || c == '\U{2029}' || c == '\U{202F}'
    || c == '\U{205F}' || c == '\U{3000}'
  }

  function TrimLeft(s: string): string {
    if s != [] && IsSpace(s[0]) then TrimLeft(s[1..]) else s
  }

  function TrimRight(s: string): string {
    if s != [] && IsSpace(s[|s| - 1]) then TrimRight(s[..|s| - 1]) else s
  }

  /** strings.TrimSpace. */
  function TrimSpace(s: string): string { TrimRight(TrimLeft(s)) }

  lemma {:induction false} TrimLeftAvoids(s: string, d: char)
    requires d !in s
    ensures d !in TrimLeft(s)
    decreases |s|
  {
    if s != [] && IsSpace(s[0]) { TrimLeftAvoids(s[1..], d); }
  }

  lemma {:induction false} TrimRightAvoids(s: string, d: char)
    requires d !in s
    ensures d !in TrimRight(s)
    decreases |s|
  {
    if s != [] && IsSpace(s[|s| - 1]) { TrimRightAvoids(s[..|s| - 1], d); }
  }

  lemma TrimAvoids(s: string, d: char)
    requires d !in s
    ensures d !in TrimSpace(s)
  {
    TrimLeftAvoids(s, d);
    TrimRightAvoids(TrimLeft(s), d);
  }

  lemma TrimNothing(s: string)
    requires s != [] && !IsSpace(s[0]) && !IsSpace(s[|s| - 1])
    ensures TrimSpace(s) == s
  {
  }

  // ------------------------------------------------------------------ sequences

  lemma Regroup<T>(a: seq<T>, b: seq<T>, c: seq<T>)
    ensures a + (b + c) == a + b + c
  {
  }

  // --------------------------------------------------------- lexicographic order

  /** Go's byte-wise string order. */
  predicate LexLess(a: string, b: string) {
    b != [] && (a == [] || a[0] < b[0] || (a[0] == b[0] && LexLess(a[1..], b[1..])))
  }

  lemma {:induction false} LexTrichotomy(a: string, b: string)
    ensures LexLess(a, b) || LexLess(b, a) || a == b
    ensures !(LexLess(a, b) && LexLess(b, a)) && !LexLess(a, a)
    decreases |a|
  {
    if a != [] { LexIrreflexive(a); }
    if a != [] && b != [] {
      LexTrichotomy(a[1..], b[1..]);
      if a[0] == b[0] && a[1..] == b[1..] {
        assert a == [a[0]] + a[1..] && b == [b[0]] + b[1..];
      }
    }
  }

  lemma {:induction false} LexIrreflexive(a: string)
    ensures !LexLess(a, a)
    decreases |a|
  {
    if a != [] { LexIrreflexive(a[1..]); }
  }

  lemma {:induction false} LexTransitive(a: string, b: string, c: string)
    requires LexLess(a, b) && LexLess(b, c)
    ensures LexLess(a, c)
    decreases |a|
  {
    if a != [] && a[0] == b[0] && b[0] == c[0] {
      LexTransitive(a[1..], b[1..], c[1..]);
    }
  }

  lemma {:induction false} LexSharedPrefix(p: string, a: string, b: string)
    ensures LexLess(p + a, p + b) <==> LexLess(a, b)
    decreases |p|
  {
    if |p| == 0 {
      assert p + a == a && p + b == b;
    } else {
      LexSharedPrefix(p[1..], a, b);
      assert (p + a)[1..] == p[1..] + a && (p + b)[1..] == p[1..] + b;
    }
  }

  /** Between texts of one length the order is settled before anything after them. */
  lemma {:induction false} LexThenAnything(a: string, b: string, x: string, y: string)
    requires |a| == |b| && LexLess(a, b)
    ensures LexLess(a + x, b + y)
    decreases |a|
  {
    if a[0] == b[0] {
      LexThenAnything(a[1..], b[1..], x, y);
      assert (a + x)[1..] == a[1..] + x && (b + y)[1..] == b[1..] + y;
    }
  }

  /** ks lists the keys of a map once each, in string order: what a sorted
      walk of a Go map visits. */
  ghost predicate SortedKeys(ks: seq<string>, keys: set<string>) {
    && (forall i, j :: 0 <= i < j < |ks| ==> LexLess(ks[i], ks[j]))
    && (forall k :: k in keys <==> k in ks)
  }

  /** A sorted listing of a key set is unique. */
  lemma {:induction false} SortedKeysUnique(ks: seq<string>, ls: seq<string>, keys: set<string>)
    requires SortedKeys(ks, keys) && SortedKeys(ls, keys)
    ensures ks == ls
    decreases |ks|
  {
    BothEmpty(ks, ls, keys);
    if ks != [] {
      SmallestFirst(ks, ls, keys);
      DropFirst(ks, keys);
      DropFirst(ls, keys);
      SortedKeysUnique(ks[1..], ls[1..], keys - {ks[0]});
      assert ks == [ks[0]] + ks[1..] && ls == [ls[0]] + ls[1..];
    }
  }

  lemma BothEmpty(ks: seq<string>, ls: seq<string>, keys: set<string>)
    requires SortedKeys(ks, keys) && SortedKeys(ls, keys)
    ensures ks == [] <==> ls == []
  {
    if ks != [] { assert ks[0] in keys; }
    if ls != [] { assert ls[0] in keys; }
  }

  lemma SmallestFirst(ks: seq<string>, ls: seq<string>, keys: set<string>)
    requires SortedKeys(ks, keys) && SortedKeys(ls, keys)
    requires ks != [] && ls != []
    ensures ks[0] == ls[0]
  {
    assert ks[0] in keys && ls[0] in keys;
    var i :| 0 <= i < |ls| && ls[i] == ks[0];
    var j :| 0 <= j < |ks| && ks[j] == ls[0];
    if i > 0 && j > 0 {
      assert LexLess(ls[0], ls[i]) && LexLess(ks[0], ks[j]);
      LexTrichotomy(ks[0], ls[0]);
    }
  }

  lemma DropFirst(ks: seq<string>, keys: set<string>)
    requires SortedKeys(ks, keys) && ks != []
    ensures SortedKeys(ks[1..], keys - {ks[0]})
  {
    forall k ensures k in keys - {ks[0]} <==> k in ks[1..] {
      if k in ks[1..] {
        var i :| 0 <= i < |ks| - 1 && ks[1..][i] == k;
        assert LexLess(ks[0], ks[i + 1]);
        LexTrichotomy(ks[0], ks[i + 1]);
      }
    }
  }

  /** One more name in its place. */
  method InsertName(names: seq<string>, k: string, ghost listed: set<string>) returns (r: seq<string>)
    requires SortedKeys(names, listed) && k !in listed
    ensures SortedKeys(r, listed + {k})
  {
    var i := 0;
    while i < |names| && LexLess(names[i], k)
      invariant 0 <= i <= |names|
      invariant forall j :: 0 <= j < i ==> LexLess(names[j], k)
    {
      i := i + 1;
    }
    forall j | i <= j < |names| ensures LexLess(k, names[j]) {
      assert names[i] in listed;
      LexTrichotomy(k, names[i]);
      if j > i { LexTransitive(k, names[i], names[j]); }
    }
    r := names[..i] + [k] + names[i..];
    forall n ensures n in listed + {k} <==> n in r {
      assert names == names[..i] + names[i..];
    }
  }

  /** Go's sort.Strings over keys listed once each. */
  method SortStrings(listing: seq<string>, ghost keys: set<string>) returns (r: seq<string>)
    requires Once(listing, keys)
    ensures SortedKeys(r, keys)
  {
    r := [];
    ghost var done: set<string> := {};
    for i := 0 to |listing|
      invariant SortedKeys(r, done) && forall k :: k in done <==> k in listing[..i]
    {
      assert listing[..i + 1] == listing[..i] + [listing[i]];
      assert listing[i] !in listing[..i];
      r := InsertName(r, listing[i], done);
      done := done + {listing[i]};
    }
    assert listing[..|listing|] == listing && done == keys;
  }

  // ------------------------------------------------ walking a map, key by key

  ghost predicate Distinct<X>(xs: seq<X>) { forall i, j :: 0 <= i < j < |xs| ==> xs[i] != xs[j] }

  /** xs lists the keys once each, in some order. */
  ghost predicate Once<X(!new)>(xs: seq<X>, keys: set<X>) {
    Distinct(xs) && forall x :: x in keys <==> x in xs
  }

  /** acc with m's entries for ks put in, one after the other. */
  function AddAll<K, V>(m: map<K, V>, ks: seq<K>, acc: map<K, V>): map<K, V>
    requires forall k :: k in ks ==> k in m
  {
    if ks == [] then acc else AddAll(m, ks[1..], acc[ks[0] := m[ks[0]]])
  }

  lemma {:induction false} AddAllIs<K, V>(m: map<K, V>, ks: seq<K>, acc: map<K, V>, k: K)
    requires forall k :: k in ks ==> k in m
    ensures k in AddAll(m, ks, acc) <==> k in acc || k in ks
    ensures k in AddAll(m, ks, acc) ==> AddAll(m, ks, acc)[k] == if k in ks then m[k] else acc[k]
    decreases |ks|
  {
    if ks != [] { AddAllIs(m, ks[1..], acc[ks[0] := m[ks[0]]], k); }
  }

  /** Putting every entry of a map into an empty one gives the map. */
  lemma AddAllFromNothing<K(!new), V>(m: map<K, V>, ks: seq<K>)
    requires Once(ks, m.Keys)
    ensures AddAll(m, ks, map[]) == m
  {
    var r := AddAll(m, ks, map[]);
    forall k ensures (k in r <==> k in m) && (k in r ==> r[k] == m[k]) { AddAllIs(m, ks, map[], k); }
  }
}
