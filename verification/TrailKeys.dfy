/** The object keys of a run, which the reader sorts as plain strings
    (internal/eventlog/eventlog_flush.go, read.go). */
module TrailKeys {
  import opened Text

  // ----------------------------------------------------------- %06d, digit by digit

  function Zeros(n: nat): (s: string)
    ensures |s| == n
  {
    if n == 0 then "" else Zeros(n - 1) + "0"
  }

  /** Decimal, padded with zeros to width and longer when it must be. */
  function Padded(width: nat, n: nat): string {
    var s := Format(10, n);
    if |s| < width then Zeros(width - |s|) + s else s
  }

  function Power(w: nat): (r: nat)
    ensures r > 0
  {
    if w == 0 then 1 else 10 * Power(w - 1)
  }

  lemma TenTimes(d: nat, p: nat)
    ensures d * (10 * p) == 10 * (d * p)
  {
  }

  lemma TenthBetween(n: nat, x: nat, y: nat)
    requires 10 * x <= n < 10 * y
    ensures x <= n / 10 < y
  {
  }

  /** The last w decimal digits of n. */
  function Digits(w: nat, n: nat): (s: string)
    ensures |s| == w
  {
    if w == 0 then "" else Digits(w - 1, n / 10) + [DigitChar(n % 10)]
  }

  lemma {:induction false} DigitsOfZero(w: nat)
    ensures Digits(w, 0) == Zeros(w)
  {
    if w > 0 {
      DigitsOfZero(w - 1);
      assert DigitChar(0) == '0';
    }
  }

  /** Below 10^w padding gives exactly w digits. */
  lemma {:induction false} PaddedIsDigits(w: nat, n: nat)
    requires w > 0 && n < Power(w)
    ensures |Format(10, n)| <= w && Padded(w, n) == Digits(w, n)
    decreases w
  {
    if n < 10 {
      DigitsOfZero(w - 1);
      assert Format(10, n) == [DigitChar(n)];
    } else {
      TenthBetween(n, 0, Power(w - 1));
      PaddedIsDigits(w - 1, n / 10);
      PadLonger(Zeros(w - 1 - |Format(10, n / 10)|), Format(10, n / 10), DigitChar(n % 10));
    }
  }

  lemma PadLonger(z: string, s: string, c: char)
    ensures (z + s) + [c] == z + (s + [c])
  {
  }

  lemma DigitsRise(a: nat, b: nat)
    requires a < b < 10
    ensures DigitChar(a) < DigitChar(b)
  {
    DigitCharValue(a);
    DigitCharValue(b);
  }

  lemma {:induction false} DigitsInOrder(w: nat, i: nat, j: nat)
    requires i < j < Power(w)
    ensures LexLess(Digits(w, i), Digits(w, j))
    decreases w
  {
    var a, b := Digits(w - 1, i / 10), Digits(w - 1, j / 10);
    if i / 10 < j / 10 {
      DigitsInOrder(w - 1, i / 10, j / 10);
      LexThenAnything(a, b, [DigitChar(i % 10)], [DigitChar(j % 10)]);
    } else {
      DigitsRise(i % 10, j % 10);
      LexSharedPrefix(a, [DigitChar(i % 10)], [DigitChar(j % 10)]);
    }
  }

  lemma AtLeast(d: nat, p: nat)
    requires d > 0 && p > 0
    ensures d * p >= 1
  {
  }

  /** The first digit of a number of w + 1 digits. */
  lemma {:induction false} FirstDigit(w: nat, n: nat, d: nat)
    requires 0 < d < 10 && d * Power(w) <= n < (d + 1) * Power(w)
    ensures Format(10, n)[0] == DigitChar(d)
    decreases w
  {
    if w == 0 {
      assert n == d;
    } else {
      var p := Power(w - 1);
      TenTimes(d, p);
      TenTimes(d + 1, p);
      TenthBetween(n, d * p, (d + 1) * p);
      FirstDigit(w - 1, n / 10, d);
      AtLeast(d, p);
    }
  }

  // ---------------------------------------------------------------------- the keys

  const LIMIT := 1000000

  const SUFFIX := ".jsonl"

  predicate IsObject(key: string) { |key| >= |SUFFIX| && key[|key| - |SUFFIX|..] == SUFFIX }

  function Key(base: string, n: nat): string { base + ("events-" + (Padded(6, n) + SUFFIX)) }

  lemma KeyIsObject(base: string, n: nat)
    ensures IsObject(Key(base, n))
  {
    var k, front := Key(base, n), base + ("events-" + Padded(6, n));
    assert k == front + SUFFIX;
  }

  lemma SixDigits()
    ensures Power(6) == LIMIT && Power(5) == 100000
  {
    assert Power(3) == 1000;
    assert Power(5) == 100 * Power(3);
  }

  lemma KeysRise(base: string, i: nat, j: nat)
    requires i < j < LIMIT
    ensures LexLess(Key(base, i), Key(base, j))
  {
    SixDigits();
    var w: nat := 6;
    assert i < Power(w) && j < Power(w);
    PaddedIsDigits(w, i);
    PaddedIsDigits(w, j);
    DigitsInOrder(w, i, j);
    KeyOrderIsNumberOrder(base, Padded(6, i), Padded(6, j));
  }

  lemma KeyOrderIsNumberOrder(base: string, a: string, b: string)
    requires |a| == |b| && LexLess(a, b)
    ensures LexLess(base + ("events-" + (a + SUFFIX)), base + ("events-" + (b + SUFFIX)))
  {
    LexThenAnything(a, b, SUFFIX, SUFFIX);
    LexSharedPrefix("events-", a + SUFFIX, b + SUFFIX);
    LexSharedPrefix(base, "events-" + (a + SUFFIX), "events-" + (b + SUFFIX));
  }

  /** The millionth-and-first key sorts before the one written just before it. */
  lemma KeyPastTheLimitSortsFirst(base: string)
    ensures LexLess(Key(base, LIMIT), Key(base, LIMIT - 1))
  {
    SixDigits();
    var w: nat := 6;
    var v: nat := 5;
    FirstDigit(w, LIMIT, 1);
    FirstDigit(v, LIMIT - 1, 9);
    PaddedIsDigits(w, LIMIT - 1);
    var a, b := Padded(6, LIMIT), Padded(6, LIMIT - 1);
    assert b[0] == DigitChar(9) by { LeadingDigit(LIMIT - 1, v); }
    assert a[0] == DigitChar(1) by { LeadingDigit(LIMIT, w); }
    DigitsRise(1, 9);
    assert LexLess(a + SUFFIX, b + SUFFIX);
    LexSharedPrefix("events-", a + SUFFIX, b + SUFFIX);
    LexSharedPrefix(base, "events-" + (a + SUFFIX), "events-" + (b + SUFFIX));
  }

  /** A number of six digits or more is not padded. */
  lemma LeadingDigit(n: nat, v: nat)
    requires v >= 5 && n >= Power(v)
    ensures Padded(6, n)[0] == Format(10, n)[0]
  {
    LongEnough(n, v);
  }

  lemma {:induction false} LongEnough(n: nat, v: nat)
    requires n >= Power(v)
    ensures |Format(10, n)| > v
    decreases v
  {
    if v > 0 {
      assert n >= 10 && n / 10 >= Power(v - 1);
      LongEnough(n / 10, v - 1);
    }
  }

  /** Key order is creation order exactly as long as a run has at most 10^6 objects. */
  lemma CreationOrder(base: string, n: nat)
    ensures (forall i, j :: 0 <= i < j < n ==> LexLess(Key(base, i), Key(base, j))) <==> n <= LIMIT
  {
    if n <= LIMIT {
      forall i, j | 0 <= i < j < n ensures LexLess(Key(base, i), Key(base, j)) { KeysRise(base, i, j); }
    } else {
      KeyPastTheLimitSortsFirst(base);
      LexTrichotomy(Key(base, LIMIT), Key(base, LIMIT - 1));
      assert !LexLess(Key(base, LIMIT - 1), Key(base, LIMIT));
    }
  }
}
