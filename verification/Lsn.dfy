/** PostgreSQL log sequence numbers (position/lsn.go). */
module Lsn {
  import opened Text

  /** The 64-bit number of two 32-bit halves. */
  function Whole(h: nat, l: nat): nat { h * TWO_32 + l }

  function PrintHalves(h: nat, l: nat): string { Format(16, h) + ['/'] + Format(16, l) }

  /** "%X/%X" of the high and low 32 bits. */
  function Print(n: nat): string { PrintHalves(n / TWO_32, n % TWO_32) }

  /** The high part shifted past the low part, each of at most 32 bits. */
  function Parse(s: string): Option<nat> {
    match Cut(TrimSpace(s), '/')
    case None => None
    case Some((hi, lo)) =>
      match (ParseUint(16, TWO_32, hi), ParseUint(16, TWO_32, lo))
      case (Some(h), Some(l)) => Some(Whole(h, l))
      case _ => None
  }

  function Compare(l: nat, o: nat): int { if l < o then -1 else if l > o then 1 else 0 }

  predicate Contains(l: nat, o: nat) { l >= o }

  ghost predicate HexText(s: string) { s != [] && forall i :: 0 <= i < |s| ==> DigitValue(s[i]) < 16 }

  lemma HexNumeral(n: nat)
    requires n < TWO_32
    ensures HexText(Format(16, n)) && ParseUint(16, TWO_32, Format(16, n)) == Some(n)
  {
    FormatValue(16, n);
  }

  lemma HalvesParsed(a: string, b: string)
    requires HexText(a) && HexText(b)
    ensures TrimSpace(a + ['/'] + b) == a + ['/'] + b && Cut(a + ['/'] + b, '/') == Some((a, b))
  {
    CutHead(a, b, '/');
    TrimNothing(a + ['/'] + b);
  }

  lemma HalvesJoined(a: string, b: string, h: nat, l: nat)
    requires HexText(a) && HexText(b)
    requires ParseUint(16, TWO_32, a) == Some(h) && ParseUint(16, TWO_32, b) == Some(l)
    ensures Parse(a + ['/'] + b) == Some(Whole(h, l))
  {
    HalvesParsed(a, b);
  }

  lemma Halves(n: nat)
    requires n < TWO_64
    ensures n / TWO_32 < TWO_32 && n % TWO_32 < TWO_32 && Whole(n / TWO_32, n % TWO_32) == n
  {
  }

  lemma HalvesRoundTrip(h: nat, l: nat)
    requires h < TWO_32 && l < TWO_32
    ensures Parse(PrintHalves(h, l)) == Some(Whole(h, l))
  {
    HexNumeral(h);
    HexNumeral(l);
    HalvesJoined(Format(16, h), Format(16, l), h, l);
  }

  /** Parsing undoes printing for every 64-bit number. */
  lemma LsnRoundTrip(n: nat)
    requires n < TWO_64
    ensures Parse(Print(n)) == Some(n)
  {
    Halves(n);
    HalvesRoundTrip(n / TWO_32, n % TWO_32);
  }

  /** A text is an LSN exactly when, spaces around it aside, it is two hexadecimal
      numerals of at most 32 bits with a slash between; the first counts for 2^32. */
  lemma LsnReads(s: string, a: string, b: string, n: nat)
    requires TrimSpace(s) == a + ['/'] + b && '/' !in a
    ensures Parse(s) == Some(n) <==>
      && HexText(a) && HexText(b) && Value(16, a) < TWO_32 && Value(16, b) < TWO_32
      && n == Value(16, a) * TWO_32 + Value(16, b)
  {
    CutHead(a, b, '/');
  }

  /** Without a slash it is none. */
  lemma NoSlashNoLsn(s: string)
    requires '/' !in TrimSpace(s)
    ensures Parse(s) == None
  {
    assert Cut(TrimSpace(s), '/') == None;
  }
}
