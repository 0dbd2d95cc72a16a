/** Exact key encoding (internal/columnar/key.go): a type tag and a payload per key
    column, concatenated. */
module Key {
  import opened Text

  type Byte = x: int | 0 <= x < 256

  /** The column types a key may have; Other is any type the encoder refuses. */
  datatype Kind =
    | Int8 | Int16 | Int32 | Int64 | UInt8 | UInt16 | UInt32 | UInt64
    | Float32 | Float64 | Bool | String | Decimal | Date32 | Time64 | Timestamp | Binary
    | Fixed(width: nat)
    | Other

  /** A cell: null, a number (a float by its bit pattern, a decimal unscaled), a
      boolean, or bytes. */
  datatype Value = Null | Num(n: int) | Flag(b: bool) | Bytes(s: seq<Byte>)

  function Tag(k: Kind): Byte {
    match k
    case Int32 => 0x01 case Int64 => 0x02 case UInt64 => 0x03 case Float32 => 0x04
    case Float64 => 0x05 case Bool => 0x06 case String => 0x07 case Decimal => 0x08
    case Date32 => 0x09 case Time64 => 0x0A case Timestamp => 0x0B case Binary => 0x0C
    case Fixed(_) => 0x0D case Int8 => 0x0E case Int16 => 0x0F case UInt8 => 0x10
    case UInt16 => 0x11 case UInt32 => 0x12 case Other => 0
  }

  /** Bytes of a number, and whether it is signed. */
  function Width(k: Kind): nat {
    match k
    case Int8 => 1 case UInt8 => 1 case Int16 => 2 case UInt16 => 2
    case Int32 => 4 case UInt32 => 4 case Float32 => 4 case Date32 => 4
    case Int64 => 8 case UInt64 => 8 case Float64 => 8 case Time64 => 8 case Timestamp => 8
    case Decimal => 16
    case _ => 0
  }

  /** Bytes of the length written before a value of variable length. */
  function LengthWidth(k: Kind): nat {
    match k
    case String => 4 case Binary => 4
    case _ => 0
  }

  predicate Signed(k: Kind) { !(k.UInt8? || k.UInt16? || k.UInt32? || k.UInt64? || k.Float32? || k.Float64?) }

  /** Half of the values w bytes can take. */
  function Half(w: nat): nat { if w <= 1 then 128 else 256 * Half(w - 1) }

  predicate InRange(signed: bool, w: nat, n: int) {
    if signed then 0 - Half(w) <= n < Half(w) else 0 <= n < 2 * Half(w)
  }

  /** A value the column type can hold. */
  predicate Typed(k: Kind, v: Value) {
    match v
    case Null => true
    case Num(n) => Width(k) > 0 && InRange(Signed(k), Width(k), n)
    case Flag(_) => k.Bool?
    case Bytes(s) => k.String? || k.Binary? || (k.Fixed? && |s| == k.width)
  }

  /** Little-endian two's complement in w bytes. */
  function LittleEndian(n: int, w: nat): (r: seq<Byte>)
    ensures |r| == w
    decreases w
  {
    if w == 0 then [] else [n % 256] + LittleEndian(n / 256, w - 1)
  }

  /** One key column's tag and payload; none for a null or an unsupported type.
      The length of a string is written as 32 bits, whatever it is. */
  function Field(k: Kind, v: Value): Option<seq<Byte>>
    requires Typed(k, v)
  {
    if k.Other? then None
    else
      match v
      case Null => None
      case Num(n) => Some([Tag(k)] + LittleEndian(n, Width(k)))
      case Flag(b) => Some([Tag(k), if b then 1 else 0])
      case Bytes(s) =>
        if k.Fixed? then Some([Tag(k)] + s)
        else Some([Tag(k)] + LittleEndian(|s| % TWO_32, LengthWidth(k)) + s)
  }

  /** The fields of a key tuple, one after the other. */
  function Encode(ks: seq<Kind>, vs: seq<Value>): Option<seq<Byte>>
    requires TypedAll(ks, vs)
  {
    if ks == [] then Some([])
    else
      match (Encode(ks[..|ks| - 1], vs[..|vs| - 1]), Field(ks[|ks| - 1], vs[|vs| - 1]))
      case (Some(a), Some(b)) => Some(a + b)
      case _ => None
  }

  predicate TypedAll(ks: seq<Kind>, vs: seq<Value>) {
    |ks| == |vs| && forall i :: 0 <= i < |ks| ==> Typed(ks[i], vs[i])
  }

  /** EncodeKey over a row: the key columns are picked by index, and a missing or
      out-of-range index, a null and an unsupported type are errors. */
  method EncodeKey(ks: seq<Kind>, row: seq<Value>, pkIdxs: seq<int>, nKeys: nat) returns (r: Option<seq<Byte>>)
    requires TypedAll(ks, row)
    ensures r.Some? ==>
      && nKeys <= |pkIdxs| && (forall i :: 0 <= i < nKeys ==> 0 <= pkIdxs[i] < |row|)
      && r == Encode(Picked(ks, pkIdxs[..nKeys]), Picked(row, pkIdxs[..nKeys]))
    ensures r.None? ==>
      || nKeys > |pkIdxs|
      || (exists i :: 0 <= i < nKeys <= |pkIdxs| && !(0 <= pkIdxs[i] < |row|))
      || (exists i ::
            0 <= i < nKeys <= |pkIdxs| && 0 <= pkIdxs[i] < |row| && Field(ks[pkIdxs[i]], row[pkIdxs[i]]).None?)
  {
    var buf: seq<Byte> := [];
    for i := 0 to nKeys
      invariant i <= |pkIdxs| && forall j :: 0 <= j < i ==> 0 <= pkIdxs[j] < |row|
      invariant Encode(Picked(ks, pkIdxs[..i]), Picked(row, pkIdxs[..i])) == Some(buf)
    {
      if i >= |pkIdxs| { return None; }
      var idx := pkIdxs[i];
      if idx < 0 || idx >= |row| { return None; }
      var field := Field(ks[idx], row[idx]);
      if field.None? { return None; }
      PickedOneMore(ks, row, pkIdxs, i, buf, field.value);
      buf := buf + field.value;
    }
    r := Some(buf);
  }

  /** The columns named by idxs. */
  function Picked<X>(xs: seq<X>, idxs: seq<int>): (r: seq<X>)
    requires forall i :: 0 <= i < |idxs| ==> 0 <= idxs[i] < |xs|
    ensures |r| == |idxs| && forall i :: 0 <= i < |r| ==> r[i] == xs[idxs[i]]
  {
    seq(|idxs|, i requires 0 <= i < |idxs| => xs[idxs[i]])
  }

  lemma PickedOneMore(ks: seq<Kind>, row: seq<Value>, idxs: seq<int>, i: nat, buf: seq<Byte>, field: seq<Byte>)
    requires TypedAll(ks, row) && i < |idxs| && forall j :: 0 <= j <= i ==> 0 <= idxs[j] < |row|
    requires Encode(Picked(ks, idxs[..i]), Picked(row, idxs[..i])) == Some(buf)
    requires Field(ks[idxs[i]], row[idxs[i]]) == Some(field)
    ensures Encode(Picked(ks, idxs[..i + 1]), Picked(row, idxs[..i + 1])) == Some(buf + field)
  {
    PickedLast(ks, idxs, i);
    PickedLast(row, idxs, i);
    var k, v := Picked(ks, idxs[..i + 1]), Picked(row, idxs[..i + 1]);
    assert k[..i] == Picked(ks, idxs[..i]) && v[..i] == Picked(row, idxs[..i]);
  }

  lemma PickedLast<X>(xs: seq<X>, idxs: seq<int>, i: nat)
    requires i < |idxs| && forall j :: 0 <= j <= i ==> 0 <= idxs[j] < |xs|
    ensures var p := Picked(xs, idxs[..i + 1]); p[..i] == Picked(xs, idxs[..i]) && p[i] == xs[idxs[i]]
  {
  }

  // ------------------------------------------------------------- injectivity

  lemma {:induction false} LittleEndianInjective(a: int, b: int, w: nat, signed: bool)
    requires w > 0 && InRange(signed, w, a) && InRange(signed, w, b)
    requires LittleEndian(a, w) == LittleEndian(b, w)
    ensures a == b
    decreases w
  {
    var x, y := LittleEndian(a, w), LittleEndian(b, w);
    assert x[0] == y[0] && x[1..] == LittleEndian(a / 256, w - 1) && y[1..] == LittleEndian(b / 256, w - 1);
    if w > 1 { LittleEndianInjective(a / 256, b / 256, w - 1, signed); }
  }

  /** Strings shorter than 4 GiB; longer ones wrap the written length. */
  predicate Short(v: Value) { v.Bytes? ==> |v.s| < TWO_32 }

  lemma FieldLength(k: Kind, v: Value)
    requires Typed(k, v) && Field(k, v).Some? && !k.String? && !k.Binary?
    ensures |Field(k, v).value| == 1 + if k.Bool? then 1 else if k.Fixed? then k.width else Width(k)
  {
  }

  /** A field read off the front of a byte string is one value's only. */
  lemma FieldPrefixFree(k: Kind, v: Value, u: Value, x: seq<Byte>, y: seq<Byte>)
    requires Typed(k, v) && Typed(k, u) && Short(v) && Short(u)
    requires Field(k, v).Some? && Field(k, u).Some?
    requires Field(k, v).value + x == Field(k, u).value + y
    ensures v == u && x == y
  {
    var a, b := Field(k, v).value, Field(k, u).value;
    if k.String? || k.Binary? {
      LengthsAgree(k, v.s, u.s, x, y);
    } else {
      FieldLength(k, v);
      FieldLength(k, u);
    }
    assert |a| == |b|;
    assert a == (a + x)[..|a|] && b == (b + y)[..|a|];
    assert x == (a + x)[|a|..] && y == (b + y)[|a|..];
    if k.String? || k.Binary? {
      assert v.s == a[5..] && u.s == b[5..];
    } else if v.Num? {
      assert a[1..] == LittleEndian(v.n, Width(k)) && b[1..] == LittleEndian(u.n, Width(k));
      LittleEndianInjective(v.n, u.n, Width(k), Signed(k));
    } else if k.Fixed? {
      assert v.s == a[1..] && u.s == b[1..];
    }
  }

  lemma SamePrefix(tag: Byte, a: seq<Byte>, b: seq<Byte>, p: seq<Byte>, q: seq<Byte>)
    requires |a| == |b| && [tag] + a + p == [tag] + b + q
    ensures a == b
  {
    assert ([tag] + a + p)[1..1 + |a|] == a && ([tag] + b + q)[1..1 + |a|] == b;
  }

  lemma LengthInjective(m: nat, n: nat, w: nat)
    requires m < TWO_32 && n < TWO_32 && w == 4
    requires LittleEndian(m % TWO_32, w) == LittleEndian(n % TWO_32, w)
    ensures m == n
  {
    assert m % TWO_32 == m && n % TWO_32 == n;
    HalfOfFour();
    LittleEndianInjective(m, n, w, false);
  }

  lemma HalfOfFour()
    ensures 2 * Half(4) == TWO_32
  {
  }

  lemma LengthsAgree(k: Kind, s: seq<Byte>, t: seq<Byte>, x: seq<Byte>, y: seq<Byte>)
    requires k.String? || k.Binary?
    requires |s| < TWO_32 && |t| < TWO_32
    requires [Tag(k)] + LittleEndian(|s| % TWO_32, LengthWidth(k)) + s + x ==
             [Tag(k)] + LittleEndian(|t| % TWO_32, LengthWidth(k)) + t + y
    ensures |s| == |t|
  {
    var a, b := LittleEndian(|s| % TWO_32, LengthWidth(k)), LittleEndian(|t| % TWO_32, LengthWidth(k));
    Regroup([Tag(k)] + a, s, x);
    Regroup([Tag(k)] + b, t, y);
    SamePrefix(Tag(k), a, b, s + x, t + y);
    LengthInjective(|s|, |t|, LengthWidth(k));
  }

  lemma {:induction false} EncodePrefixFree(ks: seq<Kind>, vs: seq<Value>, us: seq<Value>, x: seq<Byte>, y: seq<Byte>)
    requires TypedAll(ks, vs) && TypedAll(ks, us)
    requires (forall i :: 0 <= i < |vs| ==> Short(vs[i])) && (forall i :: 0 <= i < |us| ==> Short(us[i]))
    requires Encode(ks, vs).Some? && Encode(ks, us).Some?
    requires Encode(ks, vs).value + x == Encode(ks, us).value + y
    ensures vs == us && x == y
    decreases |ks|
  {
    if ks == [] {
      assert [] + x == x && [] + y == y;
    } else {
      var n := |ks| - 1;
      var a, b := Encode(ks[..n], vs[..n]).value, Encode(ks[..n], us[..n]).value;
      var f, g := Field(ks[n], vs[n]).value, Field(ks[n], us[n]).value;
      Regroup(a, f, x);
      Regroup(b, g, y);
      EncodePrefixFree(ks[..n], vs[..n], us[..n], f + x, g + y);
      FieldPrefixFree(ks[n], vs[n], us[n], x, y);
      assert vs == vs[..n] + [vs[n]] && us == us[..n] + [us[n]];
    }
  }

  /** Equal keys exactly when equal tuples, over one list of column types: grouping
      by encoded bytes is grouping by key. */
  lemma EncodeInjective(ks: seq<Kind>, vs: seq<Value>, us: seq<Value>)
    requires TypedAll(ks, vs) && TypedAll(ks, us)
    requires (forall i :: 0 <= i < |vs| ==> Short(vs[i])) && (forall i :: 0 <= i < |us| ==> Short(us[i]))
    requires Encode(ks, vs).Some? && Encode(ks, us).Some?
    ensures Encode(ks, vs) == Encode(ks, us) <==> vs == us
  {
    if Encode(ks, vs) == Encode(ks, us) { EncodePrefixFree(ks, vs, us, [], []); }
  }
}

/** What the encoded bytes tell: the types, and the values they stand for. */
module KeyLayout {
  import opened Text
  import opened Key

  /** Each supported type has a tag of its own. */
  lemma TagTellsKind(k: Kind, j: Kind)
    requires !k.Other? && !j.Other? && Tag(k) == Tag(j)
    ensures k == j || (k.Fixed? && j.Fixed?)
  {
  }

  lemma FieldTellsKind(k: Kind, j: Kind, v: Value, u: Value, x: seq<Byte>, y: seq<Byte>)
    requires Typed(k, v) && Typed(j, u) && Field(k, v).Some? && Field(j, u).Some?
    requires Field(k, v).value + x == Field(j, u).value + y && (k.Fixed? && j.Fixed? ==> k == j)
    ensures k == j
  {
    var a, b := Field(k, v).value, Field(j, u).value;
    assert a[0] == Tag(k) && b[0] == Tag(j) && (a + x)[0] == a[0] && (b + y)[0] == b[0];
    TagTellsKind(k, j);
  }

  /** As many types in both, and fixed columns of one width where both have one. */
  ghost predicate SameFixed(ks: seq<Kind>, js: seq<Kind>) {
    |ks| == |js| && forall i :: 0 <= i < |ks| && ks[i].Fixed? && js[i].Fixed? ==> ks[i] == js[i]
  }

  ghost predicate Encodable(ks: seq<Kind>, vs: seq<Value>) {
    TypedAll(ks, vs) && (forall i :: 0 <= i < |vs| ==> Short(vs[i])) && Encode(ks, vs).Some?
  }

  lemma LastField(ks: seq<Kind>, vs: seq<Value>, x: seq<Byte>)
    requires Encodable(ks, vs) && ks != []
    ensures var n := |ks| - 1;
      && Encodable(ks[..n], vs[..n]) && Typed(ks[n], vs[n]) && Short(vs[n]) && Field(ks[n], vs[n]).Some?
      && Encode(ks, vs).value + x == Encode(ks[..n], vs[..n]).value + (Field(ks[n], vs[n]).value + x)
  {
    var n := |ks| - 1;
    Regroup(Encode(ks[..n], vs[..n]).value, Field(ks[n], vs[n]).value, x);
  }

  /** Keys of different column types never collide, nor does one begin another. */
  lemma {:induction false} TypesCannotCollide(ks: seq<Kind>, js: seq<Kind>, vs: seq<Value>, us: seq<Value>,
                                              x: seq<Byte>, y: seq<Byte>)
    requires Encodable(ks, vs) && Encodable(js, us) && SameFixed(ks, js)
    requires Encode(ks, vs).value + x == Encode(js, us).value + y
    ensures ks == js && x == y
    decreases |ks|
  {
    if ks == [] {
      assert [] + x == x && [] + y == y;
    } else {
      var n := |ks| - 1;
      LastField(ks, vs, x);
      LastField(js, us, y);
      var f, g := Field(ks[n], vs[n]).value, Field(js[n], us[n]).value;
      TypesCannotCollide(ks[..n], js[..n], vs[..n], us[..n], f + x, g + y);
      FieldTellsKind(ks[n], js[n], vs[n], us[n], x, y);
      FieldPrefixFree(ks[n], vs[n], us[n], x, y);
      assert ks == ks[..n] + [ks[n]] && js == js[..n] + [js[n]];
    }
  }

  /** The number bytes stand for, the first byte least. */
  function Unsigned(bytes: seq<Byte>): nat {
    if bytes == [] then 0 else bytes[0] + 256 * Unsigned(bytes[1..])
  }

  /** Written bytes stand for the number, a negative one in two's complement. */
  lemma {:induction false} LittleEndianStandsFor(n: int, w: nat, signed: bool)
    requires w > 0 && InRange(signed, w, n)
    ensures Unsigned(LittleEndian(n, w)) == if n >= 0 then n else n + 2 * Half(w)
    decreases w
  {
    var r := LittleEndian(n, w);
    assert r[1..] == LittleEndian(n / 256, w - 1);
    if w > 1 {
      LittleEndianStandsFor(n / 256, w - 1, signed);
    } else {
      assert r[1..] == [];
    }
  }

  /** What a field holds: its type's tag, then the number, the flag, the bytes, or
      the length of the bytes in four bytes and the bytes. */
  lemma FieldLayout(k: Kind, v: Value)
    requires Typed(k, v) && Short(v) && Field(k, v).Some?
    ensures var f := Field(k, v).value;
      && |f| > 0 && f[0] == Tag(k)
      && (v.Num? ==> Unsigned(f[1..]) == if v.n >= 0 then v.n else v.n + 2 * Half(Width(k)))
      && (v.Flag? ==> f[1..] == [if v.b then 1 else 0])
      && (v.Bytes? && k.Fixed? ==> f[1..] == v.s)
      && (v.Bytes? && !k.Fixed? ==> |f| >= 5 && Unsigned(f[1..5]) == |v.s| && f[5..] == v.s)
  {
    var f := Field(k, v).value;
    match v
    case Num(n) =>
      LittleEndianStandsFor(n, Width(k), Signed(k));
      assert f[1..] == LittleEndian(n, Width(k));
    case Bytes(s) =>
      if k.Fixed? {
        assert f[1..] == s;
      } else {
        HalfOfFour();
        LittleEndianStandsFor(|s|, 4, false);
        assert |s| % TWO_32 == |s|;
        assert f[1..5] == LittleEndian(|s|, 4) && f[5..] == s;
      }
    case _ =>
  }
}
