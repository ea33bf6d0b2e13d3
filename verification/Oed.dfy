/**
 Octet-Encoded Data: what values look like in octets, and what octets mean.

 There are two implementations. They differ in the size field of integers, which is exact in
 one and a whole number of octets in the other, in what they check about strings, and in what
 they allow as the key of an object.
 */
module Oed {
  import opened Prelude

  type Octet = x: int | 0 <= x < 256
  type Scalar = x: int | (0 <= x < 0xD800) || (0xE000 <= x < 0x11_0000)
  type Text = seq<Scalar>

  datatype Dialect = Full | Lite

  /** Objects are lists of entries in insertion order. */
  datatype Value =
    | Null | Bool(b: bool) | Int(n: int) | Str(text: Text) | Blob(data: seq<Octet>)
    | Arr(elements: seq<Value>) | Obj(entries: seq<Entry>)
  datatype Entry = Entry(key: Text, value: Value)

  /** A value and the octets after it. */
  datatype Parsed<T> = Parsed(value: T, rest: seq<Octet>)

  const MaxSafe: int := 0x1F_FFFF_FFFF_FFFF

  // ----- UTF-8 -----

  function EncodeScalar(c: Scalar): (r: seq<Octet>)
    ensures 1 <= |r| <= 4
  {
    if c < 0x80 then [c]
    else if c < 0x800 then [0xC0 + c / 0x40, 0x80 + c % 0x40]
    else if c < 0x1_0000 then [0xE0 + c / 0x1000, 0x80 + c / 0x40 % 0x40, 0x80 + c % 0x40]
    else [0xF0 + c / 0x4_0000, 0x80 + c / 0x1000 % 0x40, 0x80 + c / 0x40 % 0x40, 0x80 + c % 0x40]
  }

  function Utf8(s: Text): (r: seq<Octet>)
    ensures |r| >= |s|
  {
    if s == [] then [] else EncodeScalar(s[0]) + Utf8(s[1..])
  }

  predicate Continues(o: seq<Octet>, n: nat) {
    n < |o| && forall i :: 1 <= i <= n ==> o[i] / 0x40 == 2
  }

  /** The first scalar of some octets, in its shortest form. */
  function DecodeScalar(o: seq<Octet>): Option<Parsed<Scalar>>
    requires o != []
  {
    var b0: int := o[0];
    if b0 < 0x80 then Some(Parsed(b0 as Scalar, o[1..]))
    else if 0xC2 <= b0 < 0xE0 && Continues(o, 1) then
      var b1: int := o[1];
      Some(Parsed(((b0 - 0xC0) * 0x40 + b1 % 0x40) as Scalar, o[2..]))
    else if 0xE0 <= b0 < 0xF0 && Continues(o, 2) then
      var b1: int, b2: int := o[1], o[2];
      var c := (b0 - 0xE0) * 0x1000 + b1 % 0x40 * 0x40 + b2 % 0x40;
      if c < 0x800 || 0xD800 <= c < 0xE000 then None else Some(Parsed(c as Scalar, o[3..]))
    else if 0xF0 <= b0 < 0xF5 && Continues(o, 3) then
      var b1: int, b2: int, b3: int := o[1], o[2], o[3];
      var c := (b0 - 0xF0) * 0x4_0000 + b1 % 0x40 * 0x1000 + b2 % 0x40 * 0x40 + b3 % 0x40;
      if c < 0x1_0000 || c >= 0x11_0000 then None else Some(Parsed(c as Scalar, o[4..]))
    else None
  }

  /** The text that octets encode; None if they are malformed. */
  function DecodeUtf8(o: seq<Octet>): Option<Text>
    decreases |o|
  {
    if o == [] then Some([])
    else
      match DecodeScalar(o)
      case None => None
      case Some(Parsed(c, rest)) =>
        match DecodeUtf8(rest)
        case None => None
        case Some(s) => Some([c] + s)
  }

  lemma OneByte(c: Scalar, o: seq<Octet>)
    requires c < 0x80
    ensures DecodeScalar(EncodeScalar(c) + o) == Some(Parsed(c, o))
  {
    assert (EncodeScalar(c) + o)[1..] == o;
  }

  lemma TwoBytes(c: Scalar, o: seq<Octet>)
    requires 0x80 <= c < 0x800
    ensures DecodeScalar(EncodeScalar(c) + o) == Some(Parsed(c, o))
  {
    var e := EncodeScalar(c) + o;
    assert e[2..] == o && e[0] == 0xC0 + c / 0x40 && e[1] == 0x80 + c % 0x40;
  }

  lemma ThreeBytes(c: Scalar, o: seq<Octet>)
    requires 0x800 <= c < 0x1_0000
    ensures DecodeScalar(EncodeScalar(c) + o) == Some(Parsed(c, o))
  {
    var e := EncodeScalar(c) + o;
    assert e[3..] == o && e[0] == 0xE0 + c / 0x1000 && e[1] == 0x80 + c / 0x40 % 0x40 && e[2] == 0x80 + c % 0x40;
    assert c == c / 0x1000 * 0x1000 + c / 0x40 % 0x40 * 0x40 + c % 0x40;
  }

  lemma FourParts(c: int)
    ensures c == c / 0x4_0000 * 0x4_0000 + c / 0x1000 % 0x40 * 0x1000 + c / 0x40 % 0x40 * 0x40 + c % 0x40
  {
    assert c / 0x1000 == c / 0x40 / 0x40 && c / 0x4_0000 == c / 0x1000 / 0x40;
  }

  lemma FourBytes(c: Scalar, o: seq<Octet>)
    requires 0x1_0000 <= c
    ensures DecodeScalar(EncodeScalar(c) + o) == Some(Parsed(c, o))
  {
    var e := EncodeScalar(c) + o;
    assert e[4..] == o && e[0] == 0xF0 + c / 0x4_0000 && e[1] == 0x80 + c / 0x1000 % 0x40;
    assert e[2] == 0x80 + c / 0x40 % 0x40 && e[3] == 0x80 + c % 0x40;
    FourParts(c);
  }

  lemma ScalarRoundTrip(c: Scalar, o: seq<Octet>)
    ensures DecodeScalar(EncodeScalar(c) + o) == Some(Parsed(c, o))
  {
    if c < 0x80 { OneByte(c, o); }
    else if c < 0x800 { TwoBytes(c, o); }
    else if c < 0x1_0000 { ThreeBytes(c, o); }
    else { FourBytes(c, o); }
  }

  lemma {:induction false} Utf8RoundTrip(s: Text)
    ensures DecodeUtf8(Utf8(s)) == Some(s)
  {
    if s != [] {
      ScalarRoundTrip(s[0], Utf8(s[1..]));
      Utf8RoundTrip(s[1..]);
      assert [s[0]] + s[1..] == s;
    }
  }

  lemma TwoStrict(b0: int, b1: int)
    requires 0xC2 <= b0 < 0xE0 && 0x80 <= b1 < 0xC0
    ensures EncodeScalar(((b0 - 0xC0) * 0x40 + b1 % 0x40) as Scalar) == [b0, b1]
  {
  }

  lemma ThreeStrict(b0: int, b1: int, b2: int, c: int)
    requires 0xE0 <= b0 < 0xF0 && 0x80 <= b1 < 0xC0 && 0x80 <= b2 < 0xC0
    requires c == (b0 - 0xE0) * 0x1000 + b1 % 0x40 * 0x40 + b2 % 0x40 && c >= 0x800 && !(0xD800 <= c < 0xE000)
    ensures EncodeScalar(c as Scalar) == [b0, b1, b2]
  {
    assert c / 0x40 == (b0 - 0xE0) * 0x40 + b1 % 0x40;
    assert c / 0x1000 == b0 - 0xE0;
  }

  lemma FourDivided(b0: int, b1: int, b2: int, b3: int, c: int)
    requires 0 <= b1 < 0x40 && 0 <= b2 < 0x40 && 0 <= b3 < 0x40
    requires c == b0 * 0x4_0000 + b1 * 0x1000 + b2 * 0x40 + b3
    ensures c / 0x4_0000 == b0 && c / 0x1000 % 0x40 == b1 && c / 0x40 % 0x40 == b2 && c % 0x40 == b3
  {
    assert c / 0x40 == b0 * 0x1000 + b1 * 0x40 + b2;
    assert c / 0x1000 == b0 * 0x40 + b1;
  }

  lemma FourStrict(b0: int, b1: int, b2: int, b3: int, c: int)
    requires 0xF0 <= b0 < 0xF5 && 0x80 <= b1 < 0xC0 && 0x80 <= b2 < 0xC0 && 0x80 <= b3 < 0xC0
    requires c == (b0 - 0xF0) * 0x4_0000 + b1 % 0x40 * 0x1000 + b2 % 0x40 * 0x40 + b3 % 0x40
    requires 0x1_0000 <= c < 0x11_0000
    ensures EncodeScalar(c as Scalar) == [b0, b1, b2, b3]
  {
    FourDivided(b0 - 0xF0, b1 - 0x80, b2 - 0x80, b3 - 0x80, c);
  }

  lemma ContinuesBetween(o: seq<Octet>, n: nat, i: nat)
    requires Continues(o, n) && 1 <= i <= n
    ensures 0x80 <= o[i] < 0xC0
  {
  }

  lemma ScalarStrict(o: seq<Octet>)
    requires o != [] && DecodeScalar(o).Some?
    ensures var Parsed(c, rest) := DecodeScalar(o).value; o == EncodeScalar(c) + rest
  {
    var b0: int, c := o[0], DecodeScalar(o).value.value;
    if b0 < 0x80 {
      assert o == [o[0]] + o[1..];
    } else if b0 < 0xE0 {
      ContinuesBetween(o, 1, 1);
      TwoStrict(b0, o[1]);
      assert o == [o[0], o[1]] + o[2..];
    } else if b0 < 0xF0 {
      ContinuesBetween(o, 2, 1);
      ContinuesBetween(o, 2, 2);
      ThreeStrict(b0, o[1], o[2], c as int);
      assert o == [o[0], o[1], o[2]] + o[3..];
    } else {
      ContinuesBetween(o, 3, 1);
      ContinuesBetween(o, 3, 2);
      ContinuesBetween(o, 3, 3);
      FourStrict(b0, o[1], o[2], o[3], c as int);
      assert o == [o[0], o[1], o[2], o[3]] + o[4..];
    }
  }

  /** Octets that are not the UTF-8 of a text, shortest forms of scalar values throughout, are malformed. */
  lemma {:induction false} Utf8Strict(o: seq<Octet>)
    requires DecodeUtf8(o).Some?
    ensures Utf8(DecodeUtf8(o).value) == o
    decreases |o|
  {
    if o != [] {
      ScalarStrict(o);
      Utf8Strict(DecodeScalar(o).value.rest);
    }
  }

  // ----- Integers -----

  /** The significant bits of a natural number. */
  function Significant(n: nat): nat { if n == 0 then 0 else 1 + Significant(n / 2) }

  /** Its octets, the least significant first. */
  function Natural(n: nat): seq<Octet> { if n == 0 then [] else [n % 256] + Natural(n / 256) }

  function NaturalValue(o: seq<Octet>): nat { if o == [] then 0 else o[0] + 256 * NaturalValue(o[1..]) }

  function Magnitude(n: int): nat { if n < 0 then -n else n }

  /** How many octets there are for a size in bits. */
  function Octets(size: nat): nat { (size + 7) / 8 }

  function SizeField(d: Dialect, n: nat): nat { if d == Full then Significant(n) else 8 * |Natural(n)| }

  lemma {:induction false} SignificantBound(n: nat, k: nat)
    requires k > 0 && n < Power2(k)
    ensures Significant(n) <= k
    decreases k
  {
    if n > 0 && k > 1 { SignificantBound(n / 2, k - 1); }
  }

  function Power2(k: nat): nat { if k == 0 then 1 else 2 * Power2(k - 1) }

  /** The size in bits is exact: one bit less would not do. */
  lemma {:induction false} SignificantExact(n: nat)
    requires n > 0
    ensures Significant(n) > 0 && Power2(Significant(n) - 1) <= n < Power2(Significant(n))
  {
    if n > 1 {
      SignificantExact(n / 2);
      assert n / 2 * 2 <= n < n / 2 * 2 + 2;
    }
  }

  /** A sufficient bound, so that the size of an integer is an integer of one octet. */
  lemma {:induction false} SignificantLess(n: nat)
    ensures Significant(n) <= n
  {
    if n > 0 { SignificantLess(n / 2); }
  }

  function EncodeInteger(d: Dialect, n: int): (r: seq<Octet>)
    ensures |r| >= 1
    decreases Magnitude(n)
  {
    if 0 <= n <= 127 then [n]
    else if -112 <= n < 0 then [n + 256]
    else
      var m := Magnitude(n);
      SignificantHalf(m);
      [if n < 0 then 131 else 130]
          + (if d == Full then EncodeInteger(d, Significant(m)) else [SizeField(Lite, m) % 256]) + Natural(m)
  }

  lemma SignificantHalf(n: nat)
    requires n > 112
    ensures Significant(n) < n
  {
    SignificantLess(n / 2);
  }

  /** An integer, for a value or a field. */
  function DecodeInteger(o: seq<Octet>): (r: Option<Parsed<int>>)
    ensures r.Some? ==> |r.value.rest| < |o|
    decreases |o|, 0
  {
    if o == [] then None
    else if o[0] <= 127 then Some(Parsed(o[0], o[1..]))
    else if o[0] >= 144 then Some(Parsed((o[0] as int) - 256, o[1..]))
    else if o[0] != 130 && o[0] != 131 then None
    else DecodeSized(o[0] == 131, o[1..])
  }

  /** A size field and the octets that it announces. */
  function DecodeSized(negative: bool, o: seq<Octet>): (r: Option<Parsed<int>>)
    ensures r.Some? ==> |r.value.rest| < |o|
    decreases |o|, 2
  {
    match DecodeMagnitude(o)
    case None => None
    case Some(Parsed(size, rest)) =>
      if |rest| < Octets(size) then None
      else
        var m: int := NaturalValue(rest[..Octets(size)]);
        Some(Parsed(if negative then -m else m, rest[Octets(size)..]))
  }

  /** The value of a size or length field: a natural number in the safe range. */
  function DecodeMagnitude(o: seq<Octet>): (r: Option<Parsed<nat>>)
    ensures r.Some? ==> |r.value.rest| < |o|
    decreases |o|, 1
  {
    match DecodeInteger(o)
    case None => None
    case Some(Parsed(n, rest)) => if 0 <= n <= MaxSafe then (var size: nat := n; Some(Parsed(size, rest))) else None
  }

  lemma {:induction false} NaturalRoundTrip(n: nat)
    ensures NaturalValue(Natural(n)) == n
  {
    if n > 0 {
      NaturalRoundTrip(n / 256);
      assert Natural(n)[1..] == Natural(n / 256);
    }
  }

  lemma {:induction false} EightBits(n: nat)
    ensures n >= 256 ==> Significant(n) == 8 + Significant(n / 256)
    ensures 0 < n < 256 ==> 1 <= Significant(n) <= 8
  {
    if n >= 256 {
      HalvesTo256(n);
    } else if n > 0 {
      assert Power2(4) == 16 && Power2(8) == 256;
      SignificantBound(n, 8);
    }
  }

  lemma HalvesTo256(n: nat)
    requires n >= 256
    ensures Significant(n) == 8 + Significant(n / 256)
  {
    var a := n / 2;
    var b := a / 2;
    var c := b / 2;
    var d := c / 2;
    assert Significant(n) == 1 + Significant(a) && Significant(a) == 1 + Significant(b);
    assert Significant(b) == 1 + Significant(c) && Significant(c) == 1 + Significant(d);
    var e := d / 2;
    var f := e / 2;
    var g := f / 2;
    assert Significant(d) == 1 + Significant(e) && Significant(e) == 1 + Significant(f);
    assert Significant(f) == 1 + Significant(g) && Significant(g) == 1 + Significant(g / 2);
    assert g / 2 == n / 256;
  }

  /** The octets of an integer are as many as either size field says. */
  lemma {:induction false} SizeFits(d: Dialect, n: nat)
    ensures Octets(SizeField(d, n)) == |Natural(n)|
    decreases n
  {
    if n > 0 {
      EightBits(n);
      SizeFits(d, n / 256);
    }
  }

  /** Integers in the safe range have size fields of one octet. */
  lemma {:induction false} NaturalShort(n: nat, k: nat)
    requires n < Power256(k)
    ensures |Natural(n)| <= k
    decreases k
  {
    if n > 0 { NaturalShort(n / 256, k - 1); }
  }

  function Power256(k: nat): nat { if k == 0 then 1 else 256 * Power256(k - 1) }

  /** After the size field come the octets that it announces. */
  lemma DigitsRead(p: Octet, field: seq<Octet>, m: nat, size: nat, o: seq<Octet>)
    requires (p == 130 || p == 131) && size <= MaxSafe && Octets(size) == |Natural(m)|
    requires DecodeMagnitude(field + (Natural(m) + o)) == Some(Parsed(size, Natural(m) + o))
    ensures DecodeInteger(([p] + field + Natural(m)) + o) == Some(Parsed(if p == 131 then -(m as int) else m as int, o))
  {
    var e := ([p] + field + Natural(m)) + o;
    assert e[1..] == field + (Natural(m) + o);
    assert (Natural(m) + o)[..|Natural(m)|] == Natural(m) && (Natural(m) + o)[|Natural(m)|..] == o;
    NaturalRoundTrip(m);
  }

  lemma {:induction false} IntegerRoundTrip(d: Dialect, n: int, o: seq<Octet>)
    requires Magnitude(n) <= MaxSafe
    ensures DecodeInteger(EncodeInteger(d, n) + o) == Some(Parsed(n, o))
    decreases Magnitude(n)
  {
    if -112 <= n <= 127 {
      assert (EncodeInteger(d, n) + o)[1..] == o;
    } else {
      var m := Magnitude(n);
      var size := SizeField(d, m);
      SizeIsRead(d, m, Natural(m) + o);
      SizeFits(d, m);
      DigitsRead(if n < 0 then 131 else 130,
                 if d == Full then EncodeInteger(d, Significant(m)) else [size % 256], m, size, o);
    }
  }

  /** The size field in front of the octets. */
  lemma {:induction false} SizeIsRead(d: Dialect, m: nat, o: seq<Octet>)
    requires 112 < m <= MaxSafe
    ensures var field := if d == Full then EncodeInteger(d, Significant(m)) else [SizeField(d, m) % 256];
            DecodeMagnitude(field + o) == Some(Parsed(SizeField(d, m), o))
    decreases m, 0
  {
    SignificantHalf(m);
    if d == Full {
      IntegerRoundTrip(d, Significant(m), o);
    } else {
      LiteSize(m);
      OneOctetRead(SizeField(d, m), o);
    }
  }

  lemma LiteSize(m: nat)
    requires m <= MaxSafe
    ensures SizeField(Lite, m) <= 56
  {
    assert Power256(7) == 0x100_0000_0000_0000 by { assert Power256(3) == 0x100_0000; }
    NaturalShort(m, 7);
  }

  lemma OneOctetRead(n: nat, o: seq<Octet>)
    requires n <= 127
    ensures DecodeMagnitude([n % 256] + o) == Some(Parsed(n, o))
  {
    assert ([n % 256] + o)[1..] == o;
  }
}
