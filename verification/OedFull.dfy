/**
 The first implementation of Octet-Encoded Data: its digit loop, and a decoder that
 consumes the octets it is given.
 */
module OedFull {
  import opened Prelude
  import opened Oed
  import opened OedValue

  /** The sign, the octets and the size in bits of an integer, octet by octet. */
  method EncodeIntegerFields(n: int) returns (negative: bool, natural: seq<Octet>, size: nat)
    ensures negative == (n < 0) && natural == Natural(Magnitude(n)) && size == SizeField(Full, Magnitude(n))
  {
    var integer: nat := Magnitude(n);
    negative, size, natural := n < 0, Significant(integer), [];
    while integer > 0
      invariant natural + Natural(integer) == Natural(Magnitude(n))
    {
      var digit: Octet := integer % 256;
      Associates(natural, [digit], Natural(integer / 256));
      integer := integer / 256;
      natural := natural + [digit];
    }
  }

  method WriteInteger(n: int) returns (octets: seq<Octet>)
    ensures octets == EncodeInteger(Full, n)
    decreases Magnitude(n)
  {
    if -112 <= n <= 127 {
      return [if n < 0 then n + 256 else n];
    }
    var negative, natural, size := EncodeIntegerFields(n);
    SignificantHalf(Magnitude(n));
    var field := WriteInteger(size);
    octets := [if negative then 131 else 130] + field + natural;
  }

  class Decoder {
    var octets: seq<Octet>
    var position: nat

    constructor (octets: seq<Octet>)
      ensures this.octets == octets && position == 0
    {
      this.octets, position := octets, 0;
    }

    /** The octets have been consumed down to the rest. */
    twostate predicate Consumed(rest: seq<Octet>)
      reads this
    {
      octets == rest && |rest| <= |old(octets)| && position == old(position) + |old(octets)| - |rest|
    }

    method Consume(n: nat) returns (ok: bool, data: seq<Octet>)
      modifies this
      ensures ok == Take(old(octets), n).Some?
      ensures ok ==> Take(old(octets), n) == Some(Parsed(data, octets)) && Consumed(old(octets)[n..])
    {
      if |octets| < n { return false, []; }
      position := position + n;
      ok, data := true, octets[..n];
      octets := octets[n..];
    }

    method ConsumeMagnitude() returns (ok: bool, size: nat)
      modifies this
      ensures ok == DecodeMagnitude(old(octets)).Some?
      ensures ok ==> DecodeMagnitude(old(octets)) == Some(Parsed(size, octets)) && Consumed(octets)
      decreases |octets|, 1
    {
      var n;
      ok, n := ConsumeInteger();
      if !ok || n < 0 || n > MaxSafe { return false, 0; }
      size := n;
    }

    method ConsumeInteger() returns (ok: bool, n: int)
      modifies this
      ensures ok == DecodeInteger(old(octets)).Some?
      ensures ok ==> DecodeInteger(old(octets)) == Some(Parsed(n, octets)) && Consumed(octets)
      decreases |octets|, 0
    {
      var data;
      ok, data := Consume(1);
      if !ok { return false, 0; }
      var prefix: int := data[0];
      if prefix <= 127 { return true, prefix; }
      if prefix >= 144 { return true, prefix - 256; }
      if prefix != 130 && prefix != 131 { return false, 0; }
      var size;
      ok, size := ConsumeMagnitude();
      if !ok { return false, 0; }
      ok, data := Consume(Octets(size));
      if !ok { return false, 0; }
      var m := DecodeNatural(data);
      n := if prefix % 2 == 1 then -m else m;
    }

    method ConsumeString() returns (ok: bool, s: Text)
      modifies this
      ensures ok == DecodeText(Full, old(octets)).Some?
      ensures ok ==> DecodeText(Full, old(octets)) == Some(Parsed(s, octets)) && Consumed(octets)
    {
      var length, size, data;
      ok, length := ConsumeMagnitude();
      if !ok { return false, []; }
      if length == 0 { return true, []; }
      ok, size := ConsumeMagnitude();
      if !ok { return false, []; }
      ok, data := Consume(size);
      if !ok { return false, []; }
      var text := DecodeUtf8(data);
      if text.None? || |Unmark(text.value)| != length { return false, []; }
      s := Unmark(text.value);
    }

    method ConsumeRawBlob() returns (ok: bool, data: seq<Octet>)
      modifies this
      ensures ok == DecodeData(old(octets)).Some?
      ensures ok ==> DecodeData(old(octets)) == Some(Parsed(data, octets)) && Consumed(octets)
    {
      var size;
      ok, size := ConsumeMagnitude();
      if !ok { return false, []; }
      ok, data := Consume(size);
    }

    method ConsumeElements(length: nat) returns (ok: bool, elements: seq<Value>)
      modifies this
      ensures ok == DecodeAll(Full, old(octets), length).Some?
      ensures ok ==> DecodeAll(Full, old(octets), length) == Some(Parsed(elements, octets)) && Consumed(octets)
      decreases |octets|, 1
    {
      elements := [];
      PrependNothing(DecodeAll(Full, octets, length));
      var element_nr := 0;
      while element_nr < length
        invariant element_nr <= length && |octets| <= |old(octets)| && Consumed(octets)
        invariant DecodeAll(Full, old(octets), length) ==
                    Prepend(elements, DecodeAll(Full, octets, length - element_nr))
      {
        AllNext(Full, elements, octets, length - element_nr);
        var element;
        ok, element := ConsumeValue();
        if !ok { return false, []; }
        elements := elements + [element];
        element_nr := element_nr + 1;
      }
      assert elements + [] == elements;
      ok := true;
    }

    method ConsumeArray() returns (ok: bool, value: Value)
      modifies this
      ensures ok == DecodeArray(Full, old(octets)).Some?
      ensures ok ==> DecodeArray(Full, old(octets)) == Some(Parsed(value, octets)) && Consumed(octets)
      decreases |octets|, 2
    {
      var length, size, elements;
      ok, length := ConsumeMagnitude();
      if !ok { return false, Null; }
      if length == 0 { return true, Arr([]); }
      ok, size := ConsumeMagnitude();
      if !ok { return false, Null; }
      var elements_position := position;
      ok, elements := ConsumeElements(length);
      if !ok || position - elements_position != size { return false, Null; }
      value := Arr(elements);
    }

    method ConsumeKey() returns (ok: bool, key: Text)
      modifies this
      ensures ok == DecodeKey(Full, old(octets)).Some?
      ensures ok ==> DecodeKey(Full, old(octets)) == Some(Parsed(key, octets)) && Consumed(octets)
      decreases |octets|, 1
    {
      var all, v := octets, Null;
      ok, v := ConsumeValue();
      if !ok { return false, []; }
      key := if v.Str? then v.text else Raw(all[..|all| - |octets|]);
    }

    method ConsumeEntries(length: nat) returns (ok: bool, entries: seq<Entry>)
      modifies this
      ensures ok == DecodeEntries(Full, old(octets), length).Some?
      ensures ok ==> DecodeEntries(Full, old(octets), length) == Some(Parsed(entries, octets)) && Consumed(octets)
      decreases |octets|, 2
    {
      entries := [];
      PrependNothing(DecodeEntries(Full, octets, length));
      var n: nat := length;
      while n > 0
        invariant n <= length && |octets| <= |old(octets)| && Consumed(octets)
        invariant DecodeEntries(Full, old(octets), length) == Prepend(entries, DecodeEntries(Full, octets, n))
      {
        EntriesNext(Full, entries, octets, n);
        var key, value;
        ok, key := ConsumeKey();
        if !ok { return false, []; }
        ok, value := ConsumeValue();
        if !ok { return false, []; }
        entries := entries + [Entry(key, value)];
        n := n - 1;
      }
      assert entries + [] == entries;
      ok := true;
    }

    method ConsumeObject() returns (ok: bool, value: Value)
      modifies this
      ensures ok == DecodeObject(Full, old(octets)).Some?
      ensures ok ==> DecodeObject(Full, old(octets)) == Some(Parsed(value, octets)) && Consumed(octets)
      decreases |octets|, 3
    {
      var length, size, entries;
      ok, length := ConsumeMagnitude();
      if !ok { return false, Null; }
      if length == 0 { return true, Obj([]); }
      ok, size := ConsumeMagnitude();
      if !ok { return false, Null; }
      var entries_position := position;
      ok, entries := ConsumeEntries(length);
      if !ok || position - entries_position != size { return false, Null; }
      value := Obj(PutAll([], entries));
    }

    method ConsumeValue() returns (ok: bool, value: Value)
      modifies this
      ensures ok == DecodeValue(Full, old(octets)).Some?
      ensures ok ==> DecodeValue(Full, old(octets)) == Some(Parsed(value, octets)) && Consumed(octets)
      decreases |octets|, 0
    {
      if |octets| == 0 { return false, Null; }
      var prefix := octets[0];
      if prefix !in {128, 129, 136, 137, 138, 140, 143} {
        var n;
        ok, n := ConsumeInteger();
        return ok, Int(n);
      }
      var data;
      ok, data := Consume(1);
      if prefix == 143 {
        value := Null;
      } else if prefix == 128 || prefix == 129 {
        value := Bool(prefix == 129);
      } else if prefix == 136 {
        ok, value := ConsumeArray();
      } else if prefix == 137 {
        ok, value := ConsumeObject();
      } else if prefix == 138 {
        ok, data := ConsumeRawBlob();
        value := Blob(data);
      } else {
        var s;
        ok, s := ConsumeString();
        value := Str(s);
      }
    }
  }

  method DecodeNatural(o: seq<Octet>) returns (m: int)
    ensures m == NaturalValue(o)
  {
    m := 0;
    var multiplier, i := 1, 0;
    while i < |o|
      invariant 0 <= i <= |o|
      invariant m + multiplier * NaturalValue(o[i..]) == NaturalValue(o)
    {
      assert o[i..][1..] == o[i + 1..];
      assert multiplier * NaturalValue(o[i..]) == multiplier * o[i] + multiplier * 256 * NaturalValue(o[i + 1..]);
      m := m + multiplier * o[i];
      multiplier := multiplier * 256;
      i := i + 1;
    }
  }

  /** Without a position to seek, the octets hold one value and nothing else. */
  method Decode(octets: seq<Octet>, seek: Option<nat>) returns (ok: bool, value: Value)
    ensures seek.None? ==> (ok <==> DecodeValue(Full, octets).Some? && DecodeValue(Full, octets).value.rest == [])
    ensures seek.Some? ==> (ok <==> seek.value <= |octets| && DecodeValue(Full, octets[seek.value..]).Some?)
    ensures ok ==> DecodeValue(Full, if seek.Some? then octets[seek.value..] else octets).value.value == value
  {
    var decoder := new Decoder(octets);
    if seek.Some? {
      var skipped;
      ok, skipped := decoder.Consume(seek.value);
      if !ok { return false, Null; }
      ok, value := decoder.ConsumeValue();
    } else {
      ok, value := decoder.ConsumeValue();
      if ok && |decoder.octets| > 0 { return false, Null; }
    }
  }

  /** What the other implementation decodes of what either has encoded, at a position to seek. */
  method DecodeBack(d: Dialect, v: Value, before: seq<Octet>, after: seq<Octet>) returns (ok: bool, value: Value)
    requires Safe(v) && Proper(v) && |Encode(d, v)| <= MaxSafe
    ensures (ok <==> Clean(v)) && (ok ==> value == v)
  {
    var octets := before + (Encode(d, v) + after);
    assert octets[|before|..] == Encode(d, v) + after;
    RoundTripExactly(d, Full, v, after);
    ok, value := Decode(octets, Some(|before|));
  }
}
