/**
 The second implementation of Octet-Encoded Data: encoders that write into arrays of the
 final size, and decoders that pass an offset along.
 */
module OedLite {
  import opened Prelude
  import opened Oed
  import opened OedValue

  // ----- Encoding -----

  lemma NaturalStep(n: nat)
    requires n > 0
    ensures Natural(n) == [n % 256] + Natural(n / 256)
    ensures n < 256 ==> Natural(n) == [n]
  {
    if n < 256 { assert Natural(0) == []; }
  }

  /** The octets of a natural number of up to four octets. */
  lemma FourOctets(n: nat)
    requires 0 < n
    ensures n <= 0xFF ==> Natural(n) == [n]
    ensures 0xFF < n <= 0xFFFF ==> Natural(n) == [n % 256, n / 0x100]
    ensures 0xFFFF < n <= 0xFF_FFFF ==> Natural(n) == [n % 256, n / 0x100 % 256, n / 0x1_0000]
    ensures 0xFF_FFFF < n <= 0xFFFF_FFFF ==>
              Natural(n) == [n % 256, n / 0x100 % 256, n / 0x1_0000 % 256, n / 0x100_0000]
  {
    NaturalStep(n);
    if n > 0xFF {
      NaturalStep(n / 256);
      assert n / 256 / 256 == n / 0x1_0000;
      if n > 0xFFFF {
        NaturalStep(n / 0x1_0000);
        assert n / 0x1_0000 / 256 == n / 0x100_0000;
        if n > 0xFF_FFFF { NaturalStep(n / 0x100_0000); }
      }
    }
  }

  lemma SafeDigits(m: nat)
    requires m <= MaxSafe
    ensures 8 * |Natural(m)| <= 56
  {
    assert Power256(3) == 0x100_0000;
    assert Power256(7) == 0x100_0000_0000_0000;
    NaturalShort(m, 7);
  }

  method WriteInteger(n: int) returns (octets: seq<Octet>)
    requires Magnitude(n) <= MaxSafe
    ensures octets == EncodeInteger(Lite, n)
  {
    if -112 <= n <= 127 {
      return [n % 256];
    }
    SafeDigits(Magnitude(n));
    octets := WriteNatural(if n < 0 then 131 else 130, Magnitude(n));
  }

  method WriteNatural(kind: Octet, integer: nat) returns (octets: seq<Octet>)
    requires 0 < integer && 8 * |Natural(integer)| <= 56
    ensures octets == [kind, 8 * |Natural(integer)|] + Natural(integer)
  {
    FourOctets(integer);
    if integer <= 0xFF {
      octets := [kind, 8, integer % 256];
    } else if integer <= 0xFFFF {
      octets := [kind, 16, integer % 256, integer / 0x100 % 256];
    } else if integer <= 0xFF_FFFF {
      octets := [kind, 24, integer % 256, integer / 0x100 % 256, integer / 0x1_0000 % 256];
    } else if integer <= 0xFFFF_FFFF {
      octets := [kind, 32, integer % 256, integer / 0x100 % 256, integer / 0x1_0000 % 256, integer / 0x100_0000 % 256];
    } else {
      var digits := Digits(integer);
      octets := [kind, 8 * |digits|] + digits;
    }
  }

  method Digits(n: nat) returns (digits: seq<Octet>)
    ensures digits == Natural(n)
  {
    digits := [];
    var integer := n;
    while integer > 0
      invariant digits + Natural(integer) == Natural(n)
    {
      var digit: Octet := integer % 256;
      Associates(digits, [digit], Natural(integer / 256));
      digits := digits + [digit];
      integer := integer / 256;
    }
  }

  /** Writes data at an offset; the caller has allocated as much. */
  method Set(octets: array<Octet>, data: seq<Octet>, offset: nat)
    requires offset + |data| <= octets.Length
    modifies octets
    ensures octets[..offset + |data|] == old(octets[..offset]) + data
  {
    var i := 0;
    while i < |data|
      invariant 0 <= i <= |data|
      invariant octets[..offset + i] == old(octets[..offset]) + data[..i]
    {
      octets[offset + i] := data[i];
      i := i + 1;
    }
  }

  /** A prefix, two fields, and as many octets as follow. */
  method Assemble(prefix: Octet, first: seq<Octet>, second: seq<Octet>, parts: seq<seq<Octet>>, size: nat)
    returns (r: seq<Octet>)
    requires size == |Joined(parts)|
    ensures r == [prefix] + (first + (second + Joined(parts)))
  {
    var octets := new Octet[1 + |first| + |second| + size];
    var offset := 0;
    Set(octets, [prefix], offset);
    offset := offset + 1;
    Set(octets, first, offset);
    offset := offset + |first|;
    Set(octets, second, offset);
    offset := offset + |second|;
    var i := 0;
    ghost var header := [prefix] + first + second;
    assert octets[..0] == [];
    assert octets[..offset] == header + Joined(parts[..0]);
    while i < |parts|
      invariant 0 <= i <= |parts| && offset == |header| + |Joined(parts[..i])| <= octets.Length
      invariant octets[..offset] == header + Joined(parts[..i])
    {
      JoinNext(parts, i);
      Set(octets, parts[i], offset);
      offset := offset + |parts[i]|;
      Associates(header, Joined(parts[..i]), parts[i]);
      i := i + 1;
    }
    assert parts[..i] == parts && octets[..offset] == octets[..];
    Nested([prefix], first, second, Joined(parts));
    r := octets[..];
  }

  lemma Nested(a: seq<Octet>, b: seq<Octet>, c: seq<Octet>, d: seq<Octet>)
    ensures a + b + c + d == a + (b + (c + d))
  {
  }

  function Joined(parts: seq<seq<Octet>>): seq<Octet> {
    if parts == [] then [] else parts[0] + Joined(parts[1..])
  }

  lemma {:induction false} JoinLast(parts: seq<seq<Octet>>, last: seq<Octet>)
    ensures Joined(parts + [last]) == Joined(parts) + last
  {
    if parts == [] {
      assert [last][1..] == [] && Joined([]) == [];
      assert [] + [last] == [last] && last + [] == last && [] + last == last;
    } else {
      assert (parts + [last])[0] == parts[0] && (parts + [last])[1..] == parts[1..] + [last];
      JoinLast(parts[1..], last);
      Associates(parts[0], Joined(parts[1..]), last);
    }
  }

  lemma {:induction false} JoinedPrefix(parts: seq<seq<Octet>>, i: nat)
    requires i <= |parts|
    ensures |Joined(parts[..i])| <= |Joined(parts)|
  {
    if i > 0 {
      JoinedPrefix(parts[1..], i - 1);
      assert parts[..i][1..] == parts[1..][..i - 1];
    }
  }

  lemma JoinNext(parts: seq<seq<Octet>>, i: nat)
    requires i < |parts|
    ensures Joined(parts[..i + 1]) == Joined(parts[..i]) + parts[i]
    ensures |Joined(parts[..i])| + |parts[i]| <= |Joined(parts)|
  {
    assert parts[..i + 1] == parts[..i] + [parts[i]];
    JoinLast(parts[..i], parts[i]);
    JoinedPrefix(parts, i + 1);
  }

  method WriteString(s: Text) returns (octets: seq<Octet>)
    requires |EncodeText(Lite, s)| <= MaxSafe
    ensures octets == EncodeText(Lite, s)
  {
    if |s| == 0 { return [140, 0]; }
    var data := Utf8(s);
    var length := WriteInteger(|s|);
    var size := WriteInteger(|data|);
    assert Joined([data][1..]) == [] && Joined([data]) == data + [] == data;
    octets := Assemble(140, length, size, [data], |data|);
  }

  method WriteBlob(blob: seq<Octet>) returns (octets: seq<Octet>)
    requires |Encode(Lite, Blob(blob))| <= MaxSafe
    ensures octets == Encode(Lite, Blob(blob))
  {
    var size := WriteInteger(|blob|);
    assert Joined([blob][1..]) == [] && Joined([blob]) == blob + [] == blob;
    octets := Assemble(138, size, [], [blob], |blob|);
    assert [] + blob == blob;
  }

  method WriteArray(array_: seq<Value>) returns (octets: seq<Octet>)
    requires SafeAll(array_) && |Encode(Lite, Arr(array_))| <= MaxSafe
    ensures octets == Encode(Lite, Arr(array_))
    decreases array_, 1
  {
    if |array_| == 0 { return [136, 0]; }
    var size, elements := WriteElements(array_);
    var length_octets := WriteInteger(|array_|);
    var size_octets := WriteInteger(size);
    octets := Assemble(136, length_octets, size_octets, elements, size);
  }

  method WriteElements(array_: seq<Value>) returns (size: nat, elements: seq<seq<Octet>>)
    requires SafeAll(array_) && |EncodeAll(Lite, array_)| <= MaxSafe
    ensures Joined(elements) == EncodeAll(Lite, array_) && size == |EncodeAll(Lite, array_)|
    decreases array_, 0
  {
    size, elements := 0, [];
    var i := 0;
    assert array_[0..] == array_;
    while i < |array_|
      invariant ElementsWritten(array_, i, size, elements)
    {
      ElementRoom(array_, i, size, elements);
      var element := WriteValue(array_[i]);
      ElementWritten(array_, i, size, elements, element);
      size := size + |element|;
      elements := elements + [element];
      i := i + 1;
    }
  }

  /** What has been written of a list, and that the rest of it can be. */
  ghost predicate ElementsWritten(vs: seq<Value>, i: nat, size: nat, parts: seq<seq<Octet>>) {
    && i <= |vs| && SafeAll(vs[i..]) && size == |Joined(parts)|
    && Joined(parts) + EncodeAll(Lite, vs[i..]) == EncodeAll(Lite, vs)
  }

  lemma ElementRoom(vs: seq<Value>, i: nat, size: nat, parts: seq<seq<Octet>>)
    requires i < |vs| && ElementsWritten(vs, i, size, parts)
    ensures Safe(vs[i]) && |Encode(Lite, vs[i])| <= |EncodeAll(Lite, vs)|
  {
    assert vs[i..][0] == vs[i];
  }

  lemma ElementWritten(vs: seq<Value>, i: nat, size: nat, parts: seq<seq<Octet>>, element: seq<Octet>)
    requires i < |vs| && ElementsWritten(vs, i, size, parts) && element == Encode(Lite, vs[i])
    ensures ElementsWritten(vs, i + 1, size + |element|, parts + [element])
  {
    assert vs[i..][0] == vs[i] && vs[i..][1..] == vs[i + 1..];
    JoinLast(parts, element);
    Associates(Joined(parts), element, EncodeAll(Lite, vs[i + 1..]));
  }

  method WriteObject(object_: seq<Entry>) returns (octets: seq<Octet>)
    requires SafeEntries(object_) && |Encode(Lite, Obj(object_))| <= MaxSafe
    ensures octets == Encode(Lite, Obj(object_))
    decreases object_, 1
  {
    if |object_| == 0 { return [137, 0]; }
    var size, members := WriteMembers(object_);
    FieldsFit(137, |object_|, EncodeEntries(Lite, object_));
    assert |members| / 2 == |object_|;
    var length_octets := WriteInteger(|members| / 2);
    var size_octets := WriteInteger(size);
    octets := Assemble(137, length_octets, size_octets, members, size);
  }

  /** The fields of what can be encoded are numbers that can be. */
  lemma FieldsFit(prefix: Octet, length: nat, body: seq<Octet>)
    requires length > 0 && length <= |body| && |EncodeMany(Lite, prefix, length, body)| <= MaxSafe
    ensures Magnitude(length) <= MaxSafe && Magnitude(|body|) <= MaxSafe
  {
  }

  lemma MembersNext(es: seq<Entry>, i: nat)
    requires i < |es| && SafeEntries(es[i..])
    ensures Safe(es[i].value) && SafeEntries(es[i + 1..])
    ensures EncodeEntries(Lite, es[i..]) ==
              EncodeText(Lite, es[i].key) + (Encode(Lite, es[i].value) + EncodeEntries(Lite, es[i + 1..]))
  {
    assert es[i..][0] == es[i] && es[i..][1..] == es[i + 1..];
  }

  method WriteMembers(object_: seq<Entry>) returns (size: nat, members: seq<seq<Octet>>)
    requires SafeEntries(object_) && |EncodeEntries(Lite, object_)| <= MaxSafe
    ensures Joined(members) == EncodeEntries(Lite, object_) && size == |EncodeEntries(Lite, object_)|
    ensures |members| == 2 * |object_|
    decreases object_, 0
  {
    size, members := 0, [];
    var i := 0;
    assert object_[0..] == object_;
    while i < |object_|
      invariant MembersWritten(object_, i, size, members)
    {
      MemberRoom(object_, i, size, members);
      var value := WriteValue(object_[i].value);
      var key := WriteString(object_[i].key);
      MemberWritten(object_, i, size, members, key, value);
      members := members + [key] + [value];
      size := size + |key| + |value|;
      i := i + 1;
    }
  }

  ghost predicate MembersWritten(es: seq<Entry>, i: nat, size: nat, parts: seq<seq<Octet>>) {
    && i <= |es| && SafeEntries(es[i..]) && size == |Joined(parts)| && |parts| == 2 * i
    && Joined(parts) + EncodeEntries(Lite, es[i..]) == EncodeEntries(Lite, es)
  }

  lemma MemberRoom(es: seq<Entry>, i: nat, size: nat, parts: seq<seq<Octet>>)
    requires i < |es| && MembersWritten(es, i, size, parts)
    ensures Safe(es[i].value) && |Encode(Lite, es[i].value)| <= |EncodeEntries(Lite, es)|
    ensures |EncodeText(Lite, es[i].key)| <= |EncodeEntries(Lite, es)|
  {
    MembersNext(es, i);
  }

  lemma MemberWritten(es: seq<Entry>, i: nat, size: nat, parts: seq<seq<Octet>>, key: seq<Octet>, value: seq<Octet>)
    requires i < |es| && MembersWritten(es, i, size, parts)
    requires key == EncodeText(Lite, es[i].key) && value == Encode(Lite, es[i].value)
    ensures MembersWritten(es, i + 1, size + |key| + |value|, parts + [key] + [value])
  {
    MembersNext(es, i);
    JoinLast(parts, key);
    JoinLast(parts + [key], value);
    Nested(Joined(parts), key, value, EncodeEntries(Lite, es[i + 1..]));
  }

  method WriteValue(value: Value) returns (octets: seq<Octet>)
    requires Safe(value) && |Encode(Lite, value)| <= MaxSafe
    ensures octets == Encode(Lite, value)
    decreases value, 2
  {
    match value
    case Int(n) => octets := WriteInteger(n);
    case Str(s) => octets := WriteString(s);
    case Null => octets := [143];
    case Bool(b) => octets := [if b then 129 else 128];
    case Arr(vs) => octets := WriteArray(vs);
    case Blob(data) => octets := WriteBlob(data);
    case Obj(es) => octets := WriteObject(es);
  }

  // ----- Decoding -----

  function From(octets: seq<Octet>, offset: nat): seq<Octet> { if offset <= |octets| then octets[offset..] else [] }

  /** If the octets from an offset on mean something, that has been found, and the next offset is where it ends. */
  ghost predicate Finds<T>(octets: seq<Octet>, o: Option<Parsed<T>>, ok: bool, value: T, next: nat) {
    o.Some? ==> ok && next <= |octets| && o.value == Parsed(value, octets[next..])
  }

  function Remaining(octets: seq<Octet>, offset: nat): nat { if offset < |octets| then |octets| - offset else 0 }

  lemma Onward(octets: seq<Octet>, offset: nat)
    requires offset < |octets|
    ensures From(octets, offset)[0] == octets[offset] && From(octets, offset)[1..] == From(octets, offset + 1)
  {
  }

  /** What is left after taking octets from an offset on. */
  lemma TakeOnward(octets: seq<Octet>, offset: nat, n: nat)
    ensures offset + n <= |octets| ==>
              Take(From(octets, offset), n) == Some(Parsed(octets[offset..offset + n], From(octets, offset + n)))
    ensures offset + n > |octets| && n > 0 ==> Take(From(octets, offset), n) == None
  {
    if offset + n <= |octets| {
      assert From(octets, offset)[..n] == octets[offset..offset + n];
      assert From(octets, offset)[n..] == octets[offset + n..];
    }
  }

  method ReadNatural(octets: seq<Octet>, offset: nat) returns (ok: bool, size: nat, next: nat)
    ensures ok ==> offset < next && offset < |octets|
    ensures Finds(octets, DecodeMagnitude(From(octets, offset)), ok, size, next)
    decreases Remaining(octets, offset), 1
  {
    var n;
    ok, n, next := ReadNumber(octets, offset);
    if !ok || n > MaxSafe || n < 0 { return false, 0, next; }
    size := n;
  }

  /** Decimals and rationals are not part of this model, nor is what comes of octets that are missing. */
  method ReadNumber(octets: seq<Octet>, offset: nat) returns (ok: bool, n: int, next: nat)
    ensures ok ==> offset < next && offset < |octets|
    ensures Finds(octets, DecodeInteger(From(octets, offset)), ok, n, next)
    decreases Remaining(octets, offset), 0
  {
    if offset >= |octets| { return false, 0, offset; }
    Onward(octets, offset);
    var prefix: int := octets[offset];
    next := offset + 1;
    if prefix <= 0x7F { return true, prefix, next; }
    if prefix >= 0x90 { return true, prefix - 256, next; }
    if prefix != 130 && prefix != 131 { return false, 0, next; }
    ok, n, next := ReadSized(octets, next, prefix == 131);
  }

  method ReadSized(octets: seq<Octet>, offset: nat, negative: bool) returns (ok: bool, n: int, next: nat)
    ensures ok ==> offset < next && offset < |octets|
    ensures Finds(octets, DecodeSized(negative, From(octets, offset)), ok, n, next)
    decreases Remaining(octets, offset), 2
  {
    var size;
    n := 0;
    ok, size, next := ReadNatural(octets, offset);
    if !ok { return; }
    ghost var middle := next;
    var value;
    ok, value, next := ReadDigits(octets, next, size);
    n := if negative then -value else value;
    SizedFound(octets, offset, negative, size, middle, ok, value, next);
  }

  lemma SizedFound(octets: seq<Octet>, offset: nat, negative: bool, size: nat, middle: nat, ok: bool, value: int,
                   next: nat)
    requires Finds(octets, DecodeMagnitude(From(octets, offset)), true, size, middle)
    requires ok <==> size == 0 || middle + Octets(size) <= |octets|
    requires ok ==> next == middle + Octets(size) && value == NaturalValue(Slice(octets, middle, next))
    ensures Finds(octets, DecodeSized(negative, From(octets, offset)), ok, if negative then -value else value, next)
  {
    if DecodeMagnitude(From(octets, offset)).Some? { TakeOnward(octets, middle, Octets(size)); }
  }

  method ReadDigits(octets: seq<Octet>, offset: nat, size: nat) returns (ok: bool, value: int, next: nat)
    ensures ok <==> size == 0 || offset + Octets(size) <= |octets|
    ensures ok ==> next == offset + Octets(size) && value == NaturalValue(Slice(octets, offset, next))
  {
    ghost var end := offset + Octets(size);
    var bits: int, scale: int := size, 1;
    value, next := 0, offset;
    while bits > 0
      invariant -8 < bits && offset <= next <= end && bits == size - 8 * (next - offset)
      invariant if next > offset then next <= |octets| else value == 0
      invariant end <= |octets| ==> value + scale * NaturalValue(octets[next..end]) == NaturalValue(octets[offset..end])
      decreases bits
    {
      if next >= |octets| { return false, 0, next; }
      if end <= |octets| { DigitNext(octets, next, end, scale); }
      value := value + scale * octets[next];
      next := next + 1;
      scale := scale * 256;
      bits := bits - 8;
    }
    assert next == end && (end <= |octets| ==> octets[next..end] == []);
    ok := true;
  }

  function Slice(octets: seq<Octet>, i: nat, j: nat): seq<Octet> { if i <= j <= |octets| then octets[i..j] else [] }

  lemma DigitNext(octets: seq<Octet>, i: nat, end: nat, scale: int)
    requires i < end <= |octets|
    ensures scale * NaturalValue(octets[i..end]) == scale * octets[i] + (scale * 256) * NaturalValue(octets[i + 1..end])
  {
    assert octets[i..end][1..] == octets[i + 1..end];
    var x: int, y: int := octets[i], NaturalValue(octets[i + 1..end]);
    assert scale * (x + 256 * y) == scale * x + (scale * 256) * y;
  }

  /** A shortened or malformed text, which is not refused, is outside this model. */
  method ReadString(octets: seq<Octet>, offset: nat) returns (ok: bool, value: Text, next: nat)
    requires offset < |octets| && octets[offset] == 140
    ensures ok ==> offset < next
    ensures Finds(octets, DecodeText(Lite, From(octets, offset + 1)), ok, value, next)
  {
    var length, size;
    ok, length, next := ReadNatural(octets, offset + 1);
    if !ok { return false, [], next; }
    if length == 0 { return true, [], next; }
    ok, size, next := ReadNatural(octets, next);
    if !ok { return false, [], next; }
    TakeOnward(octets, next, size);
    var data := Slice(octets, next, next + size);
    var text := DecodeUtf8(data);
    if text.None? { return false, [], next; }
    value, next := Unmark(text.value), next + size;
  }

  method ReadBlob(octets: seq<Octet>, offset: nat) returns (ok: bool, value: seq<Octet>, next: nat)
    requires offset < |octets| && octets[offset] == 138
    ensures ok ==> offset < next
    ensures Finds(octets, DecodeData(From(octets, offset + 1)), ok, value, next)
  {
    var size;
    ok, size, next := ReadNatural(octets, offset + 1);
    if !ok { return false, [], next; }
    TakeOnward(octets, next, size);
    if next + size > |octets| { return false, [], next; }
    value := octets[next..next + size];
    next := next + size;
  }

  method ReadKey(octets: seq<Octet>, offset: nat) returns (ok: bool, key: Text, next: nat)
    ensures ok ==> offset < next
    ensures Finds(octets, DecodeKey(Lite, From(octets, offset)), ok, key, next)
  {
    if offset >= |octets| { return false, [], offset; }
    Onward(octets, offset);
    StringKey(From(octets, offset));
    if octets[offset] == 140 {
      ok, key, next := ReadString(octets, offset);
    } else if octets[offset] == 138 {
      var blob;
      ok, blob, next := ReadBlob(octets, offset);
      key := Raw(blob);
    } else {
      OtherKey(From(octets, offset));
      ok, key, next := false, [], offset;
    }
  }

  lemma ArrayKind(o: seq<Octet>)
    ensures DecodeArray(Lite, o).Some? ==> DecodeArray(Lite, o).value.value.Arr?
    ensures DecodeObject(Lite, o).Some? ==> DecodeObject(Lite, o).value.value.Obj?
  {
  }

  lemma StringKey(o: seq<Octet>)
    requires o != []
    ensures o[0] == 140 ==> DecodeKey(Lite, o) == DecodeText(Lite, o[1..])
    ensures o[0] == 138 ==>
              DecodeKey(Lite, o) ==
              match DecodeData(o[1..])
              case None => None
              case Some(Parsed(data, rest)) => Some(Parsed(Raw(data), rest))
  {
  }

  /** What is not a string or a blob is not a key. */
  lemma OtherKey(o: seq<Octet>)
    requires o != [] && o[0] != 140 && o[0] != 138
    ensures DecodeKey(Lite, o) == None
  {
    ArrayKind(o[1..]);
    var v := DecodeValue(Lite, o);
    assert v.Some? ==> !v.value.value.Str? && !v.value.value.Blob?;
  }

  method ReadArray(octets: seq<Octet>, offset: nat) returns (ok: bool, value: Value, next: nat)
    requires offset < |octets| && octets[offset] == 136
    ensures ok ==> offset < next
    ensures Finds(octets, DecodeArray(Lite, From(octets, offset + 1)), ok, value, next)
    decreases Remaining(octets, offset), 0
  {
    var length, size, elements;
    ok, length, next := ReadNatural(octets, offset + 1);
    if !ok { return false, Null, next; }
    if length == 0 { return true, Arr([]), next; }
    ok, size, next := ReadNatural(octets, next);
    if !ok { return false, Null, next; }
    var start := next;
    ok, elements, next := ReadElements(octets, start, length);
    if !ok || next != start + size { return false, Null, next; }
    value := Arr(elements);
  }

  /** What is still to be found of a list, if it is there. */
  ghost predicate Along<T>(octets: seq<Octet>, goal: Option<Parsed<seq<T>>>, first: seq<T>,
                           rest: Option<Parsed<seq<T>>>, next: nat) {
    goal.Some? ==> next <= |octets| && goal == Prepend(first, rest)
  }

  predicate Left(n: nat) { true }

  /** So many elements are still to be found. Only where a proof asks how many are left is it known what that means. */
  ghost predicate ElementsLeft(octets: seq<Octet>, goal: Option<Parsed<seq<Value>>>, first: seq<Value>, n: nat,
                               next: nat) {
    forall k: nat {:trigger Left(k)} ::
      Left(k) && k == n ==> Along(octets, goal, first, DecodeAll(Lite, From(octets, next), k), next)
  }

  lemma ElementsStart(octets: seq<Octet>, offset: nat, n: nat) returns (goal: Option<Parsed<seq<Value>>>)
    ensures goal == (if offset <= |octets| then DecodeAll(Lite, octets[offset..], n) else None)
    ensures ElementsLeft(octets, goal, [], n, offset)
  {
    goal := if offset <= |octets| then DecodeAll(Lite, octets[offset..], n) else None;
    PrependNothing(goal);
  }

  lemma ElementFound(octets: seq<Octet>, goal: Option<Parsed<seq<Value>>>, first: seq<Value>, at: nat, n: nat,
                     ok: bool, v: Value, next: nat)
    requires n > 0 && ElementsLeft(octets, goal, first, n, at)
    requires Finds(octets, DecodeValue(Lite, From(octets, at)), ok, v, next)
    ensures goal.Some? ==> ok
    ensures ElementsLeft(octets, goal, first + [v], n - 1, next)
  {
    assert Left(n);
    AllNext(Lite, first, From(octets, at), n);
  }

  lemma ElementsEnd(octets: seq<Octet>, goal: Option<Parsed<seq<Value>>>, elements: seq<Value>, next: nat)
    requires ElementsLeft(octets, goal, elements, 0, next)
    ensures Finds(octets, goal, true, elements, next)
  {
    assert Left(0);
    assert elements + [] == elements;
  }

  method ReadElements(octets: seq<Octet>, offset: nat, length: nat) returns (ok: bool, elements: seq<Value>, next: nat)
    ensures ok ==> offset <= next
    ensures offset <= |octets| ==> Finds(octets, DecodeAll(Lite, octets[offset..], length), ok, elements, next)
    decreases Remaining(octets, offset), 3
  {
    elements, next := [], offset;
    var index := 0;
    ghost var goal := ElementsStart(octets, offset, length);
    while index < length
      invariant index <= length && offset <= next
      invariant ElementsLeft(octets, goal, elements, length - index, next)
    {
      var element;
      ghost var at := next;
      ok, element, next := ReadValue(octets, next);
      ElementFound(octets, goal, elements, at, length - index, ok, element, next);
      if !ok { return false, [], next; }
      elements := elements + [element];
      index := index + 1;
    }
    ElementsEnd(octets, goal, elements, next);
    ok := true;
  }

  method ReadObject(octets: seq<Octet>, offset: nat) returns (ok: bool, value: Value, next: nat)
    requires offset < |octets| && octets[offset] == 137
    ensures ok ==> offset < next
    ensures Finds(octets, DecodeObject(Lite, From(octets, offset + 1)), ok, value, next)
    decreases Remaining(octets, offset), 0
  {
    var length, size, entries;
    ok, length, next := ReadNatural(octets, offset + 1);
    if !ok { return false, Null, next; }
    if length == 0 { return true, Obj([]), next; }
    ok, size, next := ReadNatural(octets, next);
    if !ok { return false, Null, next; }
    var start := next;
    ok, entries, next := ReadMembers(octets, start, length);
    if !ok || next != start + size { return false, Null, next; }
    value := Obj(PutAll([], entries));
  }

  ghost predicate MembersLeft(octets: seq<Octet>, goal: Option<Parsed<seq<Entry>>>, first: seq<Entry>, n: nat,
                              next: nat) {
    forall k: nat {:trigger Left(k)} ::
      Left(k) && k == n ==> Along(octets, goal, first, DecodeEntries(Lite, From(octets, next), k), next)
  }

  lemma MembersStart(octets: seq<Octet>, offset: nat, n: nat) returns (goal: Option<Parsed<seq<Entry>>>)
    ensures goal == (if offset <= |octets| then DecodeEntries(Lite, octets[offset..], n) else None)
    ensures MembersLeft(octets, goal, [], n, offset)
  {
    goal := if offset <= |octets| then DecodeEntries(Lite, octets[offset..], n) else None;
    PrependNothing(goal);
  }

  lemma MemberFound(octets: seq<Octet>, goal: Option<Parsed<seq<Entry>>>, first: seq<Entry>, at: nat, n: nat,
                    key: Text, middle: nat, ok: bool, v: Value, next: nat)
    requires n > 0 && MembersLeft(octets, goal, first, n, at)
    requires Finds(octets, DecodeKey(Lite, From(octets, at)), true, key, middle)
    requires Finds(octets, DecodeValue(Lite, From(octets, middle)), ok, v, next)
    ensures goal.Some? ==> ok
    ensures MembersLeft(octets, goal, first + [Entry(key, v)], n - 1, next)
  {
    assert Left(n);
    if goal.Some? { MemberAlong(octets, goal, first, at, n, key, middle, ok, v, next); }
  }

  lemma MemberAlong(octets: seq<Octet>, goal: Option<Parsed<seq<Entry>>>, first: seq<Entry>, at: nat, n: nat,
                    key: Text, middle: nat, ok: bool, v: Value, next: nat)
    requires n > 0 && goal.Some? && goal == Prepend(first, DecodeEntries(Lite, From(octets, at), n))
    requires Finds(octets, DecodeKey(Lite, From(octets, at)), true, key, middle)
    requires Finds(octets, DecodeValue(Lite, From(octets, middle)), ok, v, next)
    ensures ok && next <= |octets|
    ensures goal == Prepend(first + [Entry(key, v)], DecodeEntries(Lite, From(octets, next), n - 1))
  {
    EntriesNext(Lite, first, From(octets, at), n);
    var k := DecodeKey(Lite, From(octets, at));
    assert k.Some? && k.value == Parsed(key, From(octets, middle));
  }

  lemma NoMember(octets: seq<Octet>, goal: Option<Parsed<seq<Entry>>>, first: seq<Entry>, at: nat, n: nat, key: Text,
                 middle: nat)
    requires n > 0 && MembersLeft(octets, goal, first, n, at)
    requires Finds(octets, DecodeKey(Lite, From(octets, at)), false, key, middle)
    ensures goal == None
  {
    assert Left(n);
    EntriesNext(Lite, first, From(octets, at), n);
  }

  lemma MembersEnd(octets: seq<Octet>, goal: Option<Parsed<seq<Entry>>>, members: seq<Entry>, next: nat)
    requires MembersLeft(octets, goal, members, 0, next)
    ensures Finds(octets, goal, true, members, next)
  {
    assert Left(0);
    assert members + [] == members;
  }

  method ReadMembers(octets: seq<Octet>, offset: nat, length: nat) returns (ok: bool, entries: seq<Entry>, next: nat)
    ensures ok ==> offset <= next
    ensures offset <= |octets| ==> Finds(octets, DecodeEntries(Lite, octets[offset..], length), ok, entries, next)
    decreases Remaining(octets, offset), 3
  {
    entries, next := [], offset;
    var index := 0;
    ghost var goal := MembersStart(octets, offset, length);
    while index < length
      invariant index <= length && offset <= next
      invariant MembersLeft(octets, goal, entries, length - index, next)
    {
      var key, member: Value, middle;
      ghost var at := next;
      ok, key, middle := ReadKey(octets, next);
      if !ok {
        NoMember(octets, goal, entries, at, length - index, key, middle);
        return false, [], middle;
      }
      ok, member, next := ReadValue(octets, middle);
      MemberFound(octets, goal, entries, at, length - index, key, middle, ok, member, next);
      if !ok { return false, [], next; }
      entries := entries + [Entry(key, member)];
      index := index + 1;
    }
    MembersEnd(octets, goal, entries, next);
    ok := true;
  }

  /** Whatever the octets from an offset on mean, this finds. */
  method ReadValue(octets: seq<Octet>, offset: nat) returns (ok: bool, value: Value, next: nat)
    ensures ok ==> offset < next
    ensures Finds(octets, DecodeValue(Lite, From(octets, offset)), ok, value, next)
    decreases Remaining(octets, offset), 1
  {
    if offset >= |octets| { return false, Null, offset; }
    Onward(octets, offset);
    var prefix := octets[offset];
    if prefix == 143 {
      return true, Null, offset + 1;
    } else if prefix == 128 || prefix == 129 {
      return true, Bool(prefix == 129), offset + 1;
    } else if prefix == 136 {
      ok, value, next := ReadArray(octets, offset);
    } else if prefix == 137 {
      ok, value, next := ReadObject(octets, offset);
    } else if prefix == 138 {
      var data;
      ok, data, next := ReadBlob(octets, offset);
      value := Blob(data);
    } else if prefix == 140 {
      var s;
      ok, s, next := ReadString(octets, offset);
      value := Str(s);
    } else {
      var n;
      ok, n, next := ReadNumber(octets, offset);
      value := Int(n);
    }
  }

  /** What the one implementation reads of what either has written, anywhere in some octets. */
  method ReadBack(d: Dialect, v: Value, before: seq<Octet>, after: seq<Octet>)
    returns (ok: bool, value: Value, next: nat)
    requires Safe(v) && Proper(v) && |Encode(d, v)| <= MaxSafe
    ensures ok && next == |before| + |Encode(d, v)| && (value == v <==> Clean(v))
  {
    var octets := before + (Encode(d, v) + after);
    assert From(octets, |before|) == Encode(d, v) + after;
    RoundTripExactly(d, Lite, v, after);
    ValueRoundTrip(d, Lite, v, after);
    ok, value, next := ReadValue(octets, |before|);
  }
}
