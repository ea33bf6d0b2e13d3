/**
 What the decoders make of any octets: nothing of what follows, no property twice, and no container of another size
 than it announces; and some encodings in full.
 */
module OedStrict {
  import opened Prelude
  import opened Oed
  import opened OedValue

  // ----- What follows does not matter -----

  ghost predicate Extends<T>(short: Option<Parsed<T>>, long: Option<Parsed<T>>, more: seq<Octet>) {
    short.Some? ==> long == Some(Parsed(short.value.value, short.value.rest + more))
  }

  lemma {:induction false} IntegerExtends(o: seq<Octet>, more: seq<Octet>)
    ensures Extends(DecodeInteger(o), DecodeInteger(o + more), more)
    decreases |o|, 0
  {
    if o != [] {
      assert (o + more)[1..] == o[1..] + more;
      if o[0] == 130 || o[0] == 131 { SizedExtends(o[0] == 131, o[1..], more); }
    }
  }

  lemma {:induction false} SizedExtends(negative: bool, o: seq<Octet>, more: seq<Octet>)
    ensures Extends(DecodeSized(negative, o), DecodeSized(negative, o + more), more)
    decreases |o|, 2
  {
    MagnitudeExtends(o, more);
    if DecodeMagnitude(o).Some? {
      var Parsed(size, rest) := DecodeMagnitude(o).value;
      if Octets(size) <= |rest| { TakeExtends(rest, Octets(size), more); }
    }
  }

  lemma {:induction false} MagnitudeExtends(o: seq<Octet>, more: seq<Octet>)
    ensures Extends(DecodeMagnitude(o), DecodeMagnitude(o + more), more)
    decreases |o|, 1
  {
    IntegerExtends(o, more);
  }

  lemma TakeExtends(o: seq<Octet>, n: nat, more: seq<Octet>)
    requires n <= |o|
    ensures (o + more)[..n] == o[..n] && (o + more)[n..] == o[n..] + more
  {
  }

  lemma DataExtends(o: seq<Octet>, more: seq<Octet>)
    ensures Extends(DecodeData(o), DecodeData(o + more), more)
  {
    MagnitudeExtends(o, more);
    if DecodeMagnitude(o).Some? {
      var Parsed(size, rest) := DecodeMagnitude(o).value;
      if size <= |rest| { TakeExtends(rest, size, more); }
    }
  }

  lemma TextExtends(d: Dialect, o: seq<Octet>, more: seq<Octet>)
    ensures Extends(DecodeText(d, o), DecodeText(d, o + more), more)
  {
    MagnitudeExtends(o, more);
    if DecodeMagnitude(o).Some? { DataExtends(DecodeMagnitude(o).value.rest, more); }
  }

  /** A value that is complete stays what it is, whatever follows. */
  lemma {:induction false} ValueExtends(d: Dialect, o: seq<Octet>, more: seq<Octet>)
    ensures Extends(DecodeValue(d, o), DecodeValue(d, o + more), more)
    decreases |o|, 0
  {
    if o != [] {
      assert (o + more)[0] == o[0] && (o + more)[1..] == o[1..] + more;
      match o[0]
      case 136 => ArrayExtends(d, o[1..], more);
      case 137 => ObjectExtends(d, o[1..], more);
      case 138 => DataExtends(o[1..], more);
      case 140 => TextExtends(d, o[1..], more);
      case _ => IntegerExtends(o, more);
    }
  }

  lemma {:induction false} ArrayExtends(d: Dialect, o: seq<Octet>, more: seq<Octet>)
    ensures Extends(DecodeArray(d, o), DecodeArray(d, o + more), more)
    decreases |o|, 2
  {
    MagnitudeExtends(o, more);
    if DecodeMagnitude(o).Some? {
      var Parsed(length, o1) := DecodeMagnitude(o).value;
      MagnitudeExtends(o1, more);
      if length > 0 && DecodeMagnitude(o1).Some? { AllExtends(d, DecodeMagnitude(o1).value.rest, length, more); }
    }
  }

  lemma {:induction false} AllExtends(d: Dialect, o: seq<Octet>, n: nat, more: seq<Octet>)
    ensures Extends(DecodeAll(d, o, n), DecodeAll(d, o + more, n), more)
    decreases |o|, 1
  {
    if n > 0 {
      ValueExtends(d, o, more);
      if DecodeValue(d, o).Some? { AllExtends(d, DecodeValue(d, o).value.rest, n - 1, more); }
    }
  }

  lemma {:induction false} ObjectExtends(d: Dialect, o: seq<Octet>, more: seq<Octet>)
    ensures Extends(DecodeObject(d, o), DecodeObject(d, o + more), more)
    decreases |o|, 2
  {
    MagnitudeExtends(o, more);
    if DecodeMagnitude(o).Some? {
      var Parsed(length, o1) := DecodeMagnitude(o).value;
      MagnitudeExtends(o1, more);
      if length > 0 && DecodeMagnitude(o1).Some? { EntriesExtend(d, DecodeMagnitude(o1).value.rest, length, more); }
    }
  }

  lemma {:induction false} KeyExtends(d: Dialect, o: seq<Octet>, more: seq<Octet>)
    ensures Extends(DecodeKey(d, o), DecodeKey(d, o + more), more)
    decreases |o|, 1
  {
    ValueExtends(d, o, more);
    if DecodeValue(d, o).Some? {
      var used := |o| - |DecodeValue(d, o).value.rest|;
      TakeExtends(o, used, more);
    }
  }

  lemma {:induction false} EntriesExtend(d: Dialect, o: seq<Octet>, n: nat, more: seq<Octet>)
    ensures Extends(DecodeEntries(d, o, n), DecodeEntries(d, o + more, n), more)
    decreases |o|, 2
  {
    if n > 0 {
      KeyExtends(d, o, more);
      if DecodeKey(d, o).Some? {
        var o1 := DecodeKey(d, o).value.rest;
        ValueExtends(d, o1, more);
        if DecodeValue(d, o1).Some? { EntriesExtend(d, DecodeValue(d, o1).value.rest, n - 1, more); }
      }
    }
  }

  // ----- Properties -----

  predicate DistinctKeys(es: seq<Entry>) {
    forall i, j :: 0 <= i < j < |es| ==> es[i].key != es[j].key
  }

  predicate Holds(es: seq<Entry>, key: Text, value: Value) {
    exists i :: 0 <= i < |es| && es[i] == Entry(key, value)
  }

  lemma {:induction false} PutOld(es: seq<Entry>, key: Text, value: Value, i: nat)
    requires i < |es| && es[i].key == key && forall j :: 0 <= j < i ==> es[j].key != key
    ensures Put(es, key, value) == es[i := Entry(key, value)]
  {
    if i == 0 {
      assert es[0 := Entry(key, value)] == [Entry(key, value)] + es[1..];
    } else {
      assert forall j :: 0 <= j < i - 1 ==> es[1..][j] == es[j + 1];
      PutOld(es[1..], key, value, i - 1);
      assert es[i := Entry(key, value)] == [es[0]] + es[1..][i - 1 := Entry(key, value)];
    }
  }

  /** Assigning a property sets its value in its place, or comes last, and changes nothing else. */
  lemma PutSets(es: seq<Entry>, key: Text, value: Value)
    requires DistinctKeys(es)
    ensures var fs := Put(es, key, value);
            && DistinctKeys(fs)
            && ((exists i :: 0 <= i < |es| && es[i].key == key && fs == es[i := Entry(key, value)])
                || (fs == es + [Entry(key, value)] && forall e <- es :: e.key != key))
  {
    if i :| 0 <= i < |es| && es[i].key == key {
      PutOld(es, key, value, i);
    } else {
      PutNew(es, key, value);
    }
  }

  /** The last value of a property is the one that stays. */
  lemma {:induction false} LastStays(es: seq<Entry>, more: seq<Entry>, i: nat)
    requires DistinctKeys(es) && i < |more| && forall j :: i < j < |more| ==> more[j].key != more[i].key
    ensures DistinctKeys(PutAll(es, more)) && Holds(PutAll(es, more), more[i].key, more[i].value)
    decreases |more|
  {
    var es1 := Put(es, more[0].key, more[0].value);
    PutSets(es, more[0].key, more[0].value);
    if i > 0 {
      LastStays(es1, more[1..], i - 1);
    } else {
      PutHolds(es, more[0].key, more[0].value);
      Stays(es1, more[1..], more[0].key, more[0].value);
    }
  }

  lemma {:induction false} PutHolds(es: seq<Entry>, key: Text, value: Value)
    ensures Holds(Put(es, key, value), key, value)
  {
    var fs := Put(es, key, value);
    if es == [] || es[0].key == key {
      assert fs[0] == Entry(key, value);
    } else {
      PutHolds(es[1..], key, value);
      var i :| 0 <= i < |fs| - 1 && fs[1..][i] == Entry(key, value);
      assert fs[i + 1] == Entry(key, value);
    }
  }

  lemma {:induction false} Stays(es: seq<Entry>, more: seq<Entry>, key: Text, value: Value)
    requires DistinctKeys(es) && Holds(es, key, value) && forall e <- more :: e.key != key
    ensures DistinctKeys(PutAll(es, more)) && Holds(PutAll(es, more), key, value)
    decreases |more|
  {
    if more != [] {
      var es1 := Put(es, more[0].key, more[0].value);
      PutSets(es, more[0].key, more[0].value);
      var i :| 0 <= i < |es| && es[i] == Entry(key, value);
      assert es1[i] == Entry(key, value);
      Stays(es1, more[1..], key, value);
    }
  }

  /**
   The characters of a key that is not a text are the octets that it takes in the one decoder, and those of a blob in
   the other.
   */
  lemma KeyCharacters(d: Dialect, o: seq<Octet>)
    requires DecodeValue(d, o).Some?
    ensures var Parsed(v, rest) := DecodeValue(d, o).value;
            var data := if d == Full then o[..|o| - |rest|] else if v.Blob? then v.data else [];
            if v.Str? then DecodeKey(d, o) == Some(Parsed(v.text, rest))
            else if d == Lite && !v.Blob? then DecodeKey(d, o) == None
            else
              && DecodeKey(d, o).Some? && DecodeKey(d, o).value.rest == rest && |DecodeKey(d, o).value.value| == |data|
              && forall i :: 0 <= i < |data| ==> DecodeKey(d, o).value.value[i] == data[i]
  {
  }

  /** A proper object has no key twice, and proper values. */
  lemma {:induction false} ProperIsDistinct(es: seq<Entry>)
    ensures Proper(Obj(es)) <==> DistinctKeys(es) && forall e <- es :: Proper(e.value)
  {
    if es != [] { ProperIsDistinct(es[1..]); }
  }

  /** An array is proper, safe or clean if its elements are; an integer is safe in the range of exact numbers. */
  lemma {:induction false} ElementsDecide(vs: seq<Value>)
    ensures Proper(Arr(vs)) <==> forall v <- vs :: Proper(v)
    ensures Safe(Arr(vs)) <==> forall v <- vs :: Safe(v)
    ensures Clean(Arr(vs)) <==> forall v <- vs :: Clean(v)
    ensures forall n :: Safe(Int(n)) <==> -MaxSafe <= n <= MaxSafe
  {
    if vs != [] {
      ElementsDecide(vs[1..]);
      ElementDecides(vs[0], vs[1..]);
      assert vs == [vs[0]] + vs[1..];
    }
  }

  lemma ElementDecides(v: Value, vs: seq<Value>)
    ensures Proper(Arr([v] + vs)) <==> Proper(v) && Proper(Arr(vs))
    ensures Safe(Arr([v] + vs)) <==> Safe(v) && Safe(Arr(vs))
    ensures Clean(Arr([v] + vs)) <==> Clean(v) && Clean(Arr(vs))
  {
    assert ([v] + vs)[1..] == vs;
  }

  lemma {:induction false} EntriesDecide(es: seq<Entry>)
    ensures Safe(Obj(es)) <==> forall e <- es :: Safe(e.value)
    ensures Clean(Obj(es)) <==> forall e <- es :: Clean(e.value) && Clean(Str(e.key))
  {
    if es != [] { EntriesDecide(es[1..]); }
  }

  // ----- Sizes -----

  /** The elements of an array, or the entries of an object, have the size and the number that are announced. */
  lemma SizeAnnounced(d: Dialect, o: seq<Octet>, length: nat, o1: seq<Octet>, size: nat, o2: seq<Octet>)
    requires DecodeMagnitude(o) == Some(Parsed(length, o1)) && length > 0
    requires DecodeMagnitude(o1) == Some(Parsed(size, o2))
    ensures DecodeArray(d, o).Some? ==>
              var Parsed(v, rest) := DecodeArray(d, o).value;
              v.Arr? && |v.elements| == length && |rest| == |o2| - size && DecodeAll(d, o2, length).Some?
    ensures DecodeObject(d, o).Some? ==>
              var Parsed(v, rest) := DecodeObject(d, o).value;
              v.Obj? && DistinctKeys(v.entries) && |v.entries| <= length && |rest| == |o2| - size
  {
    if DecodeAll(d, o2, length).Some? { AllLength(d, o2, length); }
    if DecodeEntries(d, o2, length).Some? {
      EntriesLength(d, o2, length);
      PutAllDistinct([], DecodeEntries(d, o2, length).value.value);
    }
  }

  lemma {:induction false} AllLength(d: Dialect, o: seq<Octet>, n: nat)
    requires DecodeAll(d, o, n).Some?
    ensures |DecodeAll(d, o, n).value.value| == n
    decreases n
  {
    if n > 0 { AllLength(d, DecodeValue(d, o).value.rest, n - 1); }
  }

  lemma {:induction false} EntriesLength(d: Dialect, o: seq<Octet>, n: nat)
    requires DecodeEntries(d, o, n).Some?
    ensures |DecodeEntries(d, o, n).value.value| == n
    decreases n
  {
    if n > 0 { EntriesLength(d, DecodeValue(d, DecodeKey(d, o).value.rest).value.rest, n - 1); }
  }

  lemma {:induction false} PutAllDistinct(es: seq<Entry>, more: seq<Entry>)
    requires DistinctKeys(es)
    ensures DistinctKeys(PutAll(es, more)) && |PutAll(es, more)| <= |es| + |more|
    decreases |more|
  {
    if more != [] {
      PutSets(es, more[0].key, more[0].value);
      PutAllDistinct(Put(es, more[0].key, more[0].value), more[1..]);
    }
  }

  /** A text is as long as it announces, or has lost its mark without being noticed, and its octets are its UTF-8. */
  lemma TextAnnounced(d: Dialect, o: seq<Octet>)
    requires DecodeText(d, o).Some?
    ensures var Parsed(length, o1) := DecodeMagnitude(o).value;
            var Parsed(s, rest) := DecodeText(d, o).value;
            if length == 0 then s == [] && rest == o1
            else
              && DecodeData(o1).Some? && DecodeData(o1).value.rest == rest && (d == Full ==> |s| == length)
              && (Utf8(s) == DecodeData(o1).value.value || Utf8([Mark] + s) == DecodeData(o1).value.value)
  {
    var Parsed(length, o1) := DecodeMagnitude(o).value;
    if length > 0 {
      var data := DecodeData(o1).value.value;
      Utf8Strict(data);
      var s := DecodeUtf8(data).value;
      if Unmark(s) != s { assert s == [Mark] + Unmark(s); }
    }
  }

  // ----- Some encodings -----

  /** The octets of the values that have no parts, of numbers of one octet, and of the empty containers. */
  lemma ShortEncodings(d: Dialect, n: int)
    ensures Encode(d, Null) == [143] && Encode(d, Bool(false)) == [128] && Encode(d, Bool(true)) == [129]
    ensures 0 <= n <= 127 ==> Encode(d, Int(n)) == [n]
    ensures -112 <= n < 0 ==> Encode(d, Int(n)) == [256 + n]
    ensures Encode(d, Str([])) == [140, 0] && Encode(d, Blob([])) == [138, 0]
    ensures Encode(d, Arr([])) == [136, 0] && Encode(d, Obj([])) == [137, 0]
  {
  }

  /** A thousand has ten significant bits, in two octets. */
  lemma ThousandEncoded()
    ensures Encode(Full, Int(1000)) == [130, 10, 232, 3] && Encode(Lite, Int(1000)) == [130, 16, 232, 3]
    ensures Encode(Full, Int(-1000)) == [131, 10, 232, 3] && Encode(Lite, Int(-1000)) == [131, 16, 232, 3]
  {
    ThousandBits();
    ThousandOctets();
  }

  lemma ThousandBits()
    ensures Significant(1000) == 10
  {
    assert Significant(15) == 4;
    assert Significant(250) == 8;
  }

  lemma ThousandOctets()
    ensures Natural(1000) == [232, 3]
  {
    assert Natural(3) == [3];
  }

  /** A text of one character in two octets, and a blob. */
  lemma PartsEncoded(d: Dialect)
    ensures Encode(d, Str([0xE9])) == [140, 1, 2, 0xC3, 0xA9] && Encode(d, Blob([7, 255])) == [138, 2, 7, 255]
  {
    assert Utf8([0xE9]) == [0xC3, 0xA9];
  }

  lemma ArrayEncoded(d: Dialect)
    ensures Encode(d, Arr([Null, Bool(true)])) == [136, 2, 2, 143, 129]
  {
    var vs := [Null, Bool(true)];
    assert vs[1..] == [Bool(true)] && vs[1..][1..] == [] && EncodeAll(d, vs) == [143, 129];
  }

  lemma OneEntry(d: Dialect, e: Entry)
    ensures EncodeEntries(d, [e]) == EncodeText(d, e.key) + Encode(d, e.value)
  {
    assert [e][1..] == [];
  }

  lemma ObjectEncoded(d: Dialect)
    ensures Encode(d, Obj([Entry([0xE9], Null)])) == [137, 1, 6, 140, 1, 2, 0xC3, 0xA9, 143]
  {
    PartsEncoded(d);
    OneEntry(d, Entry([0xE9], Null));
  }
}
