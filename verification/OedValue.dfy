/**
 Encoding and decoding of Octet-Encoded Data: every encoding can be decoded by either
 implementation, unless a text in it begins with a byte order mark.
 */
module OedValue {
  import opened Prelude
  import opened Oed

  const Mark: Scalar := 0xFEFF

  // ----- Encoding -----

  function EncodeText(d: Dialect, s: Text): (r: seq<Octet>)
    ensures |r| > |s|
  {
    if s == [] then [140, 0]
    else [140] + (EncodeInteger(d, |s|) + (EncodeInteger(d, |Utf8(s)|) + Utf8(s)))
  }

  function Encode(d: Dialect, v: Value): (r: seq<Octet>)
    ensures |r| >= 1
  {
    match v
    case Null => [143]
    case Bool(b) => [if b then 129 else 128]
    case Int(n) => EncodeInteger(d, n)
    case Str(s) => EncodeText(d, s)
    case Blob(data) => [138] + (EncodeInteger(d, |data|) + data)
    case Arr(elements) => EncodeMany(d, 136, |elements|, EncodeAll(d, elements))
    case Obj(entries) => EncodeMany(d, 137, |entries|, EncodeEntries(d, entries))
  }

  /** An array or an object: without elements there is no size field. */
  function EncodeMany(d: Dialect, prefix: Octet, length: nat, body: seq<Octet>): (r: seq<Octet>)
    ensures |r| >= 1
  {
    if length == 0 then [prefix, 0] else [prefix] + (EncodeInteger(d, length) + (EncodeInteger(d, |body|) + body))
  }

  function EncodeAll(d: Dialect, vs: seq<Value>): (r: seq<Octet>)
    ensures |r| >= |vs|
  {
    if vs == [] then [] else Encode(d, vs[0]) + EncodeAll(d, vs[1..])
  }

  function EncodeEntries(d: Dialect, es: seq<Entry>): (r: seq<Octet>)
    ensures |r| >= |es|
  {
    if es == [] then [] else EncodeText(d, es[0].key) + (Encode(d, es[0].value) + EncodeEntries(d, es[1..]))
  }

  // ----- Decoding -----

  /** Text decoders remove one byte order mark at the beginning. */
  function Unmark(s: Text): Text { if s != [] && s[0] == Mark then s[1..] else s }

  function Raw(o: seq<Octet>): Text { seq(|o|, i requires 0 <= i < |o| => o[i] as Scalar) }

  /** Assigning a property: a new one comes last, one that exists keeps its place. */
  function Put(es: seq<Entry>, key: Text, value: Value): seq<Entry> {
    if es == [] then [Entry(key, value)]
    else if es[0].key == key then [Entry(key, value)] + es[1..]
    else [es[0]] + Put(es[1..], key, value)
  }

  function PutAll(es: seq<Entry>, more: seq<Entry>): seq<Entry>
    decreases |more|
  {
    if more == [] then es else PutAll(Put(es, more[0].key, more[0].value), more[1..])
  }

  /** The first octets, if there are so many. */
  function Take(o: seq<Octet>, n: nat): Option<Parsed<seq<Octet>>> {
    if |o| < n then None else Some(Parsed(o[..n], o[n..]))
  }

  /** A size field and as many octets. */
  function DecodeData(o: seq<Octet>): (r: Option<Parsed<seq<Octet>>>)
    ensures r.Some? ==> |r.value.rest| < |o|
  {
    match DecodeMagnitude(o)
    case None => None
    case Some(Parsed(size, rest)) => Take(rest, size)
  }

  /** A text after its prefix. One implementation checks its length. */
  function DecodeText(d: Dialect, o: seq<Octet>): (r: Option<Parsed<Text>>)
    ensures r.Some? ==> |r.value.rest| < |o|
  {
    match DecodeMagnitude(o)
    case None => None
    case Some(Parsed(length, o1)) =>
      if length == 0 then Some(Parsed([], o1))
      else
        match DecodeData(o1)
        case None => None
        case Some(Parsed(data, rest)) =>
          match DecodeUtf8(data)
          case None => None
          case Some(s) => if d == Full && |Unmark(s)| != length then None else Some(Parsed(Unmark(s), rest))
  }

  /** Decimals, rationals, extensions and memoized strings are not part of this model. */
  function DecodeValue(d: Dialect, o: seq<Octet>): (r: Option<Parsed<Value>>)
    ensures r.Some? ==> |r.value.rest| < |o|
    decreases |o|, 0
  {
    if o == [] then None
    else
      match o[0]
      case 143 => Some(Parsed(Null, o[1..]))
      case 128 => Some(Parsed(Bool(false), o[1..]))
      case 129 => Some(Parsed(Bool(true), o[1..]))
      case 136 => DecodeArray(d, o[1..])
      case 137 => DecodeObject(d, o[1..])
      case 138 =>
        (match DecodeData(o[1..])
         case None => None
         case Some(Parsed(data, rest)) => Some(Parsed(Blob(data), rest)))
      case 140 =>
        (match DecodeText(d, o[1..])
         case None => None
         case Some(Parsed(s, rest)) => Some(Parsed(Str(s), rest)))
      case _ => (match DecodeInteger(o) case None => None case Some(Parsed(n, rest)) => Some(Parsed(Int(n), rest)))
  }

  function DecodeArray(d: Dialect, o: seq<Octet>): (r: Option<Parsed<Value>>)
    ensures r.Some? ==> |r.value.rest| < |o|
    decreases |o|, 2
  {
    match DecodeMagnitude(o)
    case None => None
    case Some(Parsed(length, o1)) =>
      if length == 0 then Some(Parsed(Arr([]), o1))
      else
        match DecodeMagnitude(o1)
        case None => None
        case Some(Parsed(size, o2)) =>
          match DecodeAll(d, o2, length)
          case None => None
          case Some(Parsed(vs, rest)) => if |o2| - |rest| != size then None else Some(Parsed(Arr(vs), rest))
  }

  function DecodeAll(d: Dialect, o: seq<Octet>, n: nat): (r: Option<Parsed<seq<Value>>>)
    ensures r.Some? ==> |r.value.rest| <= |o|
    decreases |o|, 1
  {
    if n == 0 then Some(Parsed([], o))
    else
      match DecodeValue(d, o)
      case None => None
      case Some(Parsed(v, o1)) =>
        match DecodeAll(d, o1, n - 1)
        case None => None
        case Some(Parsed(vs, rest)) => Some(Parsed([v] + vs, rest))
  }

  function DecodeObject(d: Dialect, o: seq<Octet>): (r: Option<Parsed<Value>>)
    ensures r.Some? ==> |r.value.rest| < |o|
    decreases |o|, 2
  {
    match DecodeMagnitude(o)
    case None => None
    case Some(Parsed(length, o1)) =>
      if length == 0 then Some(Parsed(Obj([]), o1))
      else
        match DecodeMagnitude(o1)
        case None => None
        case Some(Parsed(size, o2)) =>
          match DecodeEntries(d, o2, length)
          case None => None
          case Some(Parsed(es, rest)) => if |o2| - |rest| != size then None else Some(Parsed(Obj(PutAll([], es)), rest))
  }

  /**
   The octets of a key that is not a string become its characters; one implementation allows only blobs as such keys.
   */
  function DecodeKey(d: Dialect, o: seq<Octet>): (r: Option<Parsed<Text>>)
    ensures r.Some? ==> |r.value.rest| < |o|
    decreases |o|, 1
  {
    match DecodeValue(d, o)
    case None => None
    case Some(Parsed(v, rest)) =>
      if v.Str? then Some(Parsed(v.text, rest))
      else if d == Full then Some(Parsed(Raw(o[..|o| - |rest|]), rest))
      else if v.Blob? then Some(Parsed(Raw(v.data), rest))
      else None
  }

  function DecodeEntries(d: Dialect, o: seq<Octet>, n: nat): (r: Option<Parsed<seq<Entry>>>)
    ensures r.Some? ==> |r.value.rest| <= |o|
    decreases |o|, 2
  {
    if n == 0 then Some(Parsed([], o))
    else
      match DecodeKey(d, o)
      case None => None
      case Some(Parsed(key, o1)) =>
        match DecodeValue(d, o1)
        case None => None
        case Some(Parsed(v, o2)) =>
          match DecodeEntries(d, o2, n - 1)
          case None => None
          case Some(Parsed(es, rest)) => Some(Parsed([Entry(key, v)] + es, rest))
  }

  /** What a loop that collects values has found, and what is still to come. */
  function Prepend<T>(first: seq<T>, o: Option<Parsed<seq<T>>>): Option<Parsed<seq<T>>> {
    match o case None => None case Some(Parsed(vs, rest)) => Some(Parsed(first + vs, rest))
  }

  lemma PrependNothing<T>(o: Option<Parsed<seq<T>>>)
    ensures Prepend([], o) == o
  {
    if o.Some? { assert [] + o.value.value == o.value.value; }
  }

  lemma AppendOne<T>(first: seq<T>, x: T, o: Option<Parsed<seq<T>>>)
    ensures Prepend(first + [x], o) == Prepend(first, Prepend([x], o))
  {
    if o.Some? { Associates(first, [x], o.value.value); }
  }

  /** One turn of the loop over the elements of an array. */
  lemma AllNext(d: Dialect, first: seq<Value>, o: seq<Octet>, n: nat)
    requires n > 0
    ensures var v := DecodeValue(d, o);
            Prepend(first, DecodeAll(d, o, n)) ==
            if v.None? then None else Prepend(first + [v.value.value], DecodeAll(d, v.value.rest, n - 1))
  {
    var v := DecodeValue(d, o);
    if v.Some? { AppendOne(first, v.value.value, DecodeAll(d, v.value.rest, n - 1)); }
  }

  /** One turn of the loop over the entries of an object. */
  lemma EntriesNext(d: Dialect, first: seq<Entry>, o: seq<Octet>, n: nat)
    requires n > 0
    ensures var key := DecodeKey(d, o);
            var v := if key.None? then None else DecodeValue(d, key.value.rest);
            Prepend(first, DecodeEntries(d, o, n)) ==
            if v.None? then None
            else Prepend(first + [Entry(key.value.value, v.value.value)], DecodeEntries(d, v.value.rest, n - 1))
  {
    var key := DecodeKey(d, o);
    if key.Some? {
      var v := DecodeValue(d, key.value.rest);
      if v.Some? { AppendOne(first, Entry(key.value.value, v.value.value), DecodeEntries(d, v.value.rest, n - 1)); }
    }
  }

  // ----- What a decoder sees -----

  /** A text that begins with a mark is refused by one decoder and loses the mark in the other. */
  function SeeText(d: Dialect, s: Text): Option<Text> { if d == Full && Unmark(s) != s then None else Some(Unmark(s)) }

  function See(d: Dialect, v: Value): Option<Value> {
    match v
    case Str(s) => (match SeeText(d, s) case None => None case Some(t) => Some(Str(t)))
    case Arr(vs) => (match SeeAll(d, vs) case None => None case Some(ws) => Some(Arr(ws)))
    case Obj(es) => (match SeeEntries(d, es) case None => None case Some(fs) => Some(Obj(PutAll([], fs))))
    case _ => Some(v)
  }

  function SeeAll(d: Dialect, vs: seq<Value>): Option<seq<Value>> {
    if vs == [] then Some([])
    else
      match See(d, vs[0])
      case None => None
      case Some(w) => (match SeeAll(d, vs[1..]) case None => None case Some(ws) => Some([w] + ws))
  }

  function SeeEntries(d: Dialect, es: seq<Entry>): Option<seq<Entry>> {
    if es == [] then Some([])
    else
      match SeeText(d, es[0].key)
      case None => None
      case Some(key) =>
        match See(d, es[0].value)
        case None => None
        case Some(w) => (match SeeEntries(d, es[1..]) case None => None case Some(fs) => Some([Entry(key, w)] + fs))
  }

  // ----- Round trips -----

  predicate Safe(v: Value) {
    match v
    case Int(n) => Magnitude(n) <= MaxSafe
    case Arr(vs) => SafeAll(vs)
    case Obj(es) => SafeEntries(es)
    case _ => true
  }

  predicate SafeAll(vs: seq<Value>) { vs == [] || (Safe(vs[0]) && SafeAll(vs[1..])) }
  predicate SafeEntries(es: seq<Entry>) { es == [] || (Safe(es[0].value) && SafeEntries(es[1..])) }

  lemma MagnitudeRead(d: Dialect, n: nat, o: seq<Octet>)
    requires n <= MaxSafe
    ensures DecodeMagnitude(EncodeInteger(d, n) + o) == Some(Parsed(n, o))
  {
    IntegerRoundTrip(d, n, o);
  }

  lemma DataRead(d: Dialect, data: seq<Octet>, o: seq<Octet>)
    requires |data| <= MaxSafe
    ensures DecodeData((EncodeInteger(d, |data|) + data) + o) == Some(Parsed(data, o))
  {
    MagnitudeRead(d, |data|, data + o);
    Associates(EncodeInteger(d, |data|), data, o);
    assert (data + o)[..|data|] == data && (data + o)[|data|..] == o;
  }

  lemma Prefixed(p: Octet, x: seq<Octet>, o: seq<Octet>)
    ensures (([p] + x) + o)[0] == p && (([p] + x) + o)[1..] == x + o
  {
  }

  lemma TextRoundTrip(d1: Dialect, d2: Dialect, s: Text, o: seq<Octet>)
    requires |EncodeText(d1, s)| <= MaxSafe
    ensures var e := EncodeText(d1, s) + o;
            && e[0] == 140
            && DecodeText(d2, e[1..]) ==
               match SeeText(d2, s) case None => None case Some(t) => Some(Parsed(t, o))
  {
    if s == [] {
      assert (EncodeText(d1, s) + o)[1..] == EncodeInteger(d1, 0) + o;
      MagnitudeRead(d1, 0, o);
    } else {
      var u := Utf8(s);
      var data := EncodeInteger(d1, |u|) + u;
      Prefixed(140, EncodeInteger(d1, |s|) + data, o);
      Associates(EncodeInteger(d1, |s|), data, o);
      MagnitudeRead(d1, |s|, data + o);
      DataRead(d1, u, o);
      Utf8RoundTrip(s);
    }
  }

  ghost predicate Reads<T>(got: Option<Parsed<T>>, seen: Option<T>, o: seq<Octet>) {
    got == match seen case None => None case Some(w) => Some(Parsed(w, o))
  }

  /**
   Whichever implementation encodes a value and whichever decodes it, it reads what it can see of the value, and
   nothing after it.
   */
  lemma {:induction false} ValueRoundTrip(d1: Dialect, d2: Dialect, v: Value, o: seq<Octet>)
    requires Safe(v) && |Encode(d1, v)| <= MaxSafe
    ensures Reads(DecodeValue(d2, Encode(d1, v) + o), See(d2, v), o)
    decreases v, 1
  {
    match v
    case Null => assert (Encode(d1, v) + o)[1..] == o;
    case Bool(b) => assert (Encode(d1, v) + o)[1..] == o;
    case Int(n) => IntegerRoundTrip(d1, n, o); IntegerPrefix(d1, n);
    case Str(s) => TextRoundTrip(d1, d2, s, o);
    case Blob(data) =>
      Prefixed(138, EncodeInteger(d1, |data|) + data, o);
      DataRead(d1, data, o);
    case Arr(vs) => ArrayRoundTrip(d1, d2, vs, o);
    case Obj(es) => ObjectRoundTrip(d1, d2, es, o);
  }

  lemma IntegerPrefix(d: Dialect, n: int)
    ensures var p := EncodeInteger(d, n)[0]; p <= 127 || p == 130 || p == 131 || p >= 144
  {
  }

  /** The length and size fields of an array or object that has elements. */
  lemma ManyRead(d: Dialect, prefix: Octet, length: nat, body: seq<Octet>, o: seq<Octet>)
    requires length > 0 && length <= |body| && |EncodeMany(d, prefix, length, body)| <= MaxSafe
    ensures var e := EncodeMany(d, prefix, length, body) + o;
            && e[0] == prefix
            && DecodeMagnitude(e[1..]) == Some(Parsed(length, EncodeInteger(d, |body|) + (body + o)))
            && DecodeMagnitude(EncodeInteger(d, |body|) + (body + o)) == Some(Parsed(|body| as nat, body + o))
  {
    Prefixed(prefix, EncodeInteger(d, length) + (EncodeInteger(d, |body|) + body), o);
    Associates(EncodeInteger(d, length), EncodeInteger(d, |body|) + body, o);
    Associates(EncodeInteger(d, |body|), body, o);
    MagnitudeRead(d, length, EncodeInteger(d, |body|) + (body + o));
    MagnitudeRead(d, |body|, body + o);
  }

  lemma EmptyRead(d: Dialect, prefix: Octet, o: seq<Octet>)
    ensures var e := [prefix, 0 as Octet] + o; e[0] == prefix && DecodeMagnitude(e[1..]) == Some(Parsed(0, o))
  {
    assert ([prefix, 0 as Octet] + o)[1..] == EncodeInteger(d, 0) + o;
    MagnitudeRead(d, 0, o);
  }

  lemma {:induction false} ArrayRoundTrip(d1: Dialect, d2: Dialect, vs: seq<Value>, o: seq<Octet>)
    requires SafeAll(vs) && |Encode(d1, Arr(vs))| <= MaxSafe
    ensures Reads(DecodeValue(d2, Encode(d1, Arr(vs)) + o), See(d2, Arr(vs)), o)
    decreases vs, 2
  {
    var body := EncodeAll(d1, vs);
    if vs == [] {
      EmptyRead(d1, 136, o);
    } else {
      ManyRead(d1, 136, |vs|, body, o);
      AllRoundTrip(d1, d2, vs, o);
    }
  }

  lemma {:induction false} AllRoundTrip(d1: Dialect, d2: Dialect, vs: seq<Value>, o: seq<Octet>)
    requires SafeAll(vs) && |EncodeAll(d1, vs)| <= MaxSafe
    ensures Reads(DecodeAll(d2, EncodeAll(d1, vs) + o, |vs|), SeeAll(d2, vs), o)
    decreases vs, 1
  {
    if vs == [] {
      assert EncodeAll(d1, vs) + o == o;
    } else {
      var first, rest := Encode(d1, vs[0]), EncodeAll(d1, vs[1..]);
      Associates(first, rest, o);
      ValueRoundTrip(d1, d2, vs[0], rest + o);
      AllRoundTrip(d1, d2, vs[1..], o);
    }
  }

  lemma {:induction false} ObjectRoundTrip(d1: Dialect, d2: Dialect, es: seq<Entry>, o: seq<Octet>)
    requires SafeEntries(es) && |Encode(d1, Obj(es))| <= MaxSafe
    ensures Reads(DecodeValue(d2, Encode(d1, Obj(es)) + o), See(d2, Obj(es)), o)
    decreases es, 2
  {
    var body := EncodeEntries(d1, es);
    if es == [] {
      EmptyRead(d1, 137, o);
    } else {
      ManyRead(d1, 137, |es|, body, o);
      EntriesRoundTrip(d1, d2, es, o);
    }
  }

  lemma KeyRead(d1: Dialect, d2: Dialect, s: Text, o: seq<Octet>)
    requires |EncodeText(d1, s)| <= MaxSafe
    ensures Reads(DecodeKey(d2, EncodeText(d1, s) + o), SeeText(d2, s), o)
  {
    TextRoundTrip(d1, d2, s, o);
  }

  lemma {:induction false} EntriesRoundTrip(d1: Dialect, d2: Dialect, es: seq<Entry>, o: seq<Octet>)
    requires SafeEntries(es) && |EncodeEntries(d1, es)| <= MaxSafe
    ensures Reads(DecodeEntries(d2, EncodeEntries(d1, es) + o, |es|), SeeEntries(d2, es), o)
    decreases es, 1
  {
    if es == [] {
      assert EncodeEntries(d1, es) + o == o;
    } else {
      var key, value, rest := EncodeText(d1, es[0].key), Encode(d1, es[0].value), EncodeEntries(d1, es[1..]);
      Associates(key, value + rest, o);
      Associates(value, rest, o);
      KeyRead(d1, d2, es[0].key, value + (rest + o));
      ValueRoundTrip(d1, d2, es[0].value, rest + o);
      EntriesRoundTrip(d1, d2, es[1..], o);
    }
  }

  // ----- When a decoder sees everything -----

  /** No text and no key begins with a byte order mark. */
  predicate Clean(v: Value) {
    match v
    case Str(s) => Unmark(s) == s
    case Arr(vs) => CleanAll(vs)
    case Obj(es) => CleanEntries(es)
    case _ => true
  }

  predicate CleanAll(vs: seq<Value>) { vs == [] || (Clean(vs[0]) && CleanAll(vs[1..])) }

  predicate CleanEntries(es: seq<Entry>) {
    es == [] || (Unmark(es[0].key) == es[0].key && Clean(es[0].value) && CleanEntries(es[1..]))
  }

  /** The keys of every object are distinct. */
  predicate Proper(v: Value) {
    match v
    case Arr(vs) => ProperAll(vs)
    case Obj(es) => ProperEntries(es)
    case _ => true
  }

  predicate ProperAll(vs: seq<Value>) { vs == [] || (Proper(vs[0]) && ProperAll(vs[1..])) }

  predicate ProperEntries(es: seq<Entry>) {
    es == [] || (Proper(es[0].value) && ProperEntries(es[1..]) && forall e <- es[1..] :: e.key != es[0].key)
  }

  /** How many characters there are in all the texts of a value. */
  function Weight(v: Value): nat {
    match v
    case Str(s) => |s|
    case Arr(vs) => WeightAll(vs)
    case Obj(es) => WeightEntries(es)
    case _ => 0
  }

  function WeightAll(vs: seq<Value>): nat { if vs == [] then 0 else Weight(vs[0]) + WeightAll(vs[1..]) }

  function WeightEntries(es: seq<Entry>): nat {
    if es == [] then 0 else |es[0].key| + Weight(es[0].value) + WeightEntries(es[1..])
  }

  lemma {:induction false} PutWeight(es: seq<Entry>, key: Text, value: Value)
    ensures WeightEntries(Put(es, key, value)) <= WeightEntries(es) + |key| + Weight(value)
  {
    if es != [] && es[0].key != key { PutWeight(es[1..], key, value); }
  }

  lemma {:induction false} PutAllWeight(es: seq<Entry>, more: seq<Entry>)
    ensures WeightEntries(PutAll(es, more)) <= WeightEntries(es) + WeightEntries(more)
    decreases |more|
  {
    if more != [] {
      PutWeight(es, more[0].key, more[0].value);
      PutAllWeight(Put(es, more[0].key, more[0].value), more[1..]);
    }
  }

  lemma {:induction false} PutNew(es: seq<Entry>, key: Text, value: Value)
    requires forall e <- es :: e.key != key
    ensures Put(es, key, value) == es + [Entry(key, value)]
  {
    if es != [] {
      PutNew(es[1..], key, value);
      assert es == [es[0]] + es[1..];
    }
  }

  lemma {:induction false} PutAllNew(es: seq<Entry>, more: seq<Entry>)
    requires ProperEntries(more) && forall e <- es, f <- more :: e.key != f.key
    ensures PutAll(es, more) == es + more
    decreases |more|
  {
    if more != [] {
      var first := Entry(more[0].key, more[0].value);
      PutNew(es, more[0].key, more[0].value);
      assert more == [first] + more[1..];
      PutAllNew(es + [first], more[1..]);
      Associates(es, [first], more[1..]);
    }
  }

  /** What is lost is lost: the sight of a value that is not clean has fewer characters. */
  lemma {:induction false} SeeWeight(d: Dialect, v: Value)
    ensures See(d, v).None? <==> d == Full && !Clean(v)
    ensures See(d, v).Some? ==> Weight(See(d, v).value) <= Weight(v) - if Clean(v) then 0 else 1
    decreases v, 0
  {
    match v
    case Arr(vs) => SeeAllWeight(d, vs);
    case Obj(es) =>
      SeeEntriesWeight(d, es);
      if SeeEntries(d, es).Some? { PutAllWeight([], SeeEntries(d, es).value); }
    case _ =>
  }

  lemma {:induction false} SeeAllWeight(d: Dialect, vs: seq<Value>)
    ensures SeeAll(d, vs).None? <==> d == Full && !CleanAll(vs)
    ensures SeeAll(d, vs).Some? ==> WeightAll(SeeAll(d, vs).value) <= WeightAll(vs) - if CleanAll(vs) then 0 else 1
    decreases vs, 1
  {
    if vs != [] {
      SeeWeight(d, vs[0]);
      SeeAllWeight(d, vs[1..]);
    }
  }

  lemma {:induction false} SeeEntriesWeight(d: Dialect, es: seq<Entry>)
    ensures SeeEntries(d, es).None? <==> d == Full && !CleanEntries(es)
    ensures SeeEntries(d, es).Some? ==>
              WeightEntries(SeeEntries(d, es).value) <= WeightEntries(es) - if CleanEntries(es) then 0 else 1
    decreases es, 1
  {
    if es != [] {
      SeeWeight(d, es[0].value);
      SeeEntriesWeight(d, es[1..]);
    }
  }

  lemma {:induction false} SeeClean(d: Dialect, v: Value)
    requires Clean(v) && Proper(v)
    ensures See(d, v) == Some(v)
    decreases v, 0
  {
    match v
    case Arr(vs) => SeeCleanAll(d, vs);
    case Obj(es) =>
      SeeCleanEntries(d, es);
      PutAllNew([], es);
      assert [] + es == es;
    case _ =>
  }

  lemma {:induction false} SeeCleanAll(d: Dialect, vs: seq<Value>)
    requires CleanAll(vs) && ProperAll(vs)
    ensures SeeAll(d, vs) == Some(vs)
    decreases vs, 1
  {
    if vs != [] {
      SeeClean(d, vs[0]);
      SeeCleanAll(d, vs[1..]);
      assert vs == [vs[0]] + vs[1..];
    }
  }

  lemma {:induction false} SeeCleanEntries(d: Dialect, es: seq<Entry>)
    requires CleanEntries(es) && ProperEntries(es)
    ensures SeeEntries(d, es) == Some(es)
    decreases es, 1
  {
    if es != [] {
      SeeClean(d, es[0].value);
      SeeCleanEntries(d, es[1..]);
      assert es == [Entry(es[0].key, es[0].value)] + es[1..];
    }
  }

  /**
   A value that either implementation encodes is decoded by either to that value, consuming exactly
   the encoding, if and only if no text in it begins with a byte order mark. If one does, one
   implementation refuses the octets and the other gives a different value.
   */
  lemma RoundTripExactly(d1: Dialect, d2: Dialect, v: Value, o: seq<Octet>)
    requires Safe(v) && Proper(v) && |Encode(d1, v)| <= MaxSafe
    ensures DecodeValue(d2, Encode(d1, v) + o) == Some(Parsed(v, o)) <==> Clean(v)
    ensures DecodeValue(d2, Encode(d1, v) + o).None? <==> d2 == Full && !Clean(v)
  {
    ValueRoundTrip(d1, d2, v, o);
    SeeWeight(d2, v);
    if Clean(v) { SeeClean(d2, v); }
  }

  /** A text that is a byte order mark: the one implementation refuses its encoding, the other reads the empty text. */
  lemma MarkLost(d: Dialect, o: seq<Octet>)
    ensures DecodeValue(Full, Encode(d, Str([Mark])) + o) == None
    ensures DecodeValue(Lite, Encode(d, Str([Mark])) + o) == Some(Parsed(Str([]), o))
  {
    MarkShort(d);
    ValueRoundTrip(d, Full, Str([Mark]), o);
    ValueRoundTrip(d, Lite, Str([Mark]), o);
  }

  lemma MarkShort(d: Dialect)
    ensures |Encode(d, Str([Mark]))| <= MaxSafe && Safe(Str([Mark])) && Proper(Str([Mark]))
  {
    assert |Utf8([Mark])| == 3;
  }
}
