/**
 The WebSocket server: frames are made, and messages are teased out of the bytes that
 arrive, in whatever pieces they do.
 */
module WebSocket {
  import opened Prelude
  import opened Bits

  type Byte = x: int | 0 <= x < 256
  type Code = x: int | 0 <= x < 16
  type Bytes = seq<Byte>

  /** What the connection does to the outside. Text is not decoded here. */
  datatype Effect = Receive(textual: bool, payload: Bytes) | Write(frame: Bytes) | Destroy

  /** The pieces of a message, whether it is text, and what has been done. */
  datatype Link = Link(fragment: Option<Bytes>, textual: bool, effects: seq<Effect>, crashed: bool)

  /** A link, and what has arrived and not been consumed. */
  datatype State = State(link: Link, buffer: Bytes)

  datatype Frame = Frame(fin: bool, opcode: Code, payload: Bytes)
  datatype Found = Found(frame: Frame, rest: Bytes)

  // ----- Frames -----

  /** A natural number in so many bytes, the most significant first. */
  function BigEndian(n: nat, bytes: nat): (r: Bytes)
    ensures |r| == bytes
  {
    if bytes == 0 then [] else BigEndian(n / 256, bytes - 1) + [n % 256]
  }

  function Number(b: Bytes): nat {
    if b == [] then 0 else 256 * Number(b[..|b| - 1]) + b[|b| - 1]
  }

  /** The second byte has the mask bit or not. */
  function LengthField(n: nat, masked: bool): Bytes {
    var bit := if masked then 0x80 else 0;
    if n < 126 then [bit + n]
    else if n < 0x1_0000 then [bit + 126] + BigEndian(n, 2)
    else [bit + 127] + BigEndian(n / 0x1_0000_0000, 4) + BigEndian(n % 0x1_0000_0000, 4)
  }

  /** What the server sends: one frame to a message, without a mask. */
  function MakeFrame(opcode: Code, payload: Bytes): Bytes {
    [0x80 + opcode as int] + LengthField(|payload|, false) + payload
  }

  function Unmask(x: Byte, m: Byte): Byte {
    BitwiseBelow(Xor, x, m, 8);
    EightBits();
    Bitwise(Xor, x, m, 8)
  }

  lemma EightBits()
    ensures Power(8) == 256
  {
    assert Power(4) == 16;
  }

  function Masked(payload: Bytes, mask: Bytes): Bytes
    requires |mask| == 4
  {
    seq(|payload|, i requires 0 <= i < |payload| => Unmask(payload[i], mask[i % 4]))
  }

  /** What a client sends. */
  function ClientFrame(f: Frame, mask: Bytes): Bytes
    requires |mask| == 4
  {
    [(if f.fin then 0x80 else 0) + f.opcode as int] + LengthField(|f.payload|, true) + (mask + Masked(f.payload, mask))
  }

  /** Where the mask starts and how long the payload is, by the second byte; None if the length has not arrived. */
  function Header(b: Bytes): Option<(nat, nat)>
    requires |b| >= 2
  {
    var length := b[1] % 0x80;
    if length == 126 then (if |b| < 4 then None else Some((4, Number(b[2..4]))))
    else if length > 126 then (if |b| < 10 then None else Some((10, Number(b[2..10]))))
    else Some((2, length))
  }

  /** The first frame in the buffer, unmasked, if it is complete. */
  function Parse(b: Bytes): (r: Option<Found>)
    ensures r.Some? ==> |r.value.rest| < |b|
  {
    if |b| < 2 then None
    else
      match Header(b)
      case None => None
      case Some((start, length)) =>
        if |b| - start < 4 + length then None
        else
          var mask, end := b[start..start + 4], start + 4 + length;
          Some(Found(Frame(b[0] / 0x80 != 0, b[0] % 0x10, Masked(b[start + 4..end], mask)), b[end..]))
  }

  /**
   Every frame that is found is unmasked: each byte of the payload is the exclusive or of the one that arrived and of
   the mask's, which are used in turn.
   */
  lemma Unmasked(b: Bytes, i: nat)
    requires Parse(b).Some? && i < |Parse(b).value.frame.payload|
    ensures var start := Header(b).value.0;
            && start + 4 + i < |b|
            && Parse(b).value.frame.payload[i] == Bitwise(Xor, b[start + 4 + i], b[start + i % 4], 8)
  {
  }

  /** A client's frame ends with the mask and the payload, masked in the same way. */
  lemma ClientMasks(f: Frame, mask: Bytes, i: nat)
    requires |mask| == 4 && i < |f.payload|
    ensures var b := ClientFrame(f, mask);
            var start := |b| - |f.payload|;
            && b[start - 4..start] == mask
            && b[start + i] == Bitwise(Xor, f.payload[i], mask[i % 4], 8)
  {
  }

  const MaskedHello: Bytes := [0x81, 0x85, 0x37, 0xfa, 0x21, 0x3d, 0x7f, 0x9f, 0x4d, 0x51, 0x58]
  const Hello: Bytes := [0x48, 0x65, 0x6c, 0x6c, 0x6f]

  /** The masked "Hello" of section 5.7 of RFC 6455. */
  lemma HelloUnmasked()
    ensures Parse(MaskedHello) == Some(Found(Frame(true, 1, Hello), []))
  {
    HelloFound();
    var payload := Parse(MaskedHello).value.frame.payload;
    forall i | 0 <= i < 5 ensures payload[i] == Hello[i] {
      Unmasked(MaskedHello, i);
      BothNibbles(MaskedHello[6 + i], MaskedHello[2 + i % 4]);
      HelloNibbles(i);
    }
    assert payload == Hello;
  }

  lemma HelloFound()
    ensures Header(MaskedHello) == Some((2, 5)) && Parse(MaskedHello).Some?
    ensures Parse(MaskedHello).value.rest == [] && |Parse(MaskedHello).value.frame.payload| == 5
    ensures Parse(MaskedHello).value.frame.fin && Parse(MaskedHello).value.frame.opcode == 1
  {
    assert |MaskedHello| == 11 && MaskedHello[11..] == [];
  }

  /** An exclusive or of bytes, bit by bit. */
  function BitSum(a: int, b: int): nat {
    16 * (Differ(a / 16, b / 16, 1) + 2 * Differ(a / 16, b / 16, 2) + 4 * Differ(a / 16, b / 16, 4)
          + 8 * Differ(a / 16, b / 16, 8))
    + Differ(a, b, 1) + 2 * Differ(a, b, 2) + 4 * Differ(a, b, 4) + 8 * Differ(a, b, 8)
  }

  /** Whatever the operation gives for the five letters, it gives for the five places. */
  lemma HelloPlaces(f: (int, int) -> nat, i: nat)
    requires f(0x7f, 0x37) == 0x48 && f(0x9f, 0xfa) == 0x65 && f(0x4d, 0x21) == 0x6c && f(0x51, 0x3d) == 0x6c
    requires f(0x58, 0x37) == 0x6f && i < 5
    ensures f(MaskedHello[6 + i], MaskedHello[2 + i % 4]) == Hello[i]
  {
    assert i == 0 || i == 1 || i == 2 || i == 3 || i == 4;
  }

  lemma HelloNibbles(i: nat)
    requires i < 5
    ensures BitSum(MaskedHello[6 + i], MaskedHello[2 + i % 4]) == Hello[i]
  {
    LetterH();
    LetterE();
    LetterL();
    SecondL();
    LetterO();
    HelloPlaces((a, b) => BitSum(a, b), i);
  }

  lemma LetterH() ensures BitSum(0x7f, 0x37) == 0x48 {}
  lemma LetterE() ensures BitSum(0x9f, 0xfa) == 0x65 {}
  lemma LetterL() ensures BitSum(0x4d, 0x21) == 0x6c {}
  lemma SecondL() ensures BitSum(0x51, 0x3d) == 0x6c {}
  lemma LetterO() ensures BitSum(0x58, 0x37) == 0x6f {}

  lemma BothNibbles(a: int, b: int)
    ensures Bitwise(Xor, a, b, 8) == BitSum(a, b)
  {
    XorByte(a, b, 4);
    XorNibble(a / 16, b / 16);
    XorNibble(a, b);
  }

  /** Longer lengths have their most significant byte first. */
  lemma LongLengths()
    ensures LengthField(256, false) == [126, 1, 0]
    ensures LengthField(0x1_0000, false) == [127, 0, 0, 0, 0, 0, 1, 0, 0]
  {
    FirstBytes(256, 1, 0);
    FirstBytes(1, 0, 1);
    FirstBytes(0, 0, 0);
    assert 0x1_0000 / 0x1_0000_0000 == 0 && 0x1_0000 % 0x1_0000_0000 == 0x1_0000 == 256 * 256;
    NextBytes(0, 0, 0);
    NextBytes(1, 0, 0);
  }

  lemma FirstBytes(n: nat, a: Byte, b: Byte)
    requires n == 256 * a + b
    ensures BigEndian(n, 2) == [a, b]
  {
    assert BigEndian(a, 1) == [a];
  }

  lemma NextBytes(n: nat, a: Byte, b: Byte)
    ensures BigEndian((n * 256 + a) * 256 + b, 4) == BigEndian(n, 2) + [a, b]
  {
    var m := n * 256 + a;
    assert (m * 256 + b) / 256 == m && (m * 256 + b) % 256 == b && m / 256 == n && m % 256 == a;
    assert BigEndian(m, 3) == BigEndian(n, 2) + [a];
    assert BigEndian(m * 256 + b, 4) == BigEndian(m, 3) + [b];
  }

  lemma SliceKept(b: Bytes, more: Bytes, i: nat, j: nat)
    requires i <= j <= |b|
    ensures (b + more)[i..j] == b[i..j] && (b + more)[j..] == b[j..] + more
  {
  }

  lemma HeaderMonotone(b: Bytes, more: Bytes)
    requires |b| >= 2 && Header(b).Some?
    ensures Header(b + more) == Header(b) && Header(b).value.0 <= |b|
  {
    if |b| >= 4 { assert (b + more)[2..4] == b[2..4]; }
    if |b| >= 10 { assert (b + more)[2..10] == b[2..10]; }
  }

  /** A complete frame stays what it is when more bytes arrive. */
  lemma ParseMonotone(b: Bytes, more: Bytes)
    requires Parse(b).Some?
    ensures Parse(b + more) == Some(Found(Parse(b).value.frame, Parse(b).value.rest + more))
  {
    HeaderMonotone(b, more);
    var (start, length) := Header(b).value;
    var end := start + 4 + length;
    SliceKept(b, more, start, start + 4);
    SliceKept(b, more, start + 4, end);
  }

  lemma {:induction false} BigEndianRoundTrip(n: nat, bytes: nat)
    requires n < Power256(bytes)
    ensures Number(BigEndian(n, bytes)) == n
    decreases bytes
  {
    if bytes > 0 {
      BigEndianRoundTrip(n / 256, bytes - 1);
      var b := BigEndian(n, bytes);
      assert b[..|b| - 1] == BigEndian(n / 256, bytes - 1);
    }
  }

  function Power256(k: nat): nat { if k == 0 then 1 else 256 * Power256(k - 1) }

  lemma Carry(a: nat, b: nat, c: nat, d: nat)
    ensures 256 * (a * b + c) + d == a * (256 * b) + (256 * c + d)
  {
  }

  lemma {:induction false} NumberAppend(x: Bytes, y: Bytes)
    ensures Number(x + y) == Number(x) * Power256(|y|) + Number(y)
    decreases |y|
  {
    if y == [] {
      assert x + y == x;
    } else {
      var y1, last := y[..|y| - 1], y[|y| - 1];
      assert (x + y)[..|x + y| - 1] == x + y1 && (x + y)[|x + y| - 1] == y[|y| - 1];
      NumberAppend(x, y1);
      Carry(Number(x), Power256(|y1|), Number(y1), last);
    }
  }

  /** The two halves of a 64-bit length. */
  lemma HalvesRoundTrip(n: nat)
    requires n < 0x1_0000_0000_0000_0000
    ensures Number(BigEndian(n / 0x1_0000_0000, 4) + BigEndian(n % 0x1_0000_0000, 4)) == n
  {
    assert Power256(4) == 0x1_0000_0000;
    BigEndianRoundTrip(n / 0x1_0000_0000, 4);
    BigEndianRoundTrip(n % 0x1_0000_0000, 4);
    NumberAppend(BigEndian(n / 0x1_0000_0000, 4), BigEndian(n % 0x1_0000_0000, 4));
  }

  // ----- Frames are found again -----

  /** The length field is read as the length that it was made for, in each of its three forms. */
  lemma HeaderRoundTrip(zeroth: Byte, n: nat, masked: bool, rest: Bytes)
    requires n < 0x1_0000_0000_0000_0000
    ensures Header([zeroth] + LengthField(n, masked) + rest) == Some((1 + |LengthField(n, masked)|, n))
  {
    if n < 126 {
    } else if n < 0x1_0000 {
      ShortRoundTrip(zeroth, n, masked, rest);
    } else {
      LongRoundTrip(zeroth, n, masked, rest);
    }
  }

  lemma ShortRoundTrip(zeroth: Byte, n: nat, masked: bool, rest: Bytes)
    requires 126 <= n < 0x1_0000
    ensures Header([zeroth] + LengthField(n, masked) + rest) == Some((4, n))
  {
    assert Power256(2) == 0x1_0000;
    BigEndianRoundTrip(n, 2);
    assert ([zeroth] + LengthField(n, masked) + rest)[2..4] == BigEndian(n, 2);
  }

  lemma LongRoundTrip(zeroth: Byte, n: nat, masked: bool, rest: Bytes)
    requires 0x1_0000 <= n < 0x1_0000_0000_0000_0000
    ensures Header([zeroth] + LengthField(n, masked) + rest) == Some((10, n))
  {
    HalvesRoundTrip(n);
    var x, y := BigEndian(n / 0x1_0000_0000, 4), BigEndian(n % 0x1_0000_0000, 4);
    assert ([zeroth] + LengthField(n, masked) + rest)[2..10] == x + y;
  }

  lemma MaskTwice(payload: Bytes, mask: Bytes)
    requires |mask| == 4
    ensures Masked(Masked(payload, mask), mask) == payload
  {
    forall i | 0 <= i < |payload| ensures Masked(Masked(payload, mask), mask)[i] == payload[i] {
      EightBits();
      XorTwice(payload[i], mask[i % 4], 8);
    }
  }

  /** Where the parts of a frame are. */
  lemma FrameParts(z: Byte, field: Bytes, mask: Bytes, data: Bytes, rest: Bytes)
    requires |mask| == 4
    ensures var b, start := ([z] + field + (mask + data)) + rest, 1 + |field|;
            && b == [z] + field + (mask + data + rest) && |b| == start + 4 + |data| + |rest|
            && b[start..start + 4] == mask
            && b[start + 4..start + 4 + |data|] == data && b[start + 4 + |data|..] == rest
  {
  }

  /** Whatever a client sends in a frame, with whatever mask, and whatever follows it, is found. */
  lemma ClientFrameFound(f: Frame, mask: Bytes, rest: Bytes)
    requires |mask| == 4 && |f.payload| < 0x1_0000_0000_0000_0000
    ensures Parse(ClientFrame(f, mask) + rest) == Some(Found(f, rest))
  {
    var zeroth := (if f.fin then 0x80 else 0) + f.opcode as int;
    var field, data := LengthField(|f.payload|, true), Masked(f.payload, mask);
    FrameParts(zeroth, field, mask, data, rest);
    HeaderRoundTrip(zeroth, |f.payload|, true, mask + data + rest);
    MaskTwice(f.payload, mask);
  }

  /**
   A frame of the server says what it was made from: the same opcode, in one frame, without a mask, and the same
   payload.
   */
  lemma ServerFrameReads(opcode: Code, payload: Bytes)
    requires |payload| < 0x1_0000_0000_0000_0000
    ensures var b := MakeFrame(opcode, payload);
            && |b| >= 2 && b[0] % 0x10 == opcode && b[0] / 0x80 != 0 && b[1] < 0x80
            && Header(b).Some? && Header(b).value.1 == |payload| && b[Header(b).value.0..] == payload
  {
    HeaderRoundTrip(0x80 + opcode as int, |payload|, false, payload);
  }

  // ----- Messages -----

  /** What a frame does. A continuation of nothing is an exception. */
  function Handle(l: Link, f: Frame): Link {
    if f.opcode == 1 || f.opcode == 2 then
      var textual := f.opcode == 1;
      if f.fin then l.(textual := textual, effects := l.effects + [Receive(textual, f.payload)])
      else l.(textual := textual, fragment := Some(f.payload))
    else if f.opcode == 0 then
      if l.fragment == None then l.(crashed := true)
      else
        var all := l.fragment.value + f.payload;
        l.(fragment := Some(all), effects := if f.fin then l.effects + [Receive(l.textual, all)] else l.effects)
    else if f.opcode == 9 then l.(effects := l.effects + [Write(MakeFrame(10, f.payload))])
    else l.(effects := l.effects + [Destroy])
  }

  function Consume(l: Link, b: Bytes): State
    decreases |b|
  {
    if l.crashed then State(l, b)
    else
      match Parse(b)
      case None => State(l, b)
      case Some(Found(f, rest)) => Consume(Handle(l, f), rest)
  }

  /** A chunk arrives. */
  function Arrive(s: State, chunk: Bytes): State { Consume(s.link, s.buffer + chunk) }

  // ----- Chunks -----

  function Concat(chunks: seq<Bytes>): Bytes { if chunks == [] then [] else chunks[0] + Concat(chunks[1..]) }

  function ArriveAll(s: State, chunks: seq<Bytes>): State
    decreases |chunks|
  {
    if chunks == [] then s else ArriveAll(Arrive(s, chunks[0]), chunks[1..])
  }

  lemma ConsumeOne(l: Link, b: Bytes, f: Frame, rest: Bytes)
    requires !l.crashed && Parse(b) == Some(Found(f, rest))
    ensures Consume(l, b) == Consume(Handle(l, f), rest)
  {
  }

  /** Consuming what there is before more arrives makes no difference. */
  lemma {:induction false} ConsumeMore(l: Link, b: Bytes, more: Bytes)
    ensures Arrive(Consume(l, b), more) == Consume(l, b + more)
    decreases |b|
  {
    var found := Parse(b);
    if !l.crashed && found.Some? {
      var f, rest := found.value.frame, found.value.rest;
      ParseMonotone(b, more);
      ConsumeOne(l, b, f, rest);
      ConsumeOne(l, b + more, f, rest + more);
      ConsumeMore(Handle(l, f), rest, more);
    }
  }

  predicate Settled(s: State) { Consume(s.link, s.buffer) == s }

  lemma {:induction false} ConsumeSettles(l: Link, b: Bytes)
    ensures Settled(Consume(l, b))
    decreases |b|
  {
    var found := Parse(b);
    if !l.crashed && found.Some? {
      ConsumeOne(l, b, found.value.frame, found.value.rest);
      ConsumeSettles(Handle(l, found.value.frame), found.value.rest);
    }
  }

  /** However the bytes are cut into chunks, they have the effects that they have at once, and leave the same state. */
  lemma {:induction false} ChunksDoNotMatter(s: State, chunks: seq<Bytes>)
    requires Settled(s)
    ensures ArriveAll(s, chunks) == Arrive(s, Concat(chunks))
    decreases |chunks|
  {
    if chunks == [] {
      assert s.buffer + [] == s.buffer;
    } else {
      var b := s.buffer + chunks[0];
      ConsumeSettles(s.link, b);
      ChunksDoNotMatter(Arrive(s, chunks[0]), chunks[1..]);
      ConsumeMore(s.link, b, Concat(chunks[1..]));
      Associates(s.buffer, chunks[0], Concat(chunks[1..]));
    }
  }

  // ----- What clients say -----

  const Opened: Link := Link(None, false, [], false)

  function HandleAll(l: Link, fs: seq<Frame>): Link
    decreases |fs|
  {
    if fs == [] || l.crashed then l else HandleAll(Handle(l, fs[0]), fs[1..])
  }

  function Stream(fs: seq<Frame>, masks: seq<Bytes>): Bytes
    requires |masks| == |fs| && forall m <- masks :: |m| == 4
  {
    if fs == [] then [] else ClientFrame(fs[0], masks[0]) + Stream(fs[1..], masks[1..])
  }

  predicate Sendable(f: Frame) { |f.payload| < 0x1_0000_0000_0000_0000 }

  /** Frames that have been sent, whatever their masks, are handled one after the other. */
  lemma {:induction false} StreamHandled(l: Link, fs: seq<Frame>, masks: seq<Bytes>)
    requires |masks| == |fs| && (forall m <- masks :: |m| == 4) && (forall f <- fs :: Sendable(f))
    requires !HandleAll(l, fs).crashed
    ensures Consume(l, Stream(fs, masks)) == State(HandleAll(l, fs), [])
    decreases |fs|
  {
    if fs != [] {
      var rest := Stream(fs[1..], masks[1..]);
      CrashStays(l, fs);
      assert fs[0] in fs && masks[0] in masks;
      ClientFrameFound(fs[0], masks[0], rest);
      ConsumeOne(l, Stream(fs, masks), fs[0], rest);
      StreamHandled(Handle(l, fs[0]), fs[1..], masks[1..]);
    }
  }

  lemma CrashStays(l: Link, fs: seq<Frame>)
    requires fs != [] && !HandleAll(l, fs).crashed
    ensures !l.crashed && !HandleAll(Handle(l, fs[0]), fs[1..]).crashed
  {
  }

  /** A part of a message and the pings that come before it. */
  datatype Part = Part(pings: seq<Bytes>, payload: Bytes)

  /**
   A client sends a message in one frame, or a ping, or a message in several frames, between which there may be pings.
   */
  datatype Act =
    | Whole(textual: bool, payload: Bytes)
    | Ping(payload: Bytes)
    | Parts(textual: bool, first: Bytes, more: seq<Part>)

  function Opcode(textual: bool): Code { if textual then 1 else 2 }

  function PingFrames(pings: seq<Bytes>): seq<Frame> {
    if pings == [] then [] else [Frame(true, 9, pings[0])] + PingFrames(pings[1..])
  }

  function PartFrames(parts: seq<Part>): seq<Frame> {
    if parts == [] then []
    else PingFrames(parts[0].pings) + ([Frame(|parts| == 1, 0, parts[0].payload)] + PartFrames(parts[1..]))
  }

  function ActFrames(a: Act): seq<Frame> {
    match a
    case Whole(textual, payload) => [Frame(true, Opcode(textual), payload)]
    case Ping(payload) => [Frame(true, 9, payload)]
    case Parts(textual, first, more) => [Frame(false, Opcode(textual), first)] + PartFrames(more)
  }

  /** Every ping is answered with its payload, when it comes. */
  function Pongs(pings: seq<Bytes>): seq<Effect> {
    if pings == [] then [] else [Write(MakeFrame(10, pings[0]))] + Pongs(pings[1..])
  }

  /** The message is delivered whole when its last part has come. */
  function PartEffects(textual: bool, before: Bytes, parts: seq<Part>): seq<Effect>
    decreases |parts|
  {
    if parts == [] then []
    else
      var all := before + parts[0].payload;
      var now := if |parts| == 1 then [Receive(textual, all)] else [];
      Pongs(parts[0].pings) + (now + PartEffects(textual, all, parts[1..]))
  }

  function ActEffects(a: Act): seq<Effect> {
    match a
    case Whole(textual, payload) => [Receive(textual, payload)]
    case Ping(payload) => [Write(MakeFrame(10, payload))]
    case Parts(textual, first, more) => PartEffects(textual, first, more)
  }

  function Frames(acts: seq<Act>): seq<Frame> { if acts == [] then [] else ActFrames(acts[0]) + Frames(acts[1..]) }
  function Effects(acts: seq<Act>): seq<Effect> { if acts == [] then [] else ActEffects(acts[0]) + Effects(acts[1..]) }

  lemma {:induction false} HandleAppend(l: Link, x: seq<Frame>, y: seq<Frame>)
    ensures HandleAll(l, x + y) == HandleAll(HandleAll(l, x), y)
    decreases |x|
  {
    if x == [] {
      assert x + y == y;
    } else if !l.crashed {
      assert (x + y)[1..] == x[1..] + y;
      HandleAppend(Handle(l, x[0]), x[1..], y);
    }
  }

  function Grown(l: Link, effects: seq<Effect>): Link { l.(effects := l.effects + effects) }

  lemma GrownTwice(l: Link, x: seq<Effect>, y: seq<Effect>)
    ensures Grown(Grown(l, x), y) == Grown(l, x + y) && Grown(l, []) == l
  {
    Associates(l.effects, x, y);
    assert l.effects + [] == l.effects;
  }

  lemma {:induction false} PingsDo(l: Link, pings: seq<Bytes>)
    requires !l.crashed
    ensures HandleAll(l, PingFrames(pings)) == Grown(l, Pongs(pings))
    decreases |pings|
  {
    GrownTwice(l, [], []);
    if pings != [] {
      var pong := [Write(MakeFrame(10, pings[0]))];
      PingsDo(Grown(l, pong), pings[1..]);
      GrownTwice(l, pong, Pongs(pings[1..]));
      assert PingFrames(pings)[1..] == PingFrames(pings[1..]);
    }
  }

  /** The fragment is kept after the message; what matters is what is done. */
  ghost predicate Done(l: Link, l1: Link, effects: seq<Effect>) {
    !l1.crashed && l1.effects == l.effects + effects
  }

  lemma {:induction false} PartsDo(l: Link, parts: seq<Part>)
    requires !l.crashed && l.fragment.Some?
    ensures Done(l, HandleAll(l, PartFrames(parts)), PartEffects(l.textual, l.fragment.value, parts))
    decreases |parts|
  {
    if parts == [] {
      assert l.effects + [] == l.effects;
    } else {
      var frame, all := Frame(|parts| == 1, 0, parts[0].payload), l.fragment.value + parts[0].payload;
      var tail := PartFrames(parts[1..]);
      HandleAppend(l, PingFrames(parts[0].pings), [frame] + tail);
      PingsDo(l, parts[0].pings);
      var l1 := Grown(l, Pongs(parts[0].pings));
      var l2 := Handle(l1, frame);
      assert ([frame] + tail)[1..] == tail;
      PartsDo(l2, parts[1..]);
      var now := if |parts| == 1 then [Receive(l.textual, all)] else [];
      assert l2.effects == l1.effects + now;
      Associates(l1.effects, now, PartEffects(l.textual, all, parts[1..]));
      Associates(l.effects, Pongs(parts[0].pings), now + PartEffects(l.textual, all, parts[1..]));
    }
  }

  lemma ActDoes(l: Link, a: Act)
    requires !l.crashed
    ensures Done(l, HandleAll(l, ActFrames(a)), ActEffects(a))
  {
    var f := ActFrames(a)[0];
    var l1 := Handle(l, f);
    if a.Parts? {
      assert ActFrames(a)[1..] == PartFrames(a.more);
      PartsDo(l1, a.more);
    } else {
      assert ActFrames(a)[1..] == [];
    }
  }

  lemma {:induction false} ActsDo(l: Link, acts: seq<Act>)
    requires !l.crashed
    ensures Done(l, HandleAll(l, Frames(acts)), Effects(acts))
    decreases |acts|
  {
    if acts == [] {
      assert l.effects + [] == l.effects;
    } else {
      var l1 := HandleAll(l, ActFrames(acts[0]));
      HandleAppend(l, ActFrames(acts[0]), Frames(acts[1..]));
      ActDoes(l, acts[0]);
      ActsDo(l1, acts[1..]);
      Associates(l.effects, ActEffects(acts[0]), Effects(acts[1..]));
    }
  }

  /**
   Whatever a client says, with whatever masks, and however its bytes are cut into chunks: every
   message is delivered once and intact, and every ping is answered where it comes.
   */
  lemma Delivered(acts: seq<Act>, masks: seq<Bytes>, chunks: seq<Bytes>)
    requires |masks| == |Frames(acts)| && (forall m <- masks :: |m| == 4) && (forall f <- Frames(acts) :: Sendable(f))
    requires Concat(chunks) == Stream(Frames(acts), masks)
    ensures ArriveAll(State(Opened, []), chunks).link.effects == Effects(acts)
    ensures ArriveAll(State(Opened, []), chunks).buffer == []
  {
    ActsDo(Opened, acts);
    StreamHandled(Opened, Frames(acts), masks);
    ChunksDoNotMatter(State(Opened, []), chunks);
    assert [] + Concat(chunks) == Concat(chunks);
  }
}
