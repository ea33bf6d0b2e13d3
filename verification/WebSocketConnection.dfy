/**
 The state of a connection, and what closing one does to chunks.
 */
module WebSocketConnection {
  import opened Prelude
  import opened WebSocket

  class Connection {
    var buffer: Bytes
    var payload_fragment: Option<Bytes>
    var textual: bool
    var effects: seq<Effect>
    var crashed: bool

    ghost function Now(): Link
      reads this
    {
      Link(payload_fragment, textual, effects, crashed)
    }

    constructor ()
      ensures Now() == Opened && buffer == []
    {
      buffer, payload_fragment, textual, effects, crashed := [], None, false, [], false;
    }

    /** Takes the first frame out of the buffer, if it is complete. */
    method TakeFrame() returns (found: bool, fin: bool, opcode: Code, payload: Bytes)
      modifies this`buffer
      ensures !found ==> Parse(old(buffer)) == None && buffer == old(buffer)
      ensures found ==> Parse(old(buffer)) == Some(Found(Frame(fin, opcode, payload), buffer))
    {
      found, fin, opcode, payload := false, false, 0, [];
      if |buffer| < 2 { return; }
      fin, opcode := buffer[0] / 0x80 != 0, buffer[0] % 0x10;
      var payload_length: nat, mask_start := buffer[1] % 0x80, 2;
      if payload_length == 126 {
        mask_start := 4;
        if |buffer| < mask_start { return; }
        payload_length := Number(buffer[2..4]);
      } else if payload_length > 126 {
        mask_start := 10;
        if |buffer| < mask_start { return; }
        payload_length := Number(buffer[2..10]);
      }
      if |buffer| - mask_start < 4 + payload_length { return; }
      Sliced(buffer, mask_start, payload_length);
      buffer := buffer[mask_start..];
      var mask := buffer[..4];
      buffer := buffer[4..];
      payload := Masked(buffer[..payload_length], mask);
      buffer := buffer[payload_length..];
      found := true;
    }

    method Dispatch(fin: bool, opcode: Code, payload: Bytes)
      modifies this`payload_fragment, this`textual, this`effects, this`crashed
      ensures Now() == Handle(old(Now()), Frame(fin, opcode, payload))
    {
      if opcode == 1 || opcode == 2 {
        textual := opcode == 1;
        if fin {
          effects := effects + [Receive(textual, payload)];
        } else {
          payload_fragment := Some(payload);
        }
      } else if opcode == 0 {
        if payload_fragment == None {
          crashed := true;
          return;
        }
        payload_fragment := Some(payload_fragment.value + payload);
        if fin {
          effects := effects + [Receive(textual, payload_fragment.value)];
        }
      } else if opcode == 9 {
        effects := effects + [Write(MakeFrame(10, payload))];
      } else {
        effects := effects + [Destroy];
      }
    }

    method ConsumeBuffer()
      requires !crashed
      modifies this
      ensures State(Now(), buffer) == Consume(old(Now()), old(buffer))
      decreases |buffer|
    {
      var found, fin, opcode, payload := TakeFrame();
      if !found { return; }
      Dispatch(fin, opcode, payload);
      if !crashed { ConsumeBuffer(); }
    }

    method OnData(chunk: Bytes)
      requires !crashed
      modifies this
      ensures State(Now(), buffer) == Arrive(State(old(Now()), old(buffer)), chunk)
    {
      buffer := buffer + chunk;
      ConsumeBuffer();
    }
  }

  lemma Sliced(b: Bytes, start: nat, length: nat)
    requires start + 4 + length <= |b|
    ensures b[start..][..4] == b[start..start + 4] && b[start..][4..][..length] == b[start + 4..start + 4 + length]
    ensures b[start..][4..][length..] == b[start + 4 + length..]
  {
  }

  // ----- A socket that has been destroyed -----

  /** A destroyed socket emits no more data, but what is in the chunk that destroyed it is still consumed. */
  function Deliver(s: State, chunk: Bytes): State { if Destroy in s.link.effects then s else Arrive(s, chunk) }

  function DeliverAll(s: State, chunks: seq<Bytes>): State
    decreases |chunks|
  {
    if chunks == [] then s else DeliverAll(Deliver(s, chunks[0]), chunks[1..])
  }

  /** The effects up to the first that destroys the socket. */
  function UpTo(effects: seq<Effect>): seq<Effect> {
    if effects == [] then [] else if effects[0] == Destroy then [Destroy] else [effects[0]] + UpTo(effects[1..])
  }

  predicate Quiet(effects: seq<Effect>) { UpTo(effects) == effects }

  lemma {:induction false} UpToAppend(x: seq<Effect>, y: seq<Effect>)
    ensures UpTo(x + y) == if Destroy in x then UpTo(x) else x + UpTo(y)
    ensures |UpTo(x)| <= |x|
  {
    if x == [] {
      assert x + y == y && x + UpTo(y) == UpTo(y);
    } else {
      UpToAppend(x[1..], y);
      UpToStep(x[0], x[1..], y);
      assert [x[0]] + x[1..] == x;
    }
  }

  lemma UpToStep(e: Effect, x: seq<Effect>, y: seq<Effect>)
    requires UpTo(x + y) == if Destroy in x then UpTo(x) else x + UpTo(y)
    ensures UpTo([e] + x + y) == if Destroy in [e] + x then UpTo([e] + x) else [e] + x + UpTo(y)
    ensures |UpTo([e] + x)| <= 1 + |UpTo(x)|
  {
    Associates([e], x, y);
    Associates([e], x, UpTo(y));
    UpToCons(e, x + y);
    UpToCons(e, x);
  }

  lemma UpToCons(e: Effect, x: seq<Effect>)
    ensures UpTo([e] + x) == if e == Destroy then [e] else [e] + UpTo(x)
  {
    assert ([e] + x)[1..] == x;
  }

  predicate Extends(x: seq<Effect>, y: seq<Effect>) { |x| <= |y| && y[..|x|] == x }

  lemma ExtendsFurther(x: seq<Effect>, y: seq<Effect>, z: seq<Effect>)
    requires Extends(x, y) && Extends(y, z)
    ensures Extends(x, z)
  {
    assert z[..|x|] == z[..|y|][..|x|];
  }

  /** What is done after the first destruction does not count. */
  lemma ExtendsUpTo(x: seq<Effect>, y: seq<Effect>)
    requires Extends(x, y) && Destroy in x
    ensures UpTo(y) == UpTo(x)
  {
    assert y == x + y[|x|..];
    UpToAppend(x, y[|x|..]);
  }

  lemma HandleExtends(l: Link, f: Frame)
    ensures Extends(l.effects, Handle(l, f).effects)
    ensures Destroy in Handle(l, f).effects && Destroy !in l.effects ==>
              Handle(l, f).effects == l.effects + [Destroy] && Quiet(Handle(l, f).effects)
  {
    UpToAppend(l.effects, [Destroy]);
    assert [Destroy][1..] == [];
  }

  lemma {:induction false} ConsumeExtends(l: Link, b: Bytes)
    ensures Extends(l.effects, Consume(l, b).link.effects)
    decreases |b|
  {
    var found := Parse(b);
    if !l.crashed && found.Some? {
      var l1 := Handle(l, found.value.frame);
      ConsumeOne(l, b, found.value.frame, found.value.rest);
      HandleExtends(l, found.value.frame);
      ConsumeExtends(l1, found.value.rest);
      ExtendsFurther(l.effects, l1.effects, Consume(l1, found.value.rest).link.effects);
    }
  }

  lemma {:induction false} ArriveAllExtends(s: State, chunks: seq<Bytes>)
    ensures Extends(s.link.effects, ArriveAll(s, chunks).link.effects)
    decreases |chunks|
  {
    if chunks != [] {
      ConsumeExtends(s.link, s.buffer + chunks[0]);
      ArriveAllExtends(Arrive(s, chunks[0]), chunks[1..]);
      ExtendsFurther(s.link.effects, Arrive(s, chunks[0]).link.effects, ArriveAll(s, chunks).link.effects);
    }
  }

  lemma {:induction false} DestroyedStays(s: State, chunks: seq<Bytes>)
    requires Destroy in s.link.effects
    ensures DeliverAll(s, chunks) == s
    decreases |chunks|
  {
    if chunks != [] { DestroyedStays(s, chunks[1..]); }
  }

  /** Up to the first destruction nothing depends on the chunks. */
  lemma {:induction false} DeliverUpTo(s: State, chunks: seq<Bytes>)
    ensures Extends(DeliverAll(s, chunks).link.effects, ArriveAll(s, chunks).link.effects)
    ensures UpTo(DeliverAll(s, chunks).link.effects) == UpTo(ArriveAll(s, chunks).link.effects)
    decreases |chunks|
  {
    if Destroy in s.link.effects {
      DestroyedStays(s, chunks);
      ArriveAllExtends(s, chunks);
      ExtendsUpTo(s.link.effects, ArriveAll(s, chunks).link.effects);
    } else if chunks != [] {
      DeliverUpTo(Arrive(s, chunks[0]), chunks[1..]);
    }
  }

  /** The bytes of the first frame alone are that frame. */
  lemma ParseExact(b: Bytes, n: nat)
    requires Parse(b).Some? && n == |b| - |Parse(b).value.rest|
    ensures Parse(b[..n]) == Some(Found(Parse(b).value.frame, []))
  {
    var c := b[..n];
    var (start, length) := Header(b).value;
    assert n == start + 4 + length;
    if start == 4 { assert c[2..4] == b[2..4]; }
    if start == 10 { assert c[2..10] == b[2..10]; }
    assert c[start..start + 4] == b[start..start + 4] && c[start + 4..n] == b[start + 4..n] && c[n..] == [];
  }

  /** The bytes of the first frame and some of those after it. */
  lemma ParsePart(b: Bytes, f: Frame, rest: Bytes, k: nat)
    requires Parse(b) == Some(Found(f, rest)) && k <= |rest|
    ensures |b| - |rest| + k <= |b| && Parse(b[..|b| - |rest| + k]) == Some(Found(f, rest[..k]))
  {
    var n := |b| - |rest|;
    ParseExact(b, n);
    assert b[n..] == rest by { ParseRest(b); }
    assert b[..n + k] == b[..n] + rest[..k];
    ParseMonotone(b[..n], rest[..k]);
    assert [] + rest[..k] == rest[..k];
  }

  lemma ParseRest(b: Bytes)
    requires Parse(b).Some?
    ensures var rest := Parse(b).value.rest; b[|b| - |rest|..] == rest
  {
  }

  /** There is a cut at which all effects up to the first destruction have been had. */
  lemma {:induction false} CutFound(l: Link, b: Bytes) returns (k: nat)
    requires Destroy !in l.effects && Destroy in Consume(l, b).link.effects
    ensures k <= |b| && Consume(l, b[..k]).link.effects == UpTo(Consume(l, b).link.effects)
    decreases |b|
  {
    var f, rest := Parse(b).value.frame, Parse(b).value.rest;
    var l1 := Handle(l, f);
    ConsumeOne(l, b, f, rest);
    HandleExtends(l, f);
    var k1 := 0;
    if Destroy in l1.effects {
      CutHere(l1, rest);
    } else {
      k1 := CutFound(l1, rest);
    }
    k := CutAfter(l, b, f, rest, k1);
  }

  /** The first destruction was the last effect. */
  lemma CutHere(l: Link, rest: Bytes)
    requires Destroy in l.effects && UpTo(l.effects) == l.effects
    ensures Consume(l, rest[..0]).link.effects == UpTo(Consume(l, rest).link.effects)
  {
    ConsumeExtends(l, rest);
    ExtendsUpTo(l.effects, Consume(l, rest).link.effects);
    ConsumeNothing(l);
    assert rest[..0] == [];
  }

  lemma CutAfter(l: Link, b: Bytes, f: Frame, rest: Bytes, k1: nat) returns (k: nat)
    requires !l.crashed && Parse(b) == Some(Found(f, rest)) && k1 <= |rest|
    ensures k <= |b| && Consume(l, b[..k]) == Consume(Handle(l, f), rest[..k1])
  {
    ParsePart(b, f, rest, k1);
    k := |b| - |rest| + k1;
    ConsumeOne(l, b[..k], f, rest[..k1]);
  }

  lemma ConsumeNothing(l: Link)
    ensures Consume(l, []) == State(l, [])
  {
  }

  function AtOnce(bytes: Bytes): seq<Effect> { Consume(Opened, bytes).link.effects }
  function InChunks(chunks: seq<Bytes>): seq<Effect> { DeliverAll(State(Opened, []), chunks).link.effects }

  lemma QuietCuts(bytes: Bytes, chunks: seq<Bytes>)
    requires Quiet(AtOnce(bytes)) && Concat(chunks) == bytes
    ensures InChunks(chunks) == AtOnce(bytes)
  {
    var s := State(Opened, []);
    ConsumeNothing(Opened);
    ChunksDoNotMatter(s, chunks);
    assert [] + bytes == bytes;
    DeliverUpTo(s, chunks);
    UpToAppend(InChunks(chunks), []);
  }

  lemma {:induction false} NoisyDestroys(effects: seq<Effect>)
    ensures Destroy !in effects ==> Quiet(effects)
  {
    if effects != [] {
      NoisyDestroys(effects[1..]);
      assert effects == [effects[0]] + effects[1..];
    }
  }

  lemma {:induction false} UpToDestroys(effects: seq<Effect>)
    requires Destroy in effects
    ensures Destroy in UpTo(effects)
  {
    if effects[0] != Destroy { UpToDestroys(effects[1..]); }
  }

  lemma NoisyCut(bytes: Bytes) returns (chunks: seq<Bytes>)
    requires !Quiet(AtOnce(bytes))
    ensures Concat(chunks) == bytes && InChunks(chunks) != AtOnce(bytes)
  {
    NoisyDestroys(AtOnce(bytes));
    var k := CutFound(Opened, bytes);
    var x, y := bytes[..k], bytes[k..];
    chunks := [x, y];
    TwoChunks(x, y);
    assert x + y == bytes;
    UpToDestroys(AtOnce(bytes));
    CutOff(x, y);
  }

  /** What comes in a chunk after the socket has been destroyed has no effect. */
  lemma CutOff(x: Bytes, y: Bytes)
    requires Destroy in AtOnce(x)
    ensures InChunks([x, y]) == AtOnce(x)
  {
    var s, chunks := State(Opened, []), [x, y];
    assert Deliver(s, x) == Consume(Opened, x) by { assert [] + x == x; }
    DestroyedStays(Consume(Opened, x), [y]);
    assert chunks[1..] == [y] && DeliverAll(s, chunks) == DeliverAll(Deliver(s, chunks[0]), chunks[1..]);
  }

  lemma TwoChunks(x: Bytes, y: Bytes)
    ensures Concat([x, y]) == x + y
  {
    assert [x, y][1..] == [y] && [y][1..] == [] && Concat([y]) == y + [] == y;
  }

  // ----- What frames may follow one that closes -----

  /** The complete frames that bytes begin with. */
  function FramesIn(b: Bytes): seq<Frame>
    decreases |b|
  {
    match Parse(b)
    case None => []
    case Some(Found(f, rest)) => [f] + FramesIn(rest)
  }

  predicate Starts(f: Frame) { (f.opcode == 1 || f.opcode == 2) && !f.fin }
  predicate Closes(f: Frame) { f.opcode !in {0, 1, 2, 9} }

  /** The frame ends a message, is a ping, or closes. */
  predicate Effective(f: Frame) { if f.opcode in {0, 1, 2} then f.fin else true }

  /** By the k-th frame there has been a continuation of nothing. */
  predicate Broken(fs: seq<Frame>, k: nat, started: bool)
    requires k < |fs|
  {
    !started && exists c :: 0 <= c <= k && fs[c].opcode == 0 && forall j :: 0 <= j < c ==> !Starts(fs[j])
  }

  /** Whether a frame that closes has come before the k-th frame. */
  predicate ClosedBefore(fs: seq<Frame>, k: nat, closed: bool)
    requires k <= |fs|
  {
    closed || exists i :: 0 <= i < k && Closes(fs[i])
  }

  /** No frame after a closing one has an effect, unless an exception comes before it. */
  predicate Orderly(fs: seq<Frame>, started: bool, closed: bool) {
    forall k :: 0 <= k < |fs| && Effective(fs[k]) && ClosedBefore(fs, k, closed) ==> Broken(fs, k, started)
  }

  predicate NothingAfterClosing(fs: seq<Frame>) { Orderly(fs, false, false) }

  /** The same, frame by frame. */
  predicate Calm(fs: seq<Frame>, started: bool, closed: bool) {
    fs == []
    || (fs[0].opcode == 0 && !started)
    || (!(closed && Effective(fs[0])) && Calm(fs[1..], started || Starts(fs[0]), closed || Closes(fs[0])))
  }

  lemma BrokenNext(fs: seq<Frame>, k: nat, started: bool)
    requires k + 1 < |fs| && !(fs[0].opcode == 0 && !started)
    ensures Broken(fs, k + 1, started) <==> Broken(fs[1..], k, started || Starts(fs[0]))
  {
    var rest := fs[1..];
    if Broken(fs, k + 1, started) {
      var c :| 0 <= c <= k + 1 && fs[c].opcode == 0 && forall j :: 0 <= j < c ==> !Starts(fs[j]);
      assert rest[c - 1].opcode == 0 && !Starts(fs[0]);
      assert forall j :: 0 <= j < c - 1 ==> rest[j] == fs[j + 1];
    }
    if Broken(rest, k, started || Starts(fs[0])) {
      var c :| 0 <= c <= k && rest[c].opcode == 0 && forall j :: 0 <= j < c ==> !Starts(rest[j]);
      assert fs[c + 1].opcode == 0;
      forall j | 0 <= j < c + 1 ensures !Starts(fs[j]) {
        if j > 0 { assert fs[j] == rest[j - 1]; }
      }
    }
  }

  lemma ClosedNext(fs: seq<Frame>, k: nat, closed: bool)
    requires k + 1 < |fs|
    ensures ClosedBefore(fs, k + 1, closed) <==> ClosedBefore(fs[1..], k, closed || Closes(fs[0]))
  {
    if i :| 0 <= i < k + 1 && Closes(fs[i]) {
      if i > 0 { assert Closes(fs[1..][i - 1]); }
    }
    if i :| 0 <= i < k && Closes(fs[1..][i]) { assert Closes(fs[i + 1]); }
  }

  lemma {:induction false} CalmIsOrderly(fs: seq<Frame>, started: bool, closed: bool)
    ensures Calm(fs, started, closed) <==> Orderly(fs, started, closed)
  {
    if fs != [] {
      if fs[0].opcode == 0 && !started {
        forall k | 0 <= k < |fs| ensures Broken(fs, k, started) {
          assert fs[0].opcode == 0;
        }
      } else {
        var rest, started1, closed1 := fs[1..], started || Starts(fs[0]), closed || Closes(fs[0]);
        CalmIsOrderly(rest, started1, closed1);
        forall k | 0 <= k < |rest|
          ensures Broken(fs, k + 1, started) <==> Broken(rest, k, started1)
          ensures ClosedBefore(fs, k + 1, closed) <==> ClosedBefore(rest, k, closed1)
        {
          BrokenNext(fs, k, started);
          ClosedNext(fs, k, closed);
        }
        assert !Broken(fs, 0, started);
        if Orderly(rest, started1, closed1) && !(closed && Effective(fs[0])) {
          forall k | 0 <= k < |fs| && Effective(fs[k]) && ClosedBefore(fs, k, closed) ensures Broken(fs, k, started) {
            if k > 0 { assert rest[k - 1] == fs[k]; }
          }
        }
        if Orderly(fs, started, closed) {
          forall k | 0 <= k < |rest| && Effective(rest[k]) && ClosedBefore(rest, k, closed1)
            ensures Broken(rest, k, started1)
          {
            assert rest[k] == fs[k + 1];
          }
        }
      }
    }
  }

  /** What a frame does to a link, as far as destruction and exceptions go. */
  lemma HandleGrows(l: Link, f: Frame)
    requires !l.crashed
    ensures var l1 := Handle(l, f);
            && l1.crashed == (f.opcode == 0 && l.fragment == None)
            && (!l1.crashed ==> l1.fragment.Some? == (l.fragment.Some? || Starts(f)))
            && (Destroy in l1.effects <==> Destroy in l.effects || Closes(f))
            && |l1.effects| == |l.effects| + if Effective(f) && !l1.crashed then 1 else 0
  {
  }

  /** More is done after destruction: the effects have become noisy, and stay so. */
  lemma NoisyStays(x: seq<Effect>, y: seq<Effect>)
    requires Extends(x, y) && Destroy in x && (|x| < |y| || !Quiet(x))
    ensures !Quiet(y)
  {
    assert y == x + y[|x|..];
    UpToAppend(x, y[|x|..]);
    if |x| == |y| { assert y == x; }
  }

  lemma {:induction false} HandleAllExtends(l: Link, fs: seq<Frame>)
    ensures Extends(l.effects, HandleAll(l, fs).effects)
    decreases |fs|
  {
    if fs != [] && !l.crashed {
      HandleExtends(l, fs[0]);
      HandleAllExtends(Handle(l, fs[0]), fs[1..]);
      ExtendsFurther(l.effects, Handle(l, fs[0]).effects, HandleAll(l, fs).effects);
    }
  }

  lemma QuietGrows(l: Link, f: Frame)
    requires !l.crashed && Quiet(l.effects) && !(Destroy in l.effects && Effective(f))
    ensures Quiet(Handle(l, f).effects)
  {
    var l1 := Handle(l, f);
    if Destroy !in l.effects && |l1.effects| > |l.effects| {
      var e := l1.effects[|l.effects|];
      assert l1.effects == l.effects + [e];
      UpToAppend(l.effects, [e]);
      assert [e][1..] == [];
    }
  }

  lemma {:induction false} QuietIsCalm(l: Link, fs: seq<Frame>)
    requires !l.crashed && Quiet(l.effects)
    ensures Quiet(HandleAll(l, fs).effects) <==> Calm(fs, l.fragment.Some?, Destroy in l.effects)
    decreases |fs|
  {
    if fs != [] {
      var f, l1 := fs[0], Handle(l, fs[0]);
      HandleGrows(l, f);
      HandleExtends(l, f);
      if Destroy in l.effects && Effective(f) && !l1.crashed {
        HandleAllExtends(l1, fs[1..]);
        ExtendsFurther(l.effects, l1.effects, HandleAll(l1, fs[1..]).effects);
        NoisyStays(l.effects, HandleAll(l1, fs[1..]).effects);
      } else if l1.crashed {
        assert l1.effects == l.effects;
      } else {
        QuietGrows(l, f);
        QuietIsCalm(l1, fs[1..]);
      }
    }
  }

  lemma {:induction false} ConsumeFrames(l: Link, b: Bytes)
    ensures Consume(l, b).link == HandleAll(l, FramesIn(b))
    decreases |b|
  {
    var found := Parse(b);
    if !l.crashed && found.Some? {
      var f, rest := found.value.frame, found.value.rest;
      ConsumeOne(l, b, f, rest);
      ConsumeFrames(Handle(l, f), rest);
      assert FramesIn(b)[1..] == FramesIn(rest);
    }
  }

  /** The frames that a client has sent are found in the bytes, whatever the masks and whatever follows. */
  lemma {:induction false} FramesFound(fs: seq<Frame>, masks: seq<Bytes>, rest: Bytes)
    requires |masks| == |fs| && (forall m <- masks :: |m| == 4) && (forall f <- fs :: Sendable(f))
    ensures FramesIn(Stream(fs, masks) + rest) == fs + FramesIn(rest)
    decreases |fs|
  {
    if fs == [] {
      assert Stream(fs, masks) + rest == rest && fs + FramesIn(rest) == FramesIn(rest);
    } else {
      var stream := Stream(fs[1..], masks[1..]);
      assert Stream(fs, masks) == ClientFrame(fs[0], masks[0]) + stream by { assert masks[0] in masks; }
      assert Sendable(fs[0]) by { assert fs[0] in fs; }
      FramesFound(fs[1..], masks[1..], rest);
      FrameFound(fs[0], masks[0], stream, rest, fs[1..] + FramesIn(rest));
      Reassembled(fs, FramesIn(rest));
    }
  }

  lemma Reassembled(fs: seq<Frame>, more: seq<Frame>)
    requires fs != []
    ensures [fs[0]] + (fs[1..] + more) == fs + more
  {
  }

  lemma FrameFound(f: Frame, mask: Bytes, stream: Bytes, rest: Bytes, frames: seq<Frame>)
    requires |mask| == 4 && Sendable(f) && FramesIn(stream + rest) == frames
    ensures FramesIn(ClientFrame(f, mask) + stream + rest) == [f] + frames
  {
    Associates(ClientFrame(f, mask), stream, rest);
    ClientFrameFound(f, mask, stream + rest);
  }

  lemma QuietBytes(bytes: Bytes)
    ensures Quiet(AtOnce(bytes)) <==> NothingAfterClosing(FramesIn(bytes))
  {
    ConsumeFrames(Opened, bytes);
    QuietIsCalm(Opened, FramesIn(bytes));
    CalmIsOrderly(FramesIn(bytes), false, false);
  }

  /** However bytes are cut, they have the effects that they have at once. */
  ghost predicate CutsAgree(bytes: Bytes) {
    forall chunks :: Concat(chunks) == bytes ==> InChunks(chunks) == AtOnce(bytes)
  }

  /**
   Bytes have the same effects however they are cut if and only if no frame in them that
   comes after a closing one has an effect, or an exception comes before it.
   */
  lemma CutsDoNotMatter(bytes: Bytes)
    ensures CutsAgree(bytes) <==> NothingAfterClosing(FramesIn(bytes))
  {
    QuietBytes(bytes);
    if Quiet(AtOnce(bytes)) {
      forall chunks | Concat(chunks) == bytes ensures InChunks(chunks) == AtOnce(bytes) {
        QuietCuts(bytes, chunks);
      }
    } else {
      var chunks := NoisyCut(bytes);
    }
  }

  /** The same of what a client sends: frames with whatever masks, and perhaps a part of another one. */
  lemma ClientCutsDoNotMatter(fs: seq<Frame>, masks: seq<Bytes>, part: Bytes)
    requires |masks| == |fs| && (forall m <- masks :: |m| == 4) && (forall f <- fs :: Sendable(f))
    requires Parse(part) == None
    ensures CutsAgree(Stream(fs, masks) + part) <==> NothingAfterClosing(fs)
  {
    FramesFound(fs, masks, part);
    assert fs + [] == fs;
    CutsDoNotMatter(Stream(fs, masks) + part);
  }

  /** One frame and what follows it, from the beginning. */
  lemma FrameAtOnce(l: Link, f: Frame, mask: Bytes, rest: Bytes)
    requires !l.crashed && |mask| == 4 && Sendable(f)
    ensures Consume(l, ClientFrame(f, mask) + rest) == Consume(Handle(l, f), rest)
  {
    ClientFrameFound(f, mask, rest);
    ConsumeOne(l, ClientFrame(f, mask) + rest, f, rest);
  }

  lemma OneChunk(bytes: Bytes)
    ensures InChunks([bytes]) == AtOnce(bytes)
  {
    assert [] + bytes == bytes && DeliverAll(State(Opened, []), [bytes]) == Deliver(State(Opened, []), bytes);
  }

  /** A ping after a close is answered if it comes in the same chunk, and not if it comes in the next. */
  lemma PingAfterClose(x: Bytes, y: Bytes)
    requires |x| == 4 && |y| == 4
    ensures var close, ping := ClientFrame(Frame(true, 8, []), x), ClientFrame(Frame(true, 9, []), y);
            InChunks([close + ping]) == [Destroy, Write(MakeFrame(10, []))] && InChunks([close, ping]) == [Destroy]
  {
    var f, g := Frame(true, 8, []), Frame(true, 9, []);
    var close, ping := ClientFrame(f, x), ClientFrame(g, y);
    var closed := Handle(Opened, f);
    FrameAtOnce(Opened, f, x, ping);
    FrameAtOnce(Opened, f, x, []);
    FrameAtOnce(closed, g, y, []);
    assert close + [] == close && ping + [] == ping;
    ConsumeNothing(closed);
    ConsumeNothing(Handle(closed, g));
    OneChunk(close + ping);
    CutOff(close, ping);
  }
}
