/**
 The primitive words of the dictionary: what each is documented to do, and the
 instruction it stands for.
 */
module UCodeWords {
  import opened Prelude
  import opened Bits
  import opened UCodeCpu

  datatype Constant = Zero | One | MinusOne | Msb

  datatype Unary =
    | LsbAnd | MsbAnd | LsbOr | MsbOr | Invert | Negate | Increment | Decrement | Double
    | Rol | Rol2 | Rol4 | Rol8 | Asr | Asr2 | Asr4

  datatype Binary = Plus | Minus | Times | BitAnd | BitXor | BitOr

  datatype Place = Program | Colour | Device | QuadT | QuadX | QuadY | QuadZ

  datatype Prim =
    | Nop | Debug | Drop | Dup | Swap | Over | Rot | Unrot
    | Push(constant: Constant) | Calc1(unary: Unary) | Calc2(binary: Binary)
    | Fetch(place: Place) | Store(place: Place)
    | ToR | RFrom | RFetch | RDrop
    | Reset | Fail

  // ----- Instructions -----

  function UnaryCode(u: Unary): Word {
    match u
    case LsbAnd => 0x0314 case MsbAnd => 0x0324 case LsbOr => 0x0316 case MsbOr => 0x0326
    case Invert => 0x0335 case Negate => 0x03C2 case Increment => 0x0311 case Decrement => 0x0312
    case Double => 0x0301 case Rol => 0x0307 case Rol2 => 0x0308 case Rol4 => 0x0309
    case Rol8 => 0x030A case Asr => 0x030B case Asr2 => 0x030C case Asr4 => 0x030D
  }

  function BinaryCode(b: Binary): Word {
    match b
    case Plus => 0x0741 case Minus => 0x0742 case Times => 0x0743
    case BitAnd => 0x0744 case BitXor => 0x0745 case BitOr => 0x0746
  }

  function ConstantCode(c: Constant): Word {
    match c case Zero => 0x02C0 case One => 0x02D6 case MinusOne => 0x02F6 case Msb => 0x02E6
  }

  function FetchCode(place: Place): Word {
    match place
    case Program => 0x030F case Colour => 0x032F case Device => 0x033F
    case QuadT => 0x034F case QuadX => 0x035F case QuadY => 0x036F case QuadZ => 0x037F
  }

  function StoreCode(place: Place): Word {
    match place
    case Program => 0x098F case Colour => 0x09AF case Device => 0x09BF
    case QuadT => 0x09CF case QuadX => 0x09DF case QuadY => 0x09EF case QuadZ => 0x09FF
  }

  function Opcode(p: Prim): Word {
    match p
    case Nop => 0x0000 case Debug => 0x00F0 case Drop => 0x0100 case Dup => 0x0200
    case Swap => 0x0400 case Over => 0x0240 case Rot => 0x0500 case Unrot => 0x0600
    case Push(c) => ConstantCode(c) case Calc1(u) => UnaryCode(u) case Calc2(b) => BinaryCode(b)
    case Fetch(place) => FetchCode(place) case Store(place) => StoreCode(place)
    case ToR => 0x2100 case RFrom => 0x1280 case RFetch => 0x0280 case RDrop => 0x1000
    case Reset => 0x11F0 case Fail => 0x000E
  }

  /** `;` joins these words: their instructions have no effect on the return stack. */
  predicate Joins(p: Prim) { p != ToR && p != RFrom && p != RDrop && p != Reset }

  // ----- Meanings -----

  function Signed(a: Word): int { if a >= 0x8000 then a - 0x1_0000 else a }

  function UnaryMeaning(u: Unary, a: Word): Word {
    match u
    case LsbAnd => a % 2
    case MsbAnd => if a >= 0x8000 then 0x8000 else 0
    case LsbOr => if a % 2 == 1 then a else a + 1
    case MsbOr => if a >= 0x8000 then a else a + 0x8000
    case Invert => 0xFFFF - a
    case Negate => if a == 0 then 0 else 0x1_0000 - a
    case Increment => if a == 0xFFFF then 0 else a + 1
    case Decrement => if a == 0 then 0xFFFF else a - 1
    case Double => Low16(a * 2)
    case Rol => a % 0x8000 * 2 + a / 0x8000
    case Rol2 => a % 0x4000 * 4 + a / 0x4000
    case Rol4 => a % 0x1000 * 16 + a / 0x1000
    case Rol8 => a % 0x100 * 256 + a / 0x100
    case Asr => Low16(Signed(a) / 2)
    case Asr2 => Low16(Signed(a) / 4)
    case Asr4 => Low16(Signed(a) / 16)
  }

  function BinaryMeaning(op: Binary, a: Word, b: Word): Word {
    match op
    case Plus => Low16(a + b)
    case Minus => Low16(a - b)
    case Times => Low16(a * b)
    case BitAnd => Low16(Bitwise(And, a, b, Width))
    case BitXor => Low16(Bitwise(Xor, a, b, Width))
    case BitOr => Low16(Bitwise(Or, a, b, Width))
  }

  function ConstantMeaning(c: Constant): Word {
    match c case Zero => 0 case One => 1 case MinusOne => 0xFFFF case Msb => 0x8000
  }

  function Popped(d: Cells): Cells { d[1..] + [d[11]] }
  function Pushed(d: Cells, x: Word): Cells { [x] + d[..11] }

  /** The data stack after a word that works on it alone; None for any other word. */
  function StackMeaning(p: Prim, d: Cells): Option<Cells> {
    match p
    case Nop => Some(d)
    case Debug => Some(d)
    case Drop => Some(Popped(d))
    case Dup => Some(Pushed(d, d[0]))
    case Swap => Some([d[1], d[0]] + d[2..])
    case Over => Some(Pushed(d, d[1]))
    case Rot => Some([d[2], d[0], d[1]] + d[3..])
    case Unrot => Some([d[1], d[2], d[0]] + d[3..])
    case Push(c) => Some(Pushed(d, ConstantMeaning(c)))
    case Calc1(u) => Some(Pushed(Popped(d), UnaryMeaning(u, d[0])))
    case Calc2(b) => Some(Pushed(Popped(Popped(d)), BinaryMeaning(b, d[1], d[0])))
    case _ => None
  }

  // ----- Bits -----

  lemma {:induction false} BitwiseZero(op: BitOp, a: int, n: nat)
    requires 0 <= a < Power(n)
    ensures Bitwise(op, a, 0, n) == if op == And then 0 else a
    decreases n
  {
    if n > 0 { BitwiseZero(op, a / 2, n - 1); }
  }

  lemma {:induction false} BitwiseFromZero(b: int, n: nat)
    requires 0 <= b < Power(n)
    ensures Bitwise(Or, 0, b, n) == b
    decreases n
  {
    if n > 0 { BitwiseFromZero(b / 2, n - 1); }
  }

  lemma OrZero(b: Word)
    ensures Bitwise(Or, 0, b, Width) == b
  {
    Powers();
    BitwiseFromZero(b, Width);
  }

  lemma BitwiseLow(op: BitOp, a: int, n: nat)
    requires n > 0 && 0 <= a < Power(n)
    ensures Bitwise(op, a, 1, n) == (if op == And then 0 else a / 2 * 2) + Bit(op, a % 2, 1)
  {
    BitwiseZero(op, a / 2, n - 1);
  }

  lemma {:induction false} BitwiseHigh(op: BitOp, a: int, n: nat)
    requires op != Xor && 0 <= a < 2 * Power(n)
    ensures Bitwise(op, a, Power(n), n + 1)
         == if op == And then (if a >= Power(n) then Power(n) else 0) else (if a >= Power(n) then a else a + Power(n))
    decreases n
  {
    if n > 0 {
      BitwiseHigh(op, a / 2, n - 1);
      assert Power(n) / 2 == Power(n - 1) && Power(n) % 2 == 0;
    }
  }

  lemma {:induction false} BitwiseInvert(a: int, n: nat)
    requires 0 <= a < Power(n)
    ensures Bitwise(Xor, a, Power(n) - 1, n) == Power(n) - 1 - a
    decreases n
  {
    if n > 0 { BitwiseInvert(a / 2, n - 1); }
  }

  lemma Powers()
    ensures Power(15) == 0x8000 && Power(16) == 0x1_0000
  {
    assert Power(4) == 16;
    assert Power(8) == 256;
    assert Power(12) == 4096;
  }

  lemma RotatesOnce(a: Word)
    ensures (a * 2 + a / 0x8000) % 0x1_0000 == a % 0x8000 * 2 + a / 0x8000
  {
  }

  lemma RotatesTwice(a: Word)
    ensures (a * 4 + a / 0x4000) % 0x1_0000 == a % 0x4000 * 4 + a / 0x4000
  {
  }

  lemma RotatesNibble(a: Word)
    ensures (a * 16 + a / 0x1000) % 0x1_0000 == a % 0x1000 * 16 + a / 0x1000
  {
  }

  lemma RotatesByte(a: Word)
    ensures (a * 256 + a / 0x100) % 0x1_0000 == a % 0x100 * 256 + a / 0x100
  {
  }

  lemma ShiftsOnce(a: Word, sign: int)
    requires sign == if a >= 0x8000 then 1 else 0
    ensures Low16(a / 2 + sign * 0x8000) == Low16(Signed(a) / 2)
  {
  }

  lemma ShiftsTwice(a: Word, sign: int)
    requires sign == if a >= 0x8000 then 1 else 0
    ensures Low16(a / 4 + sign * 0xC000) == Low16(Signed(a) / 4)
  {
  }

  lemma ShiftsNibble(a: Word, sign: int)
    requires sign == if a >= 0x8000 then 1 else 0
    ensures Low16(a / 16 + sign * 0xF000) == Low16(Signed(a) / 16)
  {
  }

  lemma LowMask(a: Word)
    ensures Bitwise(And, a, 1, Width) == a % 2
  {
    Powers();
    BitwiseLow(And, a, Width);
  }

  lemma LowSet(a: Word)
    ensures Bitwise(Or, a, 1, Width) == if a % 2 == 1 then a else a + 1
  {
    Powers();
    BitwiseLow(Or, a, Width);
    assert a == a / 2 * 2 + a % 2;
  }

  lemma HighMasks(a: Word)
    ensures Bitwise(And, a, 0x8000, Width) == if a >= 0x8000 then 0x8000 else 0
    ensures Bitwise(Or, a, 0x8000, Width) == if a >= 0x8000 then a else a + 0x8000
  {
    Powers();
    BitwiseHigh(And, a, Width - 1);
    BitwiseHigh(Or, a, Width - 1);
  }

  lemma FullMask(a: Word)
    ensures Bitwise(Xor, a, 0xFFFF, Width) == 0xFFFF - a
  {
    Powers();
    BitwiseInvert(a, Width);
  }

  // ----- Steps -----

  /** The instruction of a word, with or without the return that `;` adds to it. */
  function Fused(p: Prim, exit: bool): Word
    requires Opcode(p) < 0x1000
  {
    if exit then Opcode(p) + 0x5000 else Opcode(p)
  }

  /** The fields of an instruction that is not a control instruction, without its effect on the return stack. */
  datatype Parts = Parts(effect: nat, a: nat, b: nat, op: nat)

  function UnaryParts(u: Unary): Parts {
    match u
    case LsbAnd => Parts(3, 0, 1, 4) case MsbAnd => Parts(3, 0, 2, 4) case LsbOr => Parts(3, 0, 1, 6)
    case MsbOr => Parts(3, 0, 2, 6) case Invert => Parts(3, 0, 3, 5) case Negate => Parts(3, 3, 0, 2)
    case Increment => Parts(3, 0, 1, 1) case Decrement => Parts(3, 0, 1, 2) case Double => Parts(3, 0, 0, 1)
    case Rol => Parts(3, 0, 0, 7) case Rol2 => Parts(3, 0, 0, 8) case Rol4 => Parts(3, 0, 0, 9)
    case Rol8 => Parts(3, 0, 0, 10) case Asr => Parts(3, 0, 0, 11) case Asr2 => Parts(3, 0, 0, 12)
    case Asr4 => Parts(3, 0, 0, 13)
  }

  function BinaryOp(b: Binary): nat {
    match b case Plus => 1 case Minus => 2 case Times => 3 case BitAnd => 4 case BitXor => 5 case BitOr => 6
  }

  function Bank(place: Place): nat {
    match place case Program => 0 case Colour => 0 case Device => 0 case _ => 1
  }

  function Lane(place: Place): nat {
    match place
    case Program => 0 case Colour => 2 case Device => 3
    case QuadT => 0 case QuadX => 1 case QuadY => 2 case QuadZ => 3
  }

  function PartsOf(p: Prim): Parts {
    match p
    case Debug => Parts(0, 3, 3, 0) case Drop => Parts(1, 0, 0, 0) case Dup => Parts(2, 0, 0, 0)
    case Swap => Parts(4, 0, 0, 0) case Over => Parts(2, 1, 0, 0)
    case Rot => Parts(5, 0, 0, 0) case Unrot => Parts(6, 0, 0, 0)
    case Push(Zero) => Parts(2, 3, 0, 0) case Push(One) => Parts(2, 3, 1, 6)
    case Push(MinusOne) => Parts(2, 3, 3, 6) case Push(Msb) => Parts(2, 3, 2, 6)
    case Calc1(u) => UnaryParts(u)
    case Calc2(b) => Parts(7, 1, 0, BinaryOp(b))
    case Fetch(place) => Parts(3, Bank(place), Lane(place), 15)
    case Store(place) => Parts(1, 2 + Bank(place), Lane(place), 15)
    case Fail => Parts(0, 0, 0, 14)
    case RFetch => Parts(2, 2, 0, 0)
    case _ => Parts(0, 0, 0, 0)
  }

  /** The instruction has these fields. */
  predicate Encodes(i: Word, s: Parts, exit: bool) {
    && i != 0x11F0 && !Flag(i, 0x8000) && Flag(i, 0x4000) == exit && i / 0x1000 % 4 == (if exit then 1 else 0)
    && i / 0x100 % 8 == s.effect && i % 0x10 == s.op && i / 0x10 % 4 == s.b && i / 0x40 % 4 == s.a
  }

  lemma UnaryEncodes(u: Unary)
    ensures UnaryCode(u) < 0x1000 && Encodes(UnaryCode(u), UnaryParts(u), false)
  {
  }

  lemma BinaryEncodes(b: Binary)
    ensures BinaryCode(b) < 0x1000 && Encodes(BinaryCode(b), Parts(7, 1, 0, BinaryOp(b)), false)
  {
  }

  lemma ConstantEncodes(k: Constant)
    ensures ConstantCode(k) < 0x1000 && Encodes(ConstantCode(k), PartsOf(Push(k)), false)
  {
  }

  lemma FetchEncodes(place: Place)
    ensures FetchCode(place) < 0x1000 && Encodes(FetchCode(place), Parts(3, Bank(place), Lane(place), 15), false)
  {
  }

  lemma StoreEncodes(place: Place)
    ensures StoreCode(place) < 0x1000 && Encodes(StoreCode(place), Parts(1, 2 + Bank(place), Lane(place), 15), false)
  {
  }

  lemma OpcodeEncodes(p: Prim)
    requires Joins(p)
    ensures Opcode(p) < 0x1000 && Encodes(Opcode(p), PartsOf(p), false)
  {
    match p
    case Calc1(u) => UnaryEncodes(u);
    case Calc2(b) => BinaryEncodes(b);
    case Push(k) => ConstantEncodes(k);
    case Fetch(place) => FetchEncodes(place);
    case Store(place) => StoreEncodes(place);
    case _ => PlainEncodes(p);
  }

  lemma PlainEncodes(p: Prim)
    requires Joins(p) && !p.Calc1? && !p.Calc2? && !p.Push? && !p.Fetch? && !p.Store?
    ensures Opcode(p) < 0x1000 && Encodes(Opcode(p), PartsOf(p), false)
  {
  }

  lemma JoinsByOpcode(p: Prim)
    ensures Joins(p) <==> Opcode(p) < 0x1000
  {
    if Joins(p) { OpcodeEncodes(p); }
  }

  /** The bits of EXIT leave the other fields alone. */
  lemma ExitEncodes(w: Word, s: Parts)
    requires w < 0x1000 && Encodes(w, s, false)
    ensures Encodes(w + 0x5000, s, true)
  {
    ExitFields(w, w + 0x5000);
    ExitBits(w + 0x5000);
  }

  lemma ExitFields(w: Word, i: Word)
    requires w < 0x1000 && i == w + 0x5000
    ensures i / 0x100 % 8 == w / 0x100 % 8 && i % 0x10 == w % 0x10
    ensures i / 0x10 % 4 == w / 0x10 % 4 && i / 0x40 % 4 == w / 0x40 % 4
  {
    LowFields(w, i);
    assert i / 0x100 == w / 0x100 + 0x50 && i / 0x40 == w / 0x40 + 0x140;
  }

  lemma LowFields(w: Word, i: Word)
    requires i == w + 0x5000
    ensures i % 0x10 == w % 0x10 && i / 0x10 % 4 == w / 0x10 % 4
  {
    assert i / 0x10 == w / 0x10 + 0x500;
  }

  lemma ExitBits(i: Word)
    requires 0x5000 <= i < 0x6000
    ensures i != 0x11F0 && !Flag(i, 0x8000) && Flag(i, 0x4000) && i / 0x1000 % 4 == 1
  {
    assert i / 0x8000 == 0 && i / 0x4000 == 1 && i / 0x1000 == 5;
  }

  lemma FusedEncodes(p: Prim, exit: bool)
    requires Joins(p)
    ensures Opcode(p) < 0x1000 && Encodes(Fused(p, exit), PartsOf(p), exit)
  {
    OpcodeEncodes(p);
    if exit { ExitEncodes(Opcode(p), PartsOf(p)); }
  }

  predicate Peek(op: nat) { true }

  /** What the arithmetic unit computes is x. Only where a proof peeks at the operation is it known what that is. */
  ghost predicate Computes(op: nat, a: nat, b: nat, d: Cells, tors: Word, x: Word) {
    forall o {:trigger Peek(o)} :: Peek(o) && o == op ==> x == Low16(Alu(op, SourceA(a, d, tors), SourceB(b, d)))
  }

  lemma EffectsOf(d: Cells, x: Word)
    ensures Perform(d, 0, x) == d && Perform(d, 1, x) == Popped(d) && Perform(d, 2, x) == Pushed(d, x)
    ensures Perform(d, 3, x) == Pushed(Popped(d), x)
    ensures Perform(d, 7, x) == Pushed(Popped(Popped(d)), x)
  {
  }

  lemma SwapEffects(d: Cells, x: Word)
    ensures Perform(d, 4, x) == [d[1], d[0]] + d[2..]
    ensures Perform(d, 5, x) == [d[2], d[0], d[1]] + d[3..]
    ensures Perform(d, 6, x) == [d[1], d[2], d[0]] + d[3..]
  {
  }

  lemma LsbAndComputes(d: Cells, tors: Word)
    ensures Computes(4, 0, 1, d, tors, d[0] % 2)
  {
    LowMask(d[0]);
  }

  lemma MsbAndComputes(d: Cells, tors: Word)
    ensures Computes(4, 0, 2, d, tors, if d[0] >= 0x8000 then 0x8000 else 0)
  {
    HighMasks(d[0]);
  }

  lemma LsbOrComputes(d: Cells, tors: Word)
    ensures Computes(6, 0, 1, d, tors, if d[0] % 2 == 1 then d[0] else d[0] + 1)
  {
    LowSet(d[0]);
    var x: Word := if d[0] % 2 == 1 then d[0] else d[0] + 1;
    assert Low16(x) == x;
  }

  lemma MsbOrComputes(d: Cells, tors: Word)
    ensures Computes(6, 0, 2, d, tors, if d[0] >= 0x8000 then d[0] else d[0] + 0x8000)
  {
    HighMasks(d[0]);
  }

  lemma InvertComputes(d: Cells, tors: Word)
    ensures Computes(5, 0, 3, d, tors, 0xFFFF - d[0])
  {
    FullMask(d[0]);
  }

  lemma NegateComputes(d: Cells, tors: Word)
    ensures Computes(2, 3, 0, d, tors, if d[0] == 0 then 0 else 0x1_0000 - d[0])
  {
  }

  lemma IncrementComputes(d: Cells, tors: Word)
    ensures Computes(1, 0, 1, d, tors, if d[0] == 0xFFFF then 0 else d[0] + 1)
  {
  }

  lemma DecrementComputes(d: Cells, tors: Word)
    ensures Computes(2, 0, 1, d, tors, if d[0] == 0 then 0xFFFF else d[0] - 1)
  {
  }

  lemma DoubleComputes(d: Cells, tors: Word)
    ensures Computes(1, 0, 0, d, tors, Low16((d[0] as int) * 2))
  {
  }

  lemma RolComputes(d: Cells, tors: Word)
    ensures Computes(7, 0, 0, d, tors, d[0] % 0x8000 * 2 + d[0] / 0x8000)
  {
    RotatesOnce(d[0]);
  }

  lemma Rol2Computes(d: Cells, tors: Word)
    ensures Computes(8, 0, 0, d, tors, d[0] % 0x4000 * 4 + d[0] / 0x4000)
  {
    RotatesTwice(d[0]);
  }

  lemma Rol4Computes(d: Cells, tors: Word)
    ensures Computes(9, 0, 0, d, tors, d[0] % 0x1000 * 16 + d[0] / 0x1000)
  {
    RotatesNibble(d[0]);
  }

  lemma Rol8Computes(d: Cells, tors: Word)
    ensures Computes(10, 0, 0, d, tors, d[0] % 0x100 * 256 + d[0] / 0x100)
  {
    RotatesByte(d[0]);
  }

  lemma AsrComputes(d: Cells, tors: Word)
    ensures Computes(11, 0, 0, d, tors, Low16(Signed(d[0]) / 2))
  {
    ShiftsOnce(d[0], if d[0] >= 0x8000 then 1 else 0);
  }

  lemma Asr2Computes(d: Cells, tors: Word)
    ensures Computes(12, 0, 0, d, tors, Low16(Signed(d[0]) / 4))
  {
    ShiftsTwice(d[0], if d[0] >= 0x8000 then 1 else 0);
  }

  lemma Asr4Computes(d: Cells, tors: Word)
    ensures Computes(13, 0, 0, d, tors, Low16(Signed(d[0]) / 16))
  {
    ShiftsNibble(d[0], if d[0] >= 0x8000 then 1 else 0);
  }

  /** The arithmetic unit computes what the unary words are documented to compute. */
  lemma UnaryComputes(u: Unary, d: Cells, tors: Word)
    ensures var s := UnaryParts(u); Computes(s.op, s.a, s.b, d, tors, UnaryMeaning(u, d[0]))
  {
    match u
    case LsbAnd => LsbAndComputes(d, tors);
    case MsbAnd => MsbAndComputes(d, tors);
    case LsbOr => LsbOrComputes(d, tors);
    case MsbOr => MsbOrComputes(d, tors);
    case Invert => InvertComputes(d, tors);
    case Negate => NegateComputes(d, tors);
    case Increment => IncrementComputes(d, tors);
    case Decrement => DecrementComputes(d, tors);
    case Double => DoubleComputes(d, tors);
    case Rol => RolComputes(d, tors);
    case Rol2 => Rol2Computes(d, tors);
    case Rol4 => Rol4Computes(d, tors);
    case Rol8 => Rol8Computes(d, tors);
    case Asr => AsrComputes(d, tors);
    case Asr2 => Asr2Computes(d, tors);
    case Asr4 => Asr4Computes(d, tors);
  }

  lemma BinaryComputes(op: Binary, d: Cells, tors: Word)
    ensures Computes(BinaryOp(op), 1, 0, d, tors, BinaryMeaning(op, d[1], d[0]))
  {
  }

  lemma OrComputes(b: nat, d: Cells, tors: Word)
    requires 1 <= b <= 3
    ensures Computes(6, 3, b, d, tors, SourceB(b, d))
  {
    OrZero(SourceB(b, d));
  }

  lemma ConstantComputes(k: Constant, d: Cells, tors: Word)
    ensures var s := PartsOf(Push(k)); Computes(s.op, s.a, s.b, d, tors, ConstantMeaning(k))
  {
    match k
    case Zero => PassComputes(3, 0, d, tors);
    case One => OrComputes(1, d, tors);
    case MinusOne => OrComputes(3, d, tors);
    case Msb => OrComputes(2, d, tors);
  }

  lemma PassComputes(a: nat, b: nat, d: Cells, tors: Word)
    ensures Computes(0, a, b, d, tors, SourceA(a, d, tors))
  {
  }

  /** What a word that works on the data stack alone hands to its stack effect. */
  function Operand(p: Prim, d: Cells): Word {
    match p
    case Calc1(u) => UnaryMeaning(u, d[0])
    case Calc2(b) => BinaryMeaning(b, d[1], d[0])
    case Push(k) => ConstantMeaning(k)
    case Over => d[1]
    case Debug => 0
    case _ => d[0]
  }

  lemma OperandComputes(p: Prim, d: Cells, tors: Word)
    requires StackMeaning(p, d).Some?
    ensures var s := PartsOf(p); Computes(s.op, s.a, s.b, d, tors, Operand(p, d))
  {
    match p
    case Calc1(u) => UnaryComputes(u, d, tors);
    case Calc2(b) => BinaryComputes(b, d, tors);
    case Push(k) => ConstantComputes(k, d, tors);
    case _ => PassComputes(PartsOf(p).a, PartsOf(p).b, d, tors);
  }

  lemma EffectMeans(p: Prim, d: Cells)
    requires StackMeaning(p, d).Some?
    ensures PartsOf(p).op < 0xE && PartsOf(p).effect < 8
    ensures StackMeaning(p, d) == Some(Perform(d, PartsOf(p).effect, Operand(p, d)))
  {
    EffectsOf(d, Operand(p, d));
    SwapEffects(d, Operand(p, d));
  }

  predicate At(c: Cpu, i: Word) { c.pc < 0x1000 && c.pc in c.mem && c.mem[c.pc] == i }

  lemma Evaluates(c: Cpu, i: Word, s: Parts, exit: bool, x: Word)
    requires At(c, i) && Encodes(i, s, exit) && s.op < 0xE && Computes(s.op, s.a, s.b, c.d, c.r[0], x)
    ensures Execute(c) == Complete(c.(pc := c.pc + 1), i, x)
  {
    assert Peek(s.op);
  }

  lemma Opens(step: Cpu -> Result, c: Cpu, r: Result)
    requires Obeys(step) && Execute(c) == r
    ensures step(c) == r
  {
    assert Look(c);
  }

  lemma EvaluationSteps(step: Cpu -> Result, c: Cpu, i: Word, s: Parts, exit: bool, x: Word)
    requires Obeys(step) && At(c, i) && Encodes(i, s, exit) && s.op < 0xE
    requires Computes(s.op, s.a, s.b, c.d, c.r[0], x)
    ensures step(c) == Running(Cpu(if exit then c.r[0] % 0x1000 else c.pc + 1, Perform(c.d, s.effect, x),
                                   if exit then Popped(c.r) else c.r, c.mem, c.world))
  {
    Evaluates(c, i, s, exit, x);
    Opens(step, c, Complete(c.(pc := c.pc + 1), i, x));
  }

  /** A step at a word that works on the data stack alone does what the word is documented to do. */
  lemma StackWordSteps(step: Cpu -> Result, c: Cpu, p: Prim, exit: bool, d: Cells)
    requires Obeys(step) && StackMeaning(p, c.d) == Some(d) && Opcode(p) < 0x1000 && At(c, Fused(p, exit))
    ensures step(c) == Running(Cpu(if exit then c.r[0] % 0x1000 else c.pc + 1, d,
                                   if exit then Popped(c.r) else c.r, c.mem, c.world))
  {
    var i, s, x := Fused(p, exit), PartsOf(p), Operand(p, c.d);
    EffectMeans(p, c.d);
    OperandComputes(p, c.d, c.r[0]);
    FusedEncodes(p, exit);
    EvaluationSteps(step, c, i, s, exit, x);
  }

  lemma FailSteps(step: Cpu -> Result, c: Cpu, exit: bool)
    requires Obeys(step) && At(c, Fused(Fail, exit))
    ensures step(c) == Halted
  {
    FusedEncodes(Fail, exit);
    assert Look(c);
  }

  // ----- Memory words -----

  function Range(place: Place): nat { Bank(place) * 4 + Lane(place) }

  /** The memory range and the direction follow from the fields. */
  lemma RangeEncoded(i: Word, a: nat, b: nat, write: nat)
    requires i / 0x10 % 4 == b && i / 0x40 % 4 == write * 2 + a && a < 2 && write < 2
    ensures i / 0x10 % 8 == a * 4 + b && Flag(i, 0x80) == (write == 1)
  {
    assert i / 0x40 == i / 0x10 / 4;
    assert i / 0x80 == i / 0x40 / 2;
  }

  /** What a memory word does, given the outcome of its access. */
  function Accessed(c: Cpu, write: bool, exit: bool, access: Access): Result {
    match access
    case BadAccess => Halted
    case Access(None, _, _) => Running(c.(pc := c.pc + 1))
    case Access(Some(x), mem, world) =>
      Running(Cpu(if exit then c.r[0] % 0x1000 else c.pc + 1,
                  if write then Popped(Popped(c.d)) else Pushed(Popped(c.d), x),
                  if exit then Popped(c.r) else c.r, mem, world))
  }

  lemma Transfers(c: Cpu, i: Word, s: Parts, exit: bool, range: nat, write: bool)
    requires At(c, i) && Encodes(i, s, exit) && s.op == 0xF && s.effect == (if write then 1 else 3) && range != 1
    requires i / 0x10 % 8 == range && Flag(i, 0x80) == write
    ensures Execute(c) == Accessed(c, write, exit, AccessMemory(range, write, c.d[0], c.d[1], c.pc + 1, c.mem, c.world))
  {
    EffectsOf(c.d, 0);
    EffectsOf(Popped(c.d), 0);
  }

  /** A step at a word that reads or writes memory. */
  lemma MemoryWordSteps(step: Cpu -> Result, c: Cpu, place: Place, write: bool, exit: bool)
    requires Obeys(step) && At(c, Fused(if write then Store(place) else Fetch(place), exit))
    ensures step(c) ==
              Accessed(c, write, exit, AccessMemory(Range(place), write, c.d[0], c.d[1], c.pc + 1, c.mem, c.world))
  {
    var p := if write then Store(place) else Fetch(place);
    FusedEncodes(p, exit);
    RangeEncoded(Fused(p, exit), Bank(place), Lane(place), if write then 1 else 0);
    Transfers(c, Fused(p, exit), PartsOf(p), exit, Range(place), write);
    Opens(step, c, Execute(c));
  }

  // ----- Return stack and control -----

  lemma ToRSteps(step: Cpu -> Result, c: Cpu)
    requires Obeys(step) && At(c, 0x2100)
    ensures step(c) == Running(Cpu(c.pc + 1, Popped(c.d), Pushed(c.r, c.d[0]), c.mem, c.world))
  {
    assert Look(c);
  }

  lemma RFromSteps(step: Cpu -> Result, c: Cpu)
    requires Obeys(step) && At(c, 0x1280)
    ensures step(c) == Running(Cpu(c.pc + 1, Pushed(c.d, c.r[0]), Popped(c.r), c.mem, c.world))
  {
    assert Look(c);
  }

  lemma RFetchSteps(step: Cpu -> Result, c: Cpu)
    requires Obeys(step) && At(c, 0x0280)
    ensures step(c) == Running(Cpu(c.pc + 1, Pushed(c.d, c.r[0]), c.r, c.mem, c.world))
  {
    assert Look(c);
  }

  lemma RDropSteps(step: Cpu -> Result, c: Cpu)
    requires Obeys(step) && At(c, 0x1000)
    ensures step(c) == Running(Cpu(c.pc + 1, c.d, Popped(c.r), c.mem, c.world))
  {
    assert Look(c);
  }

  lemma ExitSteps(step: Cpu -> Result, c: Cpu)
    requires Obeys(step) && At(c, 0x5000)
    ensures step(c) == Running(Cpu(c.r[0] % 0x1000, c.d, Popped(c.r), c.mem, c.world))
  {
    assert Look(c);
  }

  /** (LIT) and (CONST) load the word after them. */
  lemma Loads(c: Cpu, i: Word, exit: bool, x: Word)
    requires At(c, i) && Encodes(i, Parts(2, 0, 1, 15), exit) && i / 0x10 % 8 == 1 && !Flag(i, 0x80)
    requires c.pc + 1 < 0x1000 && c.pc + 1 in c.mem && c.mem[c.pc + 1] == x
    ensures Execute(c) == Running(Cpu(if exit then c.r[0] % 0x1000 else c.pc + 2, Pushed(c.d, x),
                                      if exit then Popped(c.r) else c.r, c.mem, c.world))
  {
  }

  lemma LiteralSteps(step: Cpu -> Result, c: Cpu, x: Word)
    requires Obeys(step) && At(c, 0x021F) && c.pc + 1 < 0x1000 && c.pc + 1 in c.mem && c.mem[c.pc + 1] == x
    ensures step(c) == Running(Cpu(c.pc + 2, Pushed(c.d, x), c.r, c.mem, c.world))
  {
    Loads(c, 0x021F, false, x);
    Opens(step, c, Execute(c));
  }

  lemma ConstantSteps(step: Cpu -> Result, c: Cpu, x: Word)
    requires Obeys(step) && At(c, 0x521F) && c.pc + 1 < 0x1000 && c.pc + 1 in c.mem && c.mem[c.pc + 1] == x
    ensures step(c) == Running(Cpu(c.r[0] % 0x1000, Pushed(c.d, x), Popped(c.r), c.mem, c.world))
  {
    Loads(c, 0x521F, true, x);
    Opens(step, c, Execute(c));
  }

  /** A control instruction, by its selector and whether it calls. */
  predicate Controls(i: Word, call: bool, selector: nat, a: Address) {
    && i != 0x11F0 && Flag(i, 0x8000) && Flag(i, 0x4000) == call && i / 0x1000 % 4 == selector && i % 0x1000 == a
  }

  lemma ControlEncodes(i: Word, k: nat, a: Address)
    requires 8 <= k < 16 && i == k * 0x1000 + a
    ensures Controls(i, k >= 12, k % 4, a)
  {
    assert i / 0x1000 == k;
    assert i / 0x4000 == k / 4;
    assert i / 0x8000 == 1;
  }

  lemma JumpSteps(step: Cpu -> Result, c: Cpu, a: Address)
    requires Obeys(step) && At(c, 0x8000 + a)
    ensures step(c) == Running(c.(pc := a))
  {
    ControlEncodes(0x8000 + a, 8, a);
    assert Look(c);
  }

  lemma JumpIfZeroSteps(step: Cpu -> Result, c: Cpu, a: Address)
    requires Obeys(step) && At(c, 0x9000 + a)
    ensures step(c) == Running(c.(pc := if c.d[0] == 0 then a else c.pc + 1, d := Popped(c.d)))
  {
    ControlEncodes(0x9000 + a, 9, a);
    assert Look(c);
  }

  lemma CallSteps(step: Cpu -> Result, c: Cpu, a: Address)
    requires Obeys(step) && At(c, 0xC000 + a)
    ensures step(c) == Running(c.(pc := a, r := Pushed(c.r, c.pc + 1)))
  {
    ControlEncodes(0xC000 + a, 12, a);
    assert Look(c);
  }

  /** Counting jumps: down for ?LOOP-, up for ?LOOP+. */
  lemma CountSteps(step: Cpu -> Result, c: Cpu, a: Address, down: bool)
    requires Obeys(step) && At(c, if down then 0xB000 + a else 0xA000 + a)
    ensures step(c) == if c.r[0] == 0 then Running(c.(pc := c.pc + 1, r := Popped(c.r)))
                       else Running(c.(pc := a, r := c.r[0 := Counted(c.r[0], down)]))
  {
    ControlEncodes(if down then 0xB000 + a else 0xA000 + a, if down then 11 else 10, a);
    assert Look(c);
  }
}
