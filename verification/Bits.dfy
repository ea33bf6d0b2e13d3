/** Bitwise operations on integers. */
module Bits {
  datatype BitOp = And | Xor | Or

  function Bit(op: BitOp, x: int, y: int): int {
    match op
    case And => if x == 1 && y == 1 then 1 else 0
    case Xor => if x == y then 0 else 1
    case Or => if x == 1 || y == 1 then 1 else 0
  }

  /** The lowest n bits of a bitwise operation. */
  function Bitwise(op: BitOp, a: int, b: int, n: nat): (r: int)
    ensures r >= 0
    decreases n, a
  {
    if n == 0 then 0 else 2 * Bitwise(op, a / 2, b / 2, n - 1) + Bit(op, a % 2, b % 2)
  }

  function Power(n: nat): (r: nat)
    ensures r > 0
  {
    if n == 0 then 1 else 2 * Power(n - 1)
  }

  /** The k-th bit of a number. */
  function BitOf(x: int, k: nat): int
    decreases k
  {
    if k == 0 then x % 2 else BitOf(x / 2, k - 1)
  }

  /** Every bit of the result comes from the same bits of the operands, and from nothing else. */
  lemma {:induction false} BitwiseBits(op: BitOp, a: int, b: int, n: nat, k: nat)
    requires k < n
    ensures BitOf(Bitwise(op, a, b, n), k) == 1 <==>
            match op
            case And => BitOf(a, k) == 1 && BitOf(b, k) == 1
            case Xor => BitOf(a, k) != BitOf(b, k)
            case Or => BitOf(a, k) == 1 || BitOf(b, k) == 1
    decreases n
  {
    var r := Bitwise(op, a, b, n);
    assert r / 2 == Bitwise(op, a / 2, b / 2, n - 1) && r % 2 == Bit(op, a % 2, b % 2);
    if k > 0 { BitwiseBits(op, a / 2, b / 2, n - 1, k - 1); }
  }

  function Differ(a: int, b: int, unit: nat): nat
    requires unit > 0
  {
    if a / unit % 2 == b / unit % 2 then 0 else 1
  }

  /** The four lowest bits of an exclusive or, one by one. */
  lemma XorNibble(a: int, b: int)
    ensures Bitwise(Xor, a, b, 4) == Differ(a, b, 1) + 2 * Differ(a, b, 2) + 4 * Differ(a, b, 4) + 8 * Differ(a, b, 8)
  {
    assert a / 2 / 2 == a / 4 && a / 4 / 2 == a / 8 && b / 2 / 2 == b / 4 && b / 4 / 2 == b / 8;
    assert Bitwise(Xor, a / 8, b / 8, 1) == Differ(a, b, 8);
    assert Bitwise(Xor, a / 4, b / 4, 2) == 2 * Differ(a, b, 8) + Differ(a, b, 4);
    assert Bitwise(Xor, a / 2, b / 2, 3) == 4 * Differ(a, b, 8) + 2 * Differ(a, b, 4) + Differ(a, b, 2);
  }

  /** Of eight bits, those of the lower and of the upper four. */
  lemma {:induction false} XorByte(a: int, b: int, n: nat)
    ensures Bitwise(Xor, a, b, n + 4) == 16 * Bitwise(Xor, a / 16, b / 16, n) + Bitwise(Xor, a, b, 4)
  {
    assert a / 2 / 2 == a / 4 && a / 4 / 2 == a / 8 && a / 8 / 2 == a / 16;
    assert b / 2 / 2 == b / 4 && b / 4 / 2 == b / 8 && b / 8 / 2 == b / 16;
    Halved(a, b, n + 4);
    Halved(a / 2, b / 2, n + 3);
    Halved(a / 4, b / 4, n + 2);
    Halved(a / 8, b / 8, n + 1);
    Halved(a, b, 4);
    Halved(a / 2, b / 2, 3);
    Halved(a / 4, b / 4, 2);
    Halved(a / 8, b / 8, 1);
  }

  lemma Halved(a: int, b: int, n: nat)
    requires n > 0
    ensures Bitwise(Xor, a, b, n) == 2 * Bitwise(Xor, a / 2, b / 2, n - 1) + Bit(Xor, a % 2, b % 2)
  {
  }

  lemma {:induction false} BitwiseBelow(op: BitOp, a: int, b: int, n: nat)
    ensures Bitwise(op, a, b, n) < Power(n)
    decreases n
  {
    if n > 0 { BitwiseBelow(op, a / 2, b / 2, n - 1); }
  }

  /** Exclusive or with the same number twice gives back what there was. */
  lemma {:induction false} XorTwice(a: int, b: int, n: nat)
    requires 0 <= a < Power(n)
    ensures Bitwise(Xor, Bitwise(Xor, a, b, n), b, n) == a
    decreases n
  {
    if n > 0 {
      var r := Bitwise(Xor, a, b, n);
      XorTwice(a / 2, b / 2, n - 1);
      assert r / 2 == Bitwise(Xor, a / 2, b / 2, n - 1) && r % 2 == Bit(Xor, a % 2, b % 2);
    }
  }
}
