/** What the arithmetic opcodes compute, stated without their definitions. */
module EvmArithmetic {
  import opened Arithmetic
  import opened Bytes
  import opened Gas
  import opened Evm

  /** Bit `i` of a natural. */
  function Bit(v: nat, i: nat): (b: nat)
    ensures b < 2
  {
    v / Pow2(i) % 2
  }

  lemma HalveBit(v: nat, i: nat)
    requires i > 0
    ensures Bit(v, i) == Bit(v / 2, i - 1)
  {
    DivDiv(v, 2, Pow2(i - 1));
  }

  lemma DivDiv(v: nat, a: nat, b: nat)
    requires a > 0 && b > 0
    ensures a * b > 0 && v / (a * b) == v / a / b
  {
    var q, r := v / a, v % a;
    var p, t := q / b, q % b;
    assert v == a * q + r;
    assert q == b * p + t;
    DivDigits(v, a, b, p, t, r);
  }

  lemma DivDigits(v: nat, a: nat, b: nat, p: nat, t: nat, r: nat)
    requires r < a && t < b && v == a * (b * p + t) + r
    ensures a * b > 0 && v / (a * b) == p
  {
    Digits(a, b, p, t, r);
    DivUnique(v, a * b, p, a * t + r);
  }

  /** A two-digit number in mixed base (a, b), regrouped. */
  lemma Digits(a: nat, b: nat, p: nat, t: nat, r: nat)
    requires r < a && t < b
    ensures a * b > 0 && a * t + r < a * b
    ensures a * (b * p + t) + r == a * b * p + (a * t + r)
  {
    MulLe(a, t, b - 1);
    Assoc(a, b, p);
    Distribute(a, b * p, t);
  }

  lemma Assoc(a: int, b: int, c: int)
    ensures a * (b * c) == a * b * c
  {
  }

  lemma Distribute(a: int, b: int, c: int)
    ensures a * (b + c) == a * b + a * c
  {
  }

  lemma BitwiseHalves(op: BitOp, a: nat, b: nat)
    ensures Bitwise(op, a, b) / 2 == Bitwise(op, a / 2, b / 2)
    ensures Bitwise(op, a, b) % 2 == BitResult(op, a % 2, b % 2)
  {
    if a > 0 || b > 0 {
      hide BitResult;
      var high, low := Bitwise(op, a / 2, b / 2), BitResult(op, a % 2, b % 2);
      assert Bitwise(op, a, b) == 2 * high + low;
    }
  }

  lemma LowBit(v: nat)
    ensures Bit(v, 0) == v % 2
  {
  }

  /** AND, OR and XOR act on every bit separately. */
  lemma {:induction false} BitwiseBit(op: BitOp, a: nat, b: nat, i: nat)
    ensures Bit(Bitwise(op, a, b), i) == BitResult(op, Bit(a, i), Bit(b, i))
    decreases i
  {
    hide Bitwise, Bit, BitResult, Pow2;
    BitwiseHalves(op, a, b);
    if i == 0 {
      LowBit(a);
      LowBit(b);
      LowBit(Bitwise(op, a, b));
    } else {
      HalveBit(a, i);
      HalveBit(b, i);
      HalveBit(Bitwise(op, a, b), i);
      BitwiseBit(op, a / 2, b / 2, i - 1);
    }
  }

  /** Their results need no wrapping: no bit appears beyond the longer operand. */
  lemma {:induction false} BitwiseBound(op: BitOp, a: nat, b: nat, n: nat)
    requires a < Pow2(n) && b < Pow2(n)
    ensures Bitwise(op, a, b) < Pow2(n)
    decreases n
  {
    if n > 0 {
      BitwiseBound(op, a / 2, b / 2, n - 1);
    }
  }

  lemma Pow2Byte()
    ensures Pow2(8) == 256
  {
  }

  lemma Pow2Word()
    ensures Pow2(256) == MODULUS
  {
    hide Pow2;
    Pow2Byte();
    Pow2Add(8, 8);
    Pow2Add(16, 16);
    Pow2Add(32, 32);
    Pow2Add(64, 64);
    Pow2Add(128, 128);
  }

  lemma {:induction false} Pow2Add(a: nat, b: nat)
    ensures Pow2(a + b) == Pow2(a) * Pow2(b)
  {
    if b > 0 {
      Pow2Add(a, b - 1);
      assert Pow2(a) * Pow2(b) == Pow2(a) * (2 * Pow2(b - 1)) == 2 * (Pow2(a) * Pow2(b - 1));
    }
  }

  /** The word an opcode pushes, for the two items it pops. */
  function Pushed(op: Byte, next: Word, top: Word): Word
    requires BinaryOperation(op, next, top).Some?
  {
    Wrap(BinaryOperation(op, next, top).value)
  }

  /** The binary opcodes apply `next op top`, with the top of the stack on the right. */
  lemma BinaryMeaning(f: Frame, next: Word, top: Word, below: seq<Word>, op: Byte)
    requires f.stack == below + [next, top] && |f.stack| <= MAX_STACK_DEPTH && BinaryOperation(op, 0, 0).Some?
    ensures OpBinary(f, op) == Ok(f.(stack := below + [Pushed(op, next, top)]))
  {
    assert f.stack[..|f.stack| - 2] == below;
  }

  /** SUB inverts ADD, DIV and MOD are the quotient and remainder, and bitwise results are never wrapped. */
  lemma BinaryLaws(next: Word, top: Word, i: nat)
    ensures Pushed(0x03, Pushed(0x01, next, top), top) == next
    ensures top > 0 ==> next == Pushed(0x04, next, top) * top + Pushed(0x06, next, top) && Pushed(0x06, next, top) < top
    ensures top == 0 ==> Pushed(0x04, next, top) == 0 && Pushed(0x06, next, top) == 0
    ensures Pushed(0x10, next, top) == Pushed(0x11, top, next) == (if next < top then 1 else 0)
    ensures Bit(Pushed(0x16, next, top), i) == Bit(next, i) * Bit(top, i)
    ensures Bit(Pushed(0x17, next, top), i) == Bit(next, i) + Bit(top, i) - Bit(next, i) * Bit(top, i)
    ensures Bit(Pushed(0x18, next, top), i) == (Bit(next, i) + Bit(top, i)) % 2
  {
    hide Bit, Bitwise, BitResult, Pow2, Wrap;
    Pow2Word();
    AddSub(next, top);
    DivisionLaws(next, top);
    WrapWord(0);
    WrapWord(1);
    BitwiseBound(And, next, top, 256);
    WrapWord(Bitwise(And, next, top));
    BitwiseBit(And, next, top, i);
    BitwiseBound(Or, next, top, 256);
    WrapWord(Bitwise(Or, next, top));
    BitwiseBit(Or, next, top, i);
    BitwiseBound(Xor, next, top, 256);
    WrapWord(Bitwise(Xor, next, top));
    BitwiseBit(Xor, next, top, i);
    BitTable(Bit(next, i), Bit(top, i));
  }

  /** AND is the product of two bits, OR their sum less the product, XOR their sum without the carry. */
  lemma BitTable(x: nat, y: nat)
    requires x < 2 && y < 2
    ensures BitResult(And, x, y) == x * y && BitResult(Or, x, y) == x + y - x * y && BitResult(Xor, x, y) == (x + y) % 2
  {
  }

  /** EQ, LT and GT tell two words apart: exactly one of them pushes 1, the others push 0. */
  lemma ComparisonLaws(next: Word, top: Word)
    ensures Pushed(0x14, next, top) == (if next == top then 1 else 0)
    ensures Pushed(0x10, next, top) == (if next < top then 1 else 0)
    ensures Pushed(0x11, next, top) == (if next > top then 1 else 0)
  {
    hide Wrap;
    WrapWord(0);
    WrapWord(1);
  }

  lemma WrapWord(v: nat)
    requires v < MODULUS
    ensures Wrap(v) == v
  {
  }

  lemma AddSub(next: Word, top: Word)
    ensures Pushed(0x03, Pushed(0x01, next, top), top) == next
  {
    hide Wrap;
    WrapBack(next, top);
  }

  lemma WrapBack(next: Word, top: Word)
    ensures Wrap(Wrap(next + top) - top) == next
  {
    if next + top < MODULUS {
      WrapWord(next + top);
      WrapWord(next);
    } else {
      WrapOnce(next + top - MODULUS, 1);
      WrapOnce(next, -1);
    }
  }

  lemma WrapOnce(v: Word, k: int)
    requires -1 <= k <= 1
    ensures Wrap(v + k * MODULUS) == v
  {
  }

  lemma DivisionLaws(next: Word, top: Word)
    ensures top > 0 ==> next == Pushed(0x04, next, top) * top + Pushed(0x06, next, top) && Pushed(0x06, next, top) < top
    ensures top == 0 ==> Pushed(0x04, next, top) == 0 && Pushed(0x06, next, top) == 0
  {
    hide Wrap;
    WrapWord(0);
    if top > 0 {
      var v: nat, d: nat := next, top;
      DivBound(v, d);
      WrapWord(v / d);
      WrapWord(v % d);
    }
  }

  lemma DivBound(v: nat, d: nat)
    requires d > 0
    ensures v == v / d * d + v % d && v / d <= v
  {
    MulLe(v / d, 1, d);
  }

  /** SAR divides the signed reading by a power of two, rounding towards minus infinity. */
  lemma SarMeaning(shift: Word, value: Word)
    ensures var q := ToSigned(Wrap(ShiftOperation(0x1D, shift, value).value));
      && (shift < 256 ==> q * Pow2(shift) <= ToSigned(value) < q * Pow2(shift) + Pow2(shift))
      && (shift >= 256 ==> q == if ToSigned(value) < 0 then -1 else 0)
  {
    if shift < 256 {
      var s, p := ToSigned(value), Pow2(shift);
      FloorBound(s, p);
      SignedWrap(s / p);
    }
  }

  /** The quotient of a signed word stays a signed word. */
  lemma FloorBound(s: int, p: nat)
    requires p > 0
    ensures s / p * p <= s < s / p * p + p
    ensures s >= 0 ==> 0 <= s / p <= s
    ensures s < 0 ==> s <= s / p < 0
  {
    var q := s / p;
    assert s == q * p + s % p;
    if s >= 0 {
      DivBound(s, p);
    } else {
      NegativeQuotient(q, p, s);
    }
  }

  lemma NegativeQuotient(q: int, p: nat, s: int)
    requires p > 0 && s < 0 && q * p <= s < q * p + p
    ensures s <= q < 0
  {
    if q >= 0 {
      MulLe(p, 0, q);
    } else if q < s {
      MulLe(p, q + 1, s);
      MulLe(-s, 1, p);
    }
  }

  lemma SignedWrap(q: int)
    requires -(MODULUS / 2) <= q < MODULUS / 2
    ensures ToSigned(Wrap(q)) == q
  {
  }

  /** SHR divides by the power of two, and BYTE picks byte `shift` counted from the left. */
  lemma ShiftMeaning(shift: Word, value: Word)
    ensures shift < 256 ==>
      var q := ShiftOperation(0x1C, shift, value).value; q * Pow2(shift) <= value < q * Pow2(shift) + Pow2(shift)
    ensures shift < 32 ==> ShiftOperation(0x1A, shift, value).value == ToBytes(value, 32)[shift]
  {
    if shift < 256 {
      DivBound(value, Pow2(shift));
    }
    if shift < 32 {
      ByteOf(value, 32, shift);
    }
  }

  lemma {:induction false} ByteOf(v: nat, n: nat, i: nat)
    requires i < n
    ensures ToBytes(v, n)[i] == v / Pow2((n - 1 - i) * 8) % 256
    decreases n
  {
    if i < n - 1 {
      ByteOf(v / 256, n - 1, i);
      var k := (n - 2 - i) * 8;
      Pow2Add(8, k);
      assert Pow2(8) == 256;
      DivDiv(v, 256, Pow2(k));
    }
  }
}
