/** The machine integers of the firmware: bytes with XOR, and 16-bit words with wrap-around. */
module Words {

  /** uint8_t */
  newtype uint8 = x: int | 0 <= x < 256

  /** Bitwise exclusive or, bit by bit. */
  function BitXor(a: nat, b: nat): nat
    decreases a + b
  {
    if a == 0 && b == 0 then 0 else (if a % 2 == b % 2 then 0 else 1) + 2 * BitXor(a / 2, b / 2)
  }

  lemma {:induction false} BitXorBound(a: nat, b: nat, bits: nat)
    requires a < Pow2(bits) && b < Pow2(bits)
    ensures BitXor(a, b) < Pow2(bits)
    decreases bits
  {
    if bits > 0 { BitXorBound(a / 2, b / 2, bits - 1); }
  }

  function Pow2(n: nat): nat { if n == 0 then 1 else 2 * Pow2(n - 1) }

  /** The operator ^ of C on bytes. */
  function Xor2(a: uint8, b: uint8): uint8 {
    assert Pow2(8) == 256;
    BitXorBound(a as int, b as int, 8);
    BitXor(a as int, b as int) as uint8
  }

  lemma {:induction false} BitXorComm(a: nat, b: nat)
    ensures BitXor(a, b) == BitXor(b, a)
    decreases a + b
  {
    if a != 0 || b != 0 { BitXorComm(a / 2, b / 2); }
  }

  lemma {:induction false} BitXorZero(a: nat)
    ensures BitXor(a, 0) == a
  {
    if a != 0 { BitXorZero(a / 2); }
  }

  lemma {:induction false} BitXorAssoc(a: nat, b: nat, c: nat)
    ensures BitXor(BitXor(a, b), c) == BitXor(a, BitXor(b, c))
    decreases a + b + c
  {
    if a != 0 || b != 0 || c != 0 {
      BitXorAssoc(a / 2, b / 2, c / 2);
      var ab, bc := BitXor(a, b), BitXor(b, c);
      BitXorParts(a, b);
      BitXorParts(b, c);
      BitXorParts(ab, c);
      BitXorParts(a, bc);
      SameHalves(BitXor(ab, c), BitXor(a, bc));
    }
  }

  lemma {:induction false} SameHalves(x: nat, y: nat)
    requires x / 2 == y / 2 && x % 2 == y % 2
    ensures x == y
  {
  }

  lemma {:induction false} BitXorParts(a: nat, b: nat)
    ensures BitXor(a, b) / 2 == BitXor(a / 2, b / 2)
    ensures BitXor(a, b) % 2 == if a % 2 == b % 2 then 0 else 1
  {
  }

  lemma {:induction false} BitXorSelf(a: nat)
    ensures BitXor(a, a) == 0
  {
    if a != 0 { BitXorSelf(a / 2); }
  }

  lemma {:induction false} XorComm(a: uint8, b: uint8)
    ensures Xor2(a, b) == Xor2(b, a)
  {
    BitXorComm(a as int, b as int);
  }

  lemma {:induction false} XorZero(a: uint8)
    ensures Xor2(a, 0) == a && Xor2(0, a) == a
  {
    BitXorZero(a as int);
    BitXorComm(a as int, 0);
  }

  lemma {:induction false} XorAssoc(a: uint8, b: uint8, c: uint8)
    ensures Xor2(Xor2(a, b), c) == Xor2(a, Xor2(b, c))
  {
    BitXorAssoc(a as int, b as int, c as int);
  }

  lemma {:induction false} XorCancel(a: uint8, b: uint8, c: uint8)
    requires Xor2(a, b) == Xor2(a, c)
    ensures b == c
  {
    BitXorSelf(a as int);
    XorAssoc(a, a, b);
    XorAssoc(a, a, c);
    XorZero(b);
    XorZero(c);
  }

  // ---------------------------------------------------------------- 16-bit words

  /** A value of type uint16_t. */
  type Word = x: int | 0 <= x < 0x1_0000

  /** A value of type int16_t. */
  type Short = x: int | -0x8000 <= x < 0x8000

  predicate FitsShort(x: int) { -0x8000 <= x < 0x8000 }

  /** Conversion to uint16_t. */
  function ToWord(x: int): (w: Word) { x % 0x1_0000 }

  /** Conversion to int16_t: two's complement wrap-around. */
  function ToShort(x: int): (s: Short)
    ensures FitsShort(x) ==> s == x
  {
    var w := x % 0x1_0000;
    if w < 0x8000 then w else w - 0x1_0000
  }

  /** The operators + - * of C on a machine with 16-bit int. */
  function Add16(x: Short, y: Short): Short { ToShort(x + y) }
  function Sub16(x: Short, y: Short): Short { ToShort(x - y) }
  function Mul16(x: Short, y: Short): Short { ToShort(x * y) }

  /** x is at most limit in magnitude. */
  predicate Within(x: int, limit: int) { -limit <= x <= limit }

  /** The division of C: towards zero. */
  function Quot(x: int, y: int): int
    requires y > 0
  {
    if x >= 0 then x / y else -((-x) / y)
  }

  function Abs(x: int): nat { if x < 0 then -x else x }

  /** The difference of two wrapped counters is the wrapped difference of the counters. */
  lemma {:induction false} ToShortDiff(x: int, y: int)
    ensures ToShort(ToWord(x) - ToWord(y)) == ToShort(x - y)
  {
    WordDiff(x, y);
  }

  lemma {:induction false} WordKeeps(w: Word)
    ensures ToWord(w) == w
  {
  }

  lemma {:induction false} WordAdd(x: int, y: int)
    ensures ToWord(ToWord(x) + y) == ToWord(x + y)
  {
    ModShift(x % 0x1_0000 + y, x / 0x1_0000);
  }

  lemma {:induction false} WordDiff(x: int, y: int)
    ensures (x % 0x1_0000 - y % 0x1_0000) % 0x1_0000 == (x - y) % 0x1_0000
  {
    var a, b := x / 0x1_0000, y / 0x1_0000;
    ModShift(x - y, b - a);
  }

  lemma {:induction false} ModShift(x: int, k: int)
    ensures (x + k * 0x1_0000) % 0x1_0000 == x % 0x1_0000
  {
  }
}
