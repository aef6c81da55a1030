/** The executed integer domain and the machine operations code generation may emit on it.

    A machine word of type `I64` is held as the signed integer it denotes, so a bitwise operation is
    two's-complement arithmetic on that integer, bit by bit, with the sign as the top bit. */
module Numeric {
  const I64_MIN: int := -0x8000_0000_0000_0000
  const I64_MAX: int := 0x7fff_ffff_ffff_ffff
  const TWO_63: int := 0x8000_0000_0000_0000
  const TWO_64: int := 0x1_0000_0000_0000_0000

  /** Bits below the sign bit of an `I64`. */
  const MAGNITUDE_BITS: nat := 63

  datatype BitOp = And | Or | Xor

  predicate InI64(n: int) {
    I64_MIN <= n <= I64_MAX
  }

  /** The signed 64-bit value with the same low 64 bits as `n`. */
  function Wrap(n: int): (r: int)
    ensures InI64(r)
    ensures InI64(n) ==> r == n
  {
    (n + TWO_63) % TWO_64 - TWO_63
  }

  /** One result bit. */
  function CombineBit(op: BitOp, x: int, y: int): (r: int)
    requires 0 <= x <= 1 && 0 <= y <= 1
    ensures 0 <= r <= 1
    ensures op == And ==> (r == 1 <==> x == 1 && y == 1)
    ensures op == Or ==> (r == 1 <==> x == 1 || y == 1)
    ensures op == Xor ==> (r == 1 <==> x != y)
  {
    match op
    case And => if x == 1 && y == 1 then 1 else 0
    case Or => if x == 1 || y == 1 then 1 else 0
    case Xor => if x != y then 1 else 0
  }

  /** The bit of weight 2^i in the infinite two's-complement expansion of `a`. */
  function Bit(a: int, i: nat): (r: int)
    ensures 0 <= r <= 1
    decreases i
  {
    if i == 0 then a % 2 else Bit(a / 2, i - 1)
  }

  predicate Negative(a: int) {
    a < 0
  }

  function Pow2(n: nat): (r: int)
    ensures r >= 1
  {
    if n == 0 then 1 else 2 * Pow2(n - 1)
  }

  predicate Fits(a: int, bits: nat) {
    -Pow2(bits) <= a < Pow2(bits)
  }

  /** `op` applied to words of `bits` magnitude bits and a sign. */
  function Bitwise(op: BitOp, a: int, b: int, bits: nat): (r: int)
    requires Fits(a, bits) && Fits(b, bits)
    ensures Fits(r, bits)
    ensures Negative(r) <==>
            CombineBit(op, if Negative(a) then 1 else 0, if Negative(b) then 1 else 0) == 1
    decreases bits, a, b
  {
    if bits == 0 then
      -CombineBit(op, -a, -b)
    else
      2 * Bitwise(op, a / 2, b / 2, bits - 1) + CombineBit(op, a % 2, b % 2)
  }

  /** Every bit of the result, the copies of the sign included, is the combination of the operands'. */
  lemma {:induction false} BitwiseIsBitByBit(op: BitOp, a: int, b: int, bits: nat, i: nat)
    requires Fits(a, bits) && Fits(b, bits)
    ensures Bit(Bitwise(op, a, b, bits), i) == CombineBit(op, Bit(a, i), Bit(b, i))
    decreases bits + i
  {
    var r := Bitwise(op, a, b, bits);
    if bits == 0 {
      if i != 0 {
        assert a / 2 == a && b / 2 == b && r / 2 == r;
        BitwiseIsBitByBit(op, a, b, 0, i - 1);
      }
    } else {
      var half := Bitwise(op, a / 2, b / 2, bits - 1);
      assert r == 2 * half + CombineBit(op, a % 2, b % 2);
      assert r / 2 == half && r % 2 == CombineBit(op, a % 2, b % 2);
      if i != 0 {
        BitwiseIsBitByBit(op, a / 2, b / 2, bits - 1, i - 1);
      }
    }
  }

  lemma SignWeight()
    ensures Pow2(MAGNITUDE_BITS) == TWO_63
  {
    assert Pow2(8) == 0x100;
    assert Pow2(16) == 0x1_0000;
    assert Pow2(24) == 0x100_0000;
    assert Pow2(32) == 0x1_0000_0000;
    assert Pow2(40) == 0x100_0000_0000;
    assert Pow2(48) == 0x1_0000_0000_0000;
    assert Pow2(56) == 0x100_0000_0000_0000;
    assert Pow2(63) == TWO_63;
  }

  /** A word is in the domain exactly when it has that many magnitude bits and a sign. */
  lemma FitsIsInI64(a: int)
    ensures Fits(a, MAGNITUDE_BITS) <==> InI64(a)
  {
    SignWeight();
  }

  /** `band`, `bor` and `bxor` on two `I64` words. */
  function BitwiseI64(op: BitOp, a: int, b: int): (r: int)
    requires InI64(a) && InI64(b)
    ensures InI64(r)
    ensures Negative(r) <==>
            CombineBit(op, if Negative(a) then 1 else 0, if Negative(b) then 1 else 0) == 1
  {
    FitsIsInI64(a);
    FitsIsInI64(b);
    FitsIsInI64(Bitwise(op, a, b, MAGNITUDE_BITS));
    Bitwise(op, a, b, MAGNITUDE_BITS)
  }

  /** Every bit of a conjunction, a disjunction or a difference of two words, from the same bit of each. */
  lemma BitsCombine(a: int, b: int, i: nat)
    requires InI64(a) && InI64(b)
    ensures Bit(BitwiseI64(And, a, b), i) == 1 <==> Bit(a, i) == 1 && Bit(b, i) == 1
    ensures Bit(BitwiseI64(Or, a, b), i) == 1 <==> Bit(a, i) == 1 || Bit(b, i) == 1
    ensures Bit(BitwiseI64(Xor, a, b), i) == 1 <==> Bit(a, i) != Bit(b, i)
  {
    CombinesBits(And, a, b, i);
    CombinesBits(Or, a, b, i);
    CombinesBits(Xor, a, b, i);
  }

  lemma CombinesBits(op: BitOp, a: int, b: int, i: nat)
    requires InI64(a) && InI64(b)
    ensures Bit(BitwiseI64(op, a, b), i) == CombineBit(op, Bit(a, i), Bit(b, i))
  {
    FitsIsInI64(a);
    FitsIsInI64(b);
    BitwiseIsBitByBit(op, a, b, MAGNITUDE_BITS, i);
  }

  /** The sum of the weights of the lowest `n` bits that are set. */
  function BitsValue(a: int, n: nat): int {
    if n == 0 then 0 else BitsValue(a, n - 1) + Bit(a, n - 1) * Pow2(n - 1)
  }

  lemma {:induction false} BitsValueShifts(a: int, n: nat)
    ensures BitsValue(a, n + 1) == a % 2 + 2 * BitsValue(a / 2, n)
  {
    if n == 0 {
      assert BitsValue(a, 1) == BitsValue(a, 0) + Bit(a, 0) * Pow2(0);
    } else {
      BitsValueShifts(a, n - 1);
      assert Bit(a, n) == Bit(a / 2, n - 1) && Pow2(n) == 2 * Pow2(n - 1);
    }
  }

  lemma {:induction false} BitsAndSign(a: int, n: nat)
    requires Fits(a, n)
    ensures Bit(a, n) == (if a < 0 then 1 else 0)
    ensures a == BitsValue(a, n) - Bit(a, n) * Pow2(n)
    decreases n
  {
    if n > 0 {
      BitsAndSign(a / 2, n - 1);
      BitsValueShifts(a, n - 1);
      assert Bit(a, n) == Bit(a / 2, n - 1);
    }
  }

  /** A word is the two's-complement value of its 64 bits, so two words with the same bits are the same. */
  lemma WordIsItsBits(a: int)
    requires -0x8000_0000_0000_0000 <= a <= 0x7fff_ffff_ffff_ffff
    ensures InI64(a)
    ensures a == BitsValue(a, 63) - Bit(a, 63) * 0x8000_0000_0000_0000
  {
    FitsIsInI64(a);
    SignWeight();
    BitsAndSign(a, 63);
  }

  /** Wrapping keeps the low 64 bits and nothing else: the one word congruent to the integer. */
  lemma WrapIsCongruent(n: int)
    ensures -0x8000_0000_0000_0000 <= Wrap(n) <= 0x7fff_ffff_ffff_ffff
    ensures (n - Wrap(n)) % 0x1_0000_0000_0000_0000 == 0
  {
    var q := (n + TWO_63) / TWO_64;
    assert n - Wrap(n) == q * TWO_64;
  }

  /** What `smulhi` leaves out of a product is less than one unit of what it keeps. */
  lemma MulHighIsHighHalf(a: int, b: int)
    ensures 0 <= a * b - MulHigh(a, b) * 0x1_0000_0000_0000_0000 < 0x1_0000_0000_0000_0000
  {
    var p := a * b;
    assert p == p / TWO_64 * TWO_64 + p % TWO_64;
  }

  /** `bnot` on an `I64` word. */
  function BitNot(a: int): (r: int)
    requires InI64(a)
    ensures InI64(r)
  {
    -1 - a
  }

  /** `bnot` flips every bit. */
  lemma {:induction false} BitNotFlipsEveryBit(a: int, i: nat)
    requires InI64(a)
    ensures Bit(BitNot(a), i) == 1 - Bit(a, i)
    decreases i
  {
    if i != 0 {
      assert BitNot(a) / 2 == BitNot(a / 2);
      BitNotFlipsEveryBit(a / 2, i - 1);
    }
  }

  /** `smulhi`: the high half of the exact 128-bit product. */
  function MulHigh(a: int, b: int): int {
    a * b / TWO_64
  }

  /** `sshr` by 63: the sign of the word, spread over the word. */
  function SignFill(a: int): int {
    a / TWO_63
  }

  /** The flag the code generator computes after `iadd`. */
  function AddFlag(a: int, b: int): bool
    requires InI64(a) && InI64(b)
  {
    var result := Wrap(a + b);
    BitwiseI64(And, BitwiseI64(Xor, a, result), BitwiseI64(Xor, b, result)) < 0
  }

  /** The flag the code generator computes after `isub`. */
  function SubFlag(a: int, b: int): bool
    requires InI64(a) && InI64(b)
  {
    var result := Wrap(a - b);
    BitwiseI64(And, BitwiseI64(Xor, a, b), BitwiseI64(Xor, a, result)) < 0
  }

  /** The flag the code generator computes after `imul`. */
  function MulFlag(a: int, b: int): bool {
    MulHigh(a, b) != SignFill(Wrap(a * b))
  }

  /** The flag the code generator computes after `ineg`. */
  function NegFlag(a: int): bool {
    a == I64_MIN
  }

  lemma AddFlagIsExact(a: int, b: int)
    requires InI64(a) && InI64(b)
    ensures AddFlag(a, b) <==> !InI64(a + b)
    ensures !AddFlag(a, b) ==> Wrap(a + b) == a + b
  {
    WrapOnceAround(a + b);
    assert Negative(Wrap(a + b)) <==>
           (a + b > I64_MAX || I64_MIN <= a + b < 0);
  }

  lemma SubFlagIsExact(a: int, b: int)
    requires InI64(a) && InI64(b)
    ensures SubFlag(a, b) <==> !InI64(a - b)
    ensures !SubFlag(a, b) ==> Wrap(a - b) == a - b
  {
    WrapOnceAround(a - b);
    assert Negative(Wrap(a - b)) <==>
           (a - b > I64_MAX || I64_MIN <= a - b < 0);
  }

  lemma MulFlagIsExact(a: int, b: int)
    requires InI64(a) && InI64(b)
    ensures MulFlag(a, b) <==> !InI64(a * b)
    ensures !MulFlag(a, b) ==> Wrap(a * b) == a * b
  {
    HighHalfTest(a * b);
  }

  lemma NegFlagIsExact(a: int)
    requires InI64(a)
    ensures NegFlag(a) <==> !InI64(-a)
    ensures !NegFlag(a) ==> Wrap(-a) == -a
  {
  }

  /** A sum or difference of two words leaves the domain by at most one turn. */
  lemma WrapOnceAround(n: int)
    requires 2 * I64_MIN <= n <= 2 * I64_MAX + 1
    ensures Wrap(n) == if n < I64_MIN then n + TWO_64 else if n > I64_MAX then n - TWO_64 else n
  {
  }

  lemma HighHalfTest(p: int)
    ensures p / TWO_64 != SignFill(Wrap(p)) <==> !InI64(p)
  {
    var q := p / TWO_64;
    var low := p % TWO_64;
    assert p == q * TWO_64 + low;
    var w := Wrap(p);
    assert w == if low < TWO_63 then low else low - TWO_64 by {
      if low < TWO_63 {
        assert (p + TWO_63) == q * TWO_64 + (low + TWO_63);
        assert (p + TWO_63) % TWO_64 == low + TWO_63;
      } else {
        assert (p + TWO_63) == (q + 1) * TWO_64 + (low - TWO_63);
        assert (p + TWO_63) % TWO_64 == low - TWO_63;
      }
    }
  }

  /** `ireduce` to 32 bits, as the C runtime receives `main`'s result. */
  function Reduce32(a: int): int {
    (a + 0x8000_0000) % 0x1_0000_0000 - 0x8000_0000
  }

  /** What a waiting parent observes of a 32-bit status. */
  function ObservedStatus(status: int): nat {
    status % 256
  }

  lemma ModuloIgnoresMultiples(a: int, k: int)
    ensures (a - k * 256) % 256 == a % 256
  {
    assert a == (a / 256) * 256 + a % 256;
    assert a - k * 256 == (a / 256 - k) * 256 + a % 256;
  }

  lemma ReducedStatusIsModulo256(a: int)
    ensures ObservedStatus(Reduce32(a)) == a % 256
  {
    var q := (a + 0x8000_0000) / 0x1_0000_0000;
    assert Reduce32(a) == a - q * 0x1_0000_0000;
    ModuloIgnoresMultiples(a, q * 0x100_0000);
  }
}
