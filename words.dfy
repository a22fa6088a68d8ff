/**
 * 32-bit words as the engine uses them: criterion codes and values are `uint32_t`, an
 * explicit decimal code is read as `int32_t` and reinterpreted as unsigned, and the
 * StatesChanged criterion is a bit mask built with `1 << n` and `|`.
 */
module Words {

  /** An `int32_t`. */
  type Int32 = x: int | -0x8000_0000 <= x < 0x8000_0000

  /** A `uint32_t`. */
  type Word = x: nat | x < 0x1_0000_0000

  function Pow2(k: nat): (p: nat)
    ensures p >= 1
  {
    if k == 0 then 1 else 2 * Pow2(k - 1)
  }

  lemma {:induction false} Pow2Monotone(k: nat, n: nat)
    requires k <= n
    ensures Pow2(k) <= Pow2(n)
  {
    if k < n {
      Pow2Monotone(k, n - 1);
    }
  }

  lemma Pow2Of32()
    ensures Pow2(32) == 0x1_0000_0000
  {
    assert Pow2(8) == 0x100;
    assert Pow2(16) == 0x1_0000;
    assert Pow2(24) == 0x100_0000;
  }

  /**
   * The code `1 << n` that the engine computes with a C `int` shift. The C++ result is
   * undefined once `n` reaches 32; the model takes the shift count modulo 32, which is
   * what the hardware does.
   */
  function Bit(n: nat): (b: Word)
  {
    Pow2Monotone(n % 32, 31);
    Pow2Of32();
    assert Pow2(32) == 2 * Pow2(31);
    Pow2(n % 32)
  }

  /** Bit `k` of `x` is set. */
  function HasBit(x: nat, k: nat): bool
  {
    if k == 0 then x % 2 == 1 else HasBit(x / 2, k - 1)
  }

  /** Bitwise `|`. */
  function Or(a: nat, b: nat): nat
    decreases a + b
  {
    if a == 0 then b
    else if b == 0 then a
    else 2 * Or(a / 2, b / 2) + (if a % 2 == 1 || b % 2 == 1 then 1 else 0)
  }

  lemma {:induction false} ZeroHasNoBit(k: nat)
    ensures !HasBit(0, k)
  {
    if k > 0 {
      ZeroHasNoBit(k - 1);
    }
  }

  /** `1 << j` has bit `j` set and no other. */
  lemma {:induction false} Pow2HasOneBit(j: nat, k: nat)
    ensures HasBit(Pow2(j), k) <==> j == k
  {
    if j == 0 {
      if k > 0 {
        ZeroHasNoBit(k - 1);
      }
    } else if k > 0 {
      Pow2HasOneBit(j - 1, k - 1);
    }
  }

  /**
   * The codes `1 << i` handed out for `i` below 32 are single bits, so two different
   * positions never share a bit.
   */
  lemma BitIsSingle(i: nat, k: nat)
    requires i < 32
    ensures HasBit(Bit(i), k) <==> k == i
  {
    Pow2HasOneBit(i, k);
  }

  /** A bit of `a | b` is set exactly when it is set in `a` or in `b`. */
  lemma {:induction false} OrHasBit(a: nat, b: nat, k: nat)
    ensures HasBit(Or(a, b), k) <==> HasBit(a, k) || HasBit(b, k)
    decreases k
  {
    if a == 0 {
      ZeroHasNoBit(k);
    } else if b == 0 {
      ZeroHasNoBit(k);
    } else if k > 0 {
      var q := Or(a / 2, b / 2);
      var r := if a % 2 == 1 || b % 2 == 1 then 1 else 0;
      assert Or(a, b) / 2 == q;
      OrHasBit(a / 2, b / 2, k - 1);
    }
  }

  /** `a | b` is 0 only when both are. */
  lemma {:induction false} OrZero(a: nat, b: nat)
    ensures Or(a, b) == 0 <==> a == 0 && b == 0
    decreases a + b
  {
    if a != 0 && b != 0 {
      OrZero(a / 2, b / 2);
    }
  }

  lemma {:induction false} OrBelow(a: nat, b: nat, n: nat)
    requires a < Pow2(n) && b < Pow2(n)
    ensures Or(a, b) < Pow2(n)
    decreases a + b
  {
    if a != 0 && b != 0 {
      OrBelow(a / 2, b / 2, n - 1);
    }
  }

  /** `|` of two `uint32_t`. */
  function WordOr(a: Word, b: Word): (c: Word)
  {
    Pow2Of32();
    OrBelow(a, b, 32);
    Or(a, b)
  }

  /** The unsigned reinterpretation `(uint32_t) v` of a two's complement `int32_t`. */
  function FromInt32(v: Int32): (w: Word)
    ensures v >= 0 ==> w == v
    ensures v < 0 ==> w >= 0x8000_0000 && w - 0x1_0000_0000 == v
  {
    if v >= 0 then v else v + 0x1_0000_0000
  }

  lemma FirstThreeBits()
    ensures Bit(0) == 1 && Bit(1) == 2 && Bit(2) == 4
  {
  }
}
