/** Bit-level arithmetic on naturals: the shifts, masks and ors that the codec performs. */
module Bits {
  type Byte = b: int | 0 <= b < 256

  const TWO31: nat := 0x8000_0000
  const TWO32: nat := 0x1_0000_0000
  const TWO63: nat := 0x8000_0000_0000_0000
  const TWO64: nat := 0x1_0000_0000_0000_0000

  function Pow2(n: nat): (p: nat)
    ensures p >= 1
  {
    if n == 0 then 1 else 2 * Pow2(n - 1)
  }

  /** Bitwise or of two naturals. */
  function BitOr(a: nat, b: nat): nat {
    if a == 0 then b
    else if b == 0 then a
    else 2 * BitOr(a / 2, b / 2) + (if a % 2 == 1 || b % 2 == 1 then 1 else 0)
  }

  /** Bit `k` of `n`. */
  predicate Bit(n: nat, k: nat) {
    if k == 0 then n % 2 == 1 else Bit(n / 2, k - 1)
  }

  /** Or-ing a shifted chunk above the bits already present is addition. */
  lemma {:induction false} OrAboveIsAdd(a: nat, c: nat, k: nat)
    requires a < Pow2(k)
    ensures BitOr(a, c * Pow2(k)) == a + c * Pow2(k)
  {
    if a != 0 && c != 0 {
      OrAboveIsAdd(a / 2, c, k - 1);
      var half := c * Pow2(k - 1);
      assert c * Pow2(k) == 2 * half by { DoubleShift(c, k); }
      assert half > 0;
      OrEven(a, half);
    }
  }

  lemma DoubleShift(c: nat, k: nat)
    requires k > 0
    ensures c * Pow2(k) == 2 * (c * Pow2(k - 1))
  {
    var p := Pow2(k - 1);
    assert c * (2 * p) == 2 * (c * p);
  }

  lemma OrEven(a: nat, half: nat)
    requires half > 0
    ensures BitOr(a, 2 * half) == 2 * BitOr(a / 2, half) + a % 2
  {
  }

  lemma {:induction false} BitOfOr(a: nat, b: nat, k: nat)
    ensures Bit(BitOr(a, b), k) <==> Bit(a, k) || Bit(b, k)
  {
    if k == 0 {
      ZeroHasNoBits(k);
    } else {
      ZeroHasNoBits(k);
      if a != 0 && b != 0 {
        BitOfOr(a / 2, b / 2, k - 1);
        assert BitOr(a, b) / 2 == BitOr(a / 2, b / 2);
      }
    }
  }

  lemma {:induction false} ZeroHasNoBits(k: nat)
    ensures !Bit(0, k)
  {
    if k > 0 { ZeroHasNoBits(k - 1); }
  }

  lemma {:induction false} BitOfPow2(j: nat, k: nat)
    ensures Bit(Pow2(j), k) <==> j == k
  {
    if j == 0 {
      if k > 0 { ZeroHasNoBits(k - 1); }
    } else if k > 0 {
      assert Pow2(j) / 2 == Pow2(j - 1);
      BitOfPow2(j - 1, k - 1);
    }
  }

  /** A number whose set bits are exactly the lowest `m` is `2^m - 1`. */
  lemma {:induction false} LowOnes(n: nat, m: nat)
    requires forall k: nat :: Bit(n, k) <==> k < m
    ensures n == Pow2(m) - 1
    decreases n, m
  {
    if m == 0 {
      NoBitsIsZero(n);
    } else {
      assert Bit(n, 0);
      forall k: nat ensures Bit(n / 2, k) <==> k < m - 1 {
        assert Bit(n, k + 1) == Bit(n / 2, k);
      }
      LowOnes(n / 2, m - 1);
    }
  }

  lemma {:induction false} NoBitsIsZero(n: nat)
    requires forall k: nat :: !Bit(n, k)
    ensures n == 0
  {
    if n > 0 {
      assert !Bit(n, 0);
      forall k: nat ensures !Bit(n / 2, k) {
        assert Bit(n, k + 1) == Bit(n / 2, k);
      }
      NoBitsIsZero(n / 2);
    }
  }

  lemma {:induction false} BitOfLowOnes(m: nat, k: nat)
    ensures Bit(Pow2(m) - 1, k) <==> k < m
  {
    if m == 0 {
      ZeroHasNoBits(k);
    } else if k > 0 {
      assert (Pow2(m) - 1) / 2 == Pow2(m - 1) - 1;
      BitOfLowOnes(m - 1, k - 1);
    }
  }

  lemma {:induction false} PowAdd(a: nat, b: nat)
    ensures Pow2(a + b) == Pow2(a) * Pow2(b)
  {
    if a > 0 {
      PowAdd(a - 1, b);
      assert Pow2(a + b) == 2 * (Pow2(a - 1) * Pow2(b)) == Pow2(a) * Pow2(b);
    }
  }

  /** The constants the sources write as literals or shift out of one. */
  lemma PowValues()
    ensures Pow2(7) == 128 && Pow2(14) == 0x4000 && Pow2(21) == 0x20_0000
    ensures Pow2(28) == 0x1000_0000 && Pow2(32) == TWO32 && Pow2(35) == 0x8_0000_0000
    ensures Pow2(31) == TWO31 && Pow2(63) == TWO63 && Pow2(64) == TWO64
  {
    assert Pow2(7) == 128;
    PowAdd(7, 7);
    PowAdd(14, 7);
    PowAdd(21, 7);
    PowAdd(28, 7);
    PowAdd(28, 3);
    assert Pow2(3) == 8;
    PowAdd(31, 1);
    PowAdd(32, 31);
    PowAdd(32, 32);
  }
}
