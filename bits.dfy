/** Unsigned machine words as natural numbers, with the bitwise operators
    the firmware applies to its channel and area bitmaps (`|`, `&`, `& ~`)
    defined bit by bit, and the facts about single bits that the models use. */
module Bits {

  function Pow2(n: nat): (p: nat)
    ensures p >= 1
  {
    if n == 0 then 1 else 2 * Pow2(n - 1)
  }

  lemma Pow2Values()
    ensures Pow2(4) == 16 && Pow2(8) == 0x100 && Pow2(12) == 0x1000 && Pow2(16) == 0x1_0000
    ensures Pow2(24) == 0x100_0000 && Pow2(28) == 0x1000_0000 && Pow2(32) == 0x1_0000_0000
  {
  }

  /** Bit `i` of `x`, least significant first. */
  predicate Bit(x: nat, i: nat)
  {
    if i == 0 then x % 2 == 1 else Bit(x / 2, i - 1)
  }

  /** `a | b`. */
  function Or(a: nat, b: nat): nat
    decreases a + b
  {
    if a == 0 && b == 0 then 0
    else 2 * Or(a / 2, b / 2) + (if a % 2 == 1 || b % 2 == 1 then 1 else 0)
  }

  /** `a & b`. */
  function And(a: nat, b: nat): nat
    decreases a + b
  {
    if a == 0 || b == 0 then 0
    else 2 * And(a / 2, b / 2) + (if a % 2 == 1 && b % 2 == 1 then 1 else 0)
  }

  /** `a & ~b`: the bits of `a` that `b` does not have. */
  function AndNot(a: nat, b: nat): nat
    decreases a
  {
    if a == 0 then 0
    else 2 * AndNot(a / 2, b / 2) + (if a % 2 == 1 && b % 2 == 0 then 1 else 0)
  }

  lemma HalfOf(q: nat, c: nat)
    requires c < 2
    ensures (2 * q + c) / 2 == q && (2 * q + c) % 2 == c
  {
  }

  lemma {:induction false} ZeroBit(i: nat)
    ensures !Bit(0, i)
  {
    if i > 0 {
      ZeroBit(i - 1);
    }
  }

  lemma {:induction false} OrBit(a: nat, b: nat, i: nat)
    ensures Bit(Or(a, b), i) <==> Bit(a, i) || Bit(b, i)
    decreases i
  {
    if a == 0 && b == 0 {
      ZeroBit(i);
    } else {
      HalfOf(Or(a / 2, b / 2), if a % 2 == 1 || b % 2 == 1 then 1 else 0);
      if i > 0 {
        OrBit(a / 2, b / 2, i - 1);
      }
    }
  }

  lemma {:induction false} AndBit(a: nat, b: nat, i: nat)
    ensures Bit(And(a, b), i) <==> Bit(a, i) && Bit(b, i)
    decreases i
  {
    if a == 0 || b == 0 {
      ZeroBit(i);
    } else {
      HalfOf(And(a / 2, b / 2), if a % 2 == 1 && b % 2 == 1 then 1 else 0);
      if i > 0 {
        AndBit(a / 2, b / 2, i - 1);
      }
    }
  }

  lemma {:induction false} AndNotBit(a: nat, b: nat, i: nat)
    ensures Bit(AndNot(a, b), i) <==> Bit(a, i) && !Bit(b, i)
    decreases i
  {
    if a == 0 {
      ZeroBit(i);
    } else {
      HalfOf(AndNot(a / 2, b / 2), if a % 2 == 1 && b % 2 == 0 then 1 else 0);
      if i > 0 {
        AndNotBit(a / 2, b / 2, i - 1);
      }
    }
  }

  /** `1 << k` has bit k and no other. */
  lemma {:induction false} Pow2Bit(k: nat, i: nat)
    ensures Bit(Pow2(k), i) <==> i == k
    decreases i
  {
    if k == 0 {
      if i > 0 {
        assert Pow2(0) / 2 == 0;
        ZeroBit(i - 1);
      }
    } else {
      HalfOf(Pow2(k - 1), 0);
      if i > 0 {
        Pow2Bit(k - 1, i - 1);
      }
    }
  }

  /** A word below 2^k has no bit at k or above. */
  lemma {:induction false} HighBitsClear(x: nat, k: nat, i: nat)
    requires x < Pow2(k) && i >= k
    ensures !Bit(x, i)
    decreases i
  {
    if i == 0 {
      assert x == 0;
    } else if k == 0 {
      assert x == 0;
      ZeroBit(i);
    } else {
      HighBitsClear(x / 2, k - 1, i - 1);
    }
  }

  /** Two words below 2^k with the same bits below k are equal. */
  lemma {:induction false} BitsEqual(a: nat, b: nat, k: nat)
    requires a < Pow2(k) && b < Pow2(k)
    requires forall i :: 0 <= i < k ==> (Bit(a, i) <==> Bit(b, i))
    ensures a == b
    decreases k
  {
    if k == 0 {
    } else {
      assert Bit(a, 0) <==> Bit(b, 0);
      forall i | 0 <= i < k - 1
        ensures Bit(a / 2, i) <==> Bit(b / 2, i)
      {
        assert Bit(a, i + 1) <==> Bit(b, i + 1);
      }
      BitsEqual(a / 2, b / 2, k - 1);
    }
  }

  lemma {:induction false} OrBound(a: nat, b: nat, k: nat)
    requires a < Pow2(k) && b < Pow2(k)
    ensures Or(a, b) < Pow2(k)
    decreases k
  {
    if k > 0 && !(a == 0 && b == 0) {
      OrBound(a / 2, b / 2, k - 1);
    }
  }

  lemma {:induction false} AndBound(a: nat, b: nat)
    ensures And(a, b) <= a
    decreases a + b
  {
    if a != 0 && b != 0 {
      AndBound(a / 2, b / 2);
    }
  }

  lemma {:induction false} AndNotBound(a: nat, b: nat)
    ensures AndNot(a, b) <= a
    decreases a
  {
    if a != 0 {
      AndNotBound(a / 2, b / 2);
    }
  }

  lemma {:induction false} OrZero(a: nat)
    ensures Or(a, 0) == a && Or(0, a) == a
    decreases a
  {
    if a != 0 {
      OrZero(a / 2);
    }
  }

  /** `x << k`. */
  function Shl(x: nat, k: nat): nat
  {
    if k == 0 then x else 2 * Shl(x, k - 1)
  }

  /** `x >> k`. */
  function Shr(x: nat, k: nat): nat
  {
    if k == 0 then x else Shr(x / 2, k - 1)
  }

  /** `x & ((1 << k) - 1)`: the lowest `k` bits. */
  function Low(x: nat, k: nat): nat
  {
    if k == 0 then 0 else 2 * Low(x / 2, k - 1) + x % 2
  }

  lemma MulPos(d: int, n: int)
    requires d > 0 && n >= 1
    ensures d * n >= d
  {
    assert d * n == d + d * (n - 1);
  }

  /** Quotient and remainder are determined by `x == d * q + r`, `0 <= r < d`. */
  lemma DivModUnique(x: int, d: int, q: int, r: int)
    requires d > 0 && 0 <= r < d && x == d * q + r
    ensures x / d == q && x % d == r
  {
    var q0, r0 := x / d, x % d;
    assert d * (q - q0) == r0 - r;
    if q > q0 {
      MulPos(d, q - q0);
    } else if q < q0 {
      MulPos(d, q0 - q);
    }
  }

  lemma ModHalf(x: nat, P: nat)
    requires P >= 1
    ensures x % (2 * P) == 2 * ((x / 2) % P) + x % 2
    ensures x / (2 * P) == (x / 2) / P
  {
    var q := (x / 2) / P;
    var r := (x / 2) % P;
    assert x / 2 == P * q + r;
    assert x == 2 * (P * q) + 2 * r + x % 2;
    assert 2 * (P * q) == (2 * P) * q;
    DivModUnique(x, 2 * P, q, 2 * r + x % 2);
  }

  /** The shifts and the low-bit mask are multiplication, division and
      remainder by 2^k. */
  lemma ShiftValues(x: nat, k: nat)
    ensures Shl(x, k) == x * Pow2(k)
    ensures Shr(x, k) == x / Pow2(k)
    ensures Low(x, k) == x % Pow2(k)
  {
    ShlValue(x, k);
    ShrLowValue(x, k);
  }

  lemma {:induction false} ShlValue(x: nat, k: nat)
    ensures Shl(x, k) == x * Pow2(k)
    decreases k
  {
    if k > 0 {
      var P := Pow2(k - 1);
      ShlValue(x, k - 1);
      assert Shl(x, k) == 2 * (x * P);
      assert 2 * (x * P) == x * (2 * P);
    }
  }

  lemma {:induction false} ShrLowValue(x: nat, k: nat)
    ensures Shr(x, k) == x / Pow2(k)
    ensures Low(x, k) == x % Pow2(k)
    decreases k
  {
    if k > 0 {
      var P := Pow2(k - 1);
      ShrLowValue(x / 2, k - 1);
      assert Shr(x, k) == (x / 2) / P;
      assert Low(x, k) == 2 * ((x / 2) % P) + x % 2;
      ModHalf(x, P);
      assert Pow2(k) == 2 * P;
    }
  }

  /** Placing `a` above `k` low bits that hold `b` is an OR of disjoint
      fields: `(a << k) | b == (a << k) + b` when `b < 2^k`. */
  lemma {:induction false} OrShifted(a: nat, b: nat, k: nat)
    requires b < Pow2(k)
    ensures Or(Shl(a, k), b) == Shl(a, k) + b
    decreases k
  {
    if k == 0 {
      OrZero(a);
    } else if Shl(a, k) == 0 && b == 0 {
    } else {
      HalfOf(Shl(a, k - 1), 0);
      OrShifted(a, b / 2, k - 1);
    }
  }

  /** Masking with `2^k - 1` keeps the lowest `k` bits. */
  lemma {:induction false} AndLowMask(x: nat, k: nat)
    ensures And(x, Pow2(k) - 1) == Low(x, k)
    decreases k
  {
    if k > 0 && x != 0 {
      assert (Pow2(k) - 1) / 2 == Pow2(k - 1) - 1 && (Pow2(k) - 1) % 2 == 1;
      AndLowMask(x / 2, k - 1);
    } else if k > 0 {
      LowZero(k);
    }
  }

  lemma {:induction false} LowZero(k: nat)
    ensures Low(0, k) == 0
  {
    if k > 0 {
      LowZero(k - 1);
    }
  }

  lemma {:induction false} ShlZero(k: nat)
    ensures Shl(0, k) == 0
  {
    if k > 0 {
      ShlZero(k - 1);
    }
  }

  lemma {:induction false} ShrZero(k: nat)
    ensures Shr(0, k) == 0
  {
    if k > 0 {
      ShrZero(k - 1);
    }
  }

  /** `x & (m << k) == ((x >> k) & m) << k`. */
  lemma {:induction false} AndShifted(x: nat, m: nat, k: nat)
    ensures And(x, Shl(m, k)) == Shl(And(Shr(x, k), m), k)
    decreases k
  {
    if k == 0 {
    } else if x == 0 {
      ShrZero(k);
      ShlZero(k);
    } else if Shl(m, k) == 0 {
      assert m == 0 by {
        if m != 0 {
          ShiftValues(m, k);
          MulPos(Pow2(k), m);
        }
      }
      ShlZero(k);
    } else {
      HalfOf(Shl(m, k - 1), 0);
      assert And(x, Shl(m, k)) == 2 * And(x / 2, Shl(m, k - 1));
      AndShifted(x / 2, m, k - 1);
    }
  }

  /** `x & (2^k - 1) == x % 2^k`. */
  lemma AndMaskValue(x: nat, k: nat)
    ensures And(x, Pow2(k) - 1) == x % Pow2(k)
  {
    AndLowMask(x, k);
    ShrLowValue(x, k);
  }

  /** Masking with k low ones keeps a value of at most k bits. */
  lemma MaskKeeps(x: nat, k: nat)
    requires x < Pow2(k)
    ensures And(x, Pow2(k) - 1) == x
  {
    AndMaskValue(x, k);
    DivModUnique(x, Pow2(k), 0, x);
  }

  /** `a << k` has no bit below k. */
  lemma {:induction false} LowBitsClear(a: nat, k: nat, i: nat)
    requires i < k
    ensures !Bit(Shl(a, k), i)
    decreases k
  {
    HalfOf(Shl(a, k - 1), 0);
    if i > 0 {
      LowBitsClear(a, k - 1, i - 1);
    }
  }

  /** `(1 << k) - 1` has exactly the bits below k. */
  lemma {:induction false} LowOnes(k: nat, i: nat)
    ensures Bit(Pow2(k) - 1, i) <==> i < k
    decreases k
  {
    if k == 0 {
      ZeroBit(i);
    } else {
      assert (Pow2(k) - 1) / 2 == Pow2(k - 1) - 1 && (Pow2(k) - 1) % 2 == 1;
      if i > 0 {
        LowOnes(k - 1, i - 1);
      }
    }
  }

  /** A word below 2^k with none of its low k bits set is zero. */
  lemma ZeroBitsIsZero(x: nat, k: nat)
    requires x < Pow2(k) && forall i :: 0 <= i < k ==> !Bit(x, i)
    ensures x == 0
  {
    forall i | 0 <= i < k
      ensures Bit(x, i) <==> Bit(0, i)
    {
      ZeroBit(i);
    }
    BitsEqual(x, 0, k);
  }

  /** The number of set bits among the lowest `k`. */
  function PopCount(x: nat, k: nat): (n: nat)
    ensures n <= k
  {
    if k == 0 then 0 else PopCount(x, k - 1) + (if Bit(x, k - 1) then 1 else 0)
  }

  /** Shifting by `a + b` is shifting by `a` and then by `b`. */
  lemma {:induction false} ShrAdd(x: nat, a: nat, b: nat)
    ensures Shr(x, a + b) == Shr(Shr(x, a), b)
    decreases a
  {
    if a > 0 {
      ShrAdd(x / 2, a - 1, b);
    }
  }

  /** Splitting a remainder by `d * P` into one digit of base `d` and the rest. */
  lemma ModSplit(x: nat, d: nat, P: nat)
    requires d >= 1 && P >= 1
    ensures x % (d * P) == d * ((x / d) % P) + x % d
    ensures x / (d * P) == (x / d) / P
  {
    var q := (x / d) / P;
    var r := (x / d) % P;
    var low := x % d;
    assert x == d * (x / d) + low;
    assert x / d == P * q + r;
    MulSplit(d, P, q, r);
    assert r <= P - 1;
    MulMono(d, r, P - 1);
    DivModUnique(x, d * P, q, d * r + low);
  }

  lemma MulSplit(d: int, P: int, q: int, r: int)
    ensures d * (P * q + r) == (d * P) * q + d * r
  {
  }

  lemma MulMono(d: nat, a: int, b: int)
    requires a <= b
    ensures d * a <= d * b
  {
  }

  lemma {:induction false} OrComm(a: nat, b: nat)
    ensures Or(a, b) == Or(b, a)
    decreases a + b
  {
    if !(a == 0 && b == 0) {
      OrComm(a / 2, b / 2);
    }
  }

  lemma Pow2Of24()
    ensures Pow2(24) == 0x100_0000
  {
    assert Pow2(8) == 0x100;
    assert Pow2(16) == 0x1_0000;
  }
}
