// JavaScript's bitwise operators on non-negative integers, and numbers read as
// sequences of bits. A 32-bit register is kept as the low 32 bits of its value:
// `>>>`, `&` and `|` look at bits only, so the sign of the int32 view plays no
// part. Everything is stated by halving and doubling, which keeps the
// arithmetic linear.
module Bits {

  /** `x & y`. */
  function And(x: nat, y: nat): nat {
    if x == 0 || y == 0 then 0
    else 2 * And(x / 2, y / 2) + (if x % 2 == 1 && y % 2 == 1 then 1 else 0)
  }

  /** `x | y`. */
  function Or(x: nat, y: nat): nat
    decreases x + y
  {
    if x == 0 then y
    else if y == 0 then x
    else 2 * Or(x / 2, y / 2) + (if x % 2 == 1 || y % 2 == 1 then 1 else 0)
  }

  /** x times 2^k. */
  function Double(x: nat, k: nat): nat {
    if k == 0 then x else 2 * Double(x, k - 1)
  }

  /** `x >>> k`: x with its k low bits dropped. */
  function Shr(x: nat, k: nat): nat {
    if k == 0 then x else Shr(x / 2, k - 1)
  }

  /** The k low bits of x, as a number. */
  function Trunc(x: nat, k: nat): nat {
    if k == 0 then 0 else 2 * Trunc(x / 2, k - 1) + x % 2
  }

  /** `x << k` in a 32-bit register: bits beyond the 32nd are lost. */
  function Shl32(x: nat, k: nat): nat {
    Trunc(Double(x, k), 32)
  }

  /** k ones: 2^k - 1. */
  function Ones(k: nat): nat {
    if k == 0 then 0 else 2 * Ones(k - 1) + 1
  }

  // ---- masks and disjoint unions ---------------------------------------------

  lemma {:induction false} AndLowMask(x: nat, k: nat)
    ensures And(x, Ones(k)) == Trunc(x, k)
  {
    if k > 0 {
      AndLowMask(x / 2, k - 1);
      if x == 0 {
        TruncZero(k);
      }
    }
  }

  lemma {:induction false} TruncZero(k: nat)
    ensures Trunc(0, k) == 0
  {
    if k > 0 {
      TruncZero(k - 1);
    }
  }

  lemma {:induction false} AndHighMask(x: nat, m: nat, k: nat)
    ensures And(x, Double(m, k)) == Double(And(Shr(x, k), m), k)
  {
    if k > 0 {
      AndHighMask(x / 2, m, k - 1);
    }
  }

  /** Small numbers fit: truncation changes nothing. */
  lemma {:induction false} TruncFits(x: nat, k: nat)
    requires x <= Ones(k)
    ensures Trunc(x, k) == x
  {
    if k > 0 {
      TruncFits(x / 2, k - 1);
    }
  }

  lemma {:induction false} TruncBound(x: nat, k: nat)
    ensures Trunc(x, k) <= Ones(k)
  {
    if k > 0 {
      TruncBound(x / 2, k - 1);
    }
  }

  lemma {:induction false} OrDisjoint(hi: nat, lo: nat, k: nat)
    requires lo <= Ones(k)
    ensures Or(Double(hi, k), lo) == Double(hi, k) + lo
  {
    if k > 0 {
      OrDisjoint(hi, lo / 2, k - 1);
    }
  }

  // ---- shifts as divisions -----------------------------------------------------

  lemma {:induction false} ShrAdd(x: nat, j: nat, k: nat)
    ensures Shr(x, j + k) == Shr(Shr(x, j), k)
  {
    if j > 0 {
      ShrAdd(x / 2, j - 1, k);
    }
  }

  lemma {:induction false} DoubleAdd(x: nat, j: nat, k: nat)
    ensures Double(x, j + k) == Double(Double(x, j), k)
  {
    if k > 0 {
      DoubleAdd(x, j, k - 1);
    }
  }

  lemma {:induction false} TruncAdd(x: nat, j: nat, k: nat)
    ensures Trunc(x, j + k) == Double(Trunc(Shr(x, j), k), j) + Trunc(x, j)
  {
    if j > 0 {
      TruncAdd(x / 2, j - 1, k);
    }
  }

  lemma ByTwo(x: nat)
    ensures Shr(x, 2) == x / 4 && Double(x, 2) == 4 * x && Trunc(x, 2) == x % 4
  {
    assert Shr(x, 2) == Shr(x / 2, 1) == Shr(x / 2 / 2, 0);
    assert Double(x, 2) == 2 * Double(x, 1) && Double(x, 1) == 2 * Double(x, 0);
    assert Trunc(x, 2) == 2 * Trunc(x / 2, 1) + x % 2 && Trunc(x / 2, 1) == 2 * Trunc(x / 2 / 2, 0) + x / 2 % 2;
  }

  lemma ByFour(x: nat)
    ensures Shr(x, 4) == x / 16 && Double(x, 4) == 16 * x && Trunc(x, 4) == x % 16
  {
    ShrAdd(x, 2, 2);
    DoubleAdd(x, 2, 2);
    TruncAdd(x, 2, 2);
    ByTwo(x);
    ByTwo(x / 4);
    ByTwo(4 * x);
    ByTwo(x / 4 % 4);
  }

  /** Shifts and masks by a byte are divisions and remainders by 256. */
  lemma ByByte(x: nat)
    ensures Shr(x, 8) == x / 256 && Double(x, 8) == 256 * x && Trunc(x, 8) == x % 256
  {
    ShrAdd(x, 4, 4);
    DoubleAdd(x, 4, 4);
    TruncAdd(x, 4, 4);
    ByFour(x);
    ByFour(x / 16);
    ByFour(16 * x);
    ByFour(x / 16 % 16);
  }

  lemma ByTwoBytes(x: nat)
    ensures Shr(x, 16) == x / 65536 && Double(x, 16) == 65536 * x
  {
    ShrAdd(x, 8, 8);
    DoubleAdd(x, 8, 8);
    ByByte(x);
    ByByte(x / 256);
    ByByte(256 * x);
  }

  lemma ShrByTwoBytes(x: nat, k: nat)
    ensures Shr(x, 16 + k) == Shr(x / 65536, k)
  {
    ShrAdd(x, 16, k);
    ByTwoBytes(x);
  }

  // ---- a number as its low bits -------------------------------------------------

  /** The n low bits of x, most significant first. */
  function LowBits(x: nat, n: nat): (b: seq<bool>)
    ensures |b| == n
  {
    if n == 0 then [] else LowBits(x / 2, n - 1) + [x % 2 == 1]
  }

  lemma {:induction false} LowBitsOfTrunc(x: nat, n: nat, m: nat)
    requires n <= m
    ensures LowBits(Trunc(x, m), n) == LowBits(x, n)
  {
    if n > 0 {
      LowBitsOfTrunc(x / 2, n - 1, m - 1);
    }
  }

  lemma {:induction false} LowBitsConcat(hi: nat, lo: nat, n: nat, k: nat)
    requires lo <= Ones(k)
    ensures LowBits(Double(hi, k) + lo, n + k) == LowBits(hi, n) + LowBits(lo, k)
  {
    if k > 0 {
      LowBitsConcat(hi, lo / 2, n, k - 1);
      assert (Double(hi, k) + lo) / 2 == Double(hi, k - 1) + lo / 2;
    }
  }

  /** The low n + k bits are the n bits above position k, then the k low ones. */
  lemma {:induction false} LowBitsSplit(x: nat, n: nat, k: nat)
    ensures LowBits(x, n + k) == LowBits(Shr(x, k), n) + LowBits(x, k)
  {
    if k > 0 {
      LowBitsSplit(x / 2, n, k - 1);
    }
  }

  lemma {:induction false} LowBitsInjective(x: nat, y: nat, n: nat)
    requires x <= Ones(n) && y <= Ones(n)
    requires LowBits(x, n) == LowBits(y, n)
    ensures x == y
  {
    if n > 0 {
      assert LowBits(x, n)[n - 1] == (x % 2 == 1) && LowBits(y, n)[n - 1] == (y % 2 == 1);
      assert LowBits(x / 2, n - 1) == LowBits(x, n)[..n - 1] == LowBits(y, n)[..n - 1] == LowBits(y / 2, n - 1);
      LowBitsInjective(x / 2, y / 2, n - 1);
    }
  }

  /** The number n bits stand for. */
  function FromBits(b: seq<bool>): (x: nat)
    ensures x <= Ones(|b|)
  {
    if b == [] then 0
    else 2 * FromBits(b[..|b| - 1]) + (if b[|b| - 1] then 1 else 0)
  }

  lemma {:induction false} LowBitsOfFromBits(b: seq<bool>)
    ensures LowBits(FromBits(b), |b|) == b
  {
    if b != [] {
      LowBitsOfFromBits(b[..|b| - 1]);
      assert b == b[..|b| - 1] + [b[|b| - 1]];
    }
  }
}
