/**
 Fixed-width integer operations of the C code, defined bit by bit so that every fact about them is an induction
 on the width: shifts, masks, bitwise or, and the reading of an integer as a string of bits (most significant
 bit first).  `/` and `%` by 2 round towards minus infinity, so Shr is the arithmetic shift and Mask is the
 two's-complement truncation that the C code relies on.
 */
module Bits {

  type byte = x: int | 0 <= x < 256

  function Pow2(n: nat): (p: int)
    ensures p >= 1
  {
    if n == 0 then 1 else 2 * Pow2(n - 1)
  }

  function Shl(x: int, k: nat): (r: int)
    ensures x >= 0 ==> r >= x
    decreases k
  {
    if k == 0 then x else 2 * Shl(x, k - 1)
  }

  function Shr(x: int, k: nat): int
    decreases k
  {
    if k == 0 then x else Shr(x / 2, k - 1)
  }

  /** x & ((1 << n) - 1) */
  function Mask(x: int, n: nat): (m: int)
    ensures 0 <= m < Pow2(n)
    decreases n
  {
    if n == 0 then 0 else x % 2 + 2 * Mask(x / 2, n - 1)
  }

  function Or(x: nat, y: nat): nat {
    if x == 0 && y == 0 then 0
    else (if x % 2 == 1 || y % 2 == 1 then 1 else 0) + 2 * Or(x / 2, y / 2)
  }

  /** The low n bits of x, most significant first. */
  function ToBits(x: int, n: nat): (s: seq<bool>)
    ensures |s| == n
    decreases n
  {
    if n == 0 then [] else ToBits(x / 2, n - 1) + [x % 2 == 1]
  }

  function FromBits(s: seq<bool>): (x: int)
    ensures 0 <= x < Pow2(|s|)
  {
    if s == [] then 0 else 2 * FromBits(s[..|s| - 1]) + (if s[|s| - 1] then 1 else 0)
  }

  function Const(b: bool, n: nat): (s: seq<bool>)
    ensures |s| == n
  {
    seq(n, _ => b)
  }

  lemma {:induction false} ToBitsSplit(x: int, a: nat, b: nat)
    ensures ToBits(x, a + b) == ToBits(Shr(x, b), a) + ToBits(x, b)
    decreases b
  {
    if b > 0 {
      ToBitsSplit(x / 2, a, b - 1);
      assert ToBits(x, a + b) == ToBits(x / 2, a + (b - 1)) + [x % 2 == 1];
    }
  }

  lemma {:induction false} ToBitsMask(x: int, m: nat, n: nat)
    requires n <= m
    ensures ToBits(Mask(x, m), n) == ToBits(x, n)
    decreases n
  {
    if n > 0 {
      assert Mask(x, m) / 2 == Mask(x / 2, m - 1) && Mask(x, m) % 2 == x % 2;
      ToBitsMask(x / 2, m - 1, n - 1);
    }
  }

  lemma {:induction false} FromToBits(x: int, n: nat)
    ensures FromBits(ToBits(x, n)) == Mask(x, n)
    decreases n
  {
    if n > 0 {
      FromToBits(x / 2, n - 1);
      assert ToBits(x, n)[..n - 1] == ToBits(x / 2, n - 1);
    }
  }

  lemma {:induction false} ToFromBits(s: seq<bool>)
    ensures ToBits(FromBits(s), |s|) == s
  {
    if s != [] {
      ToFromBits(s[..|s| - 1]);
      assert FromBits(s) / 2 == FromBits(s[..|s| - 1]);
    }
  }

  lemma {:induction false} MaskSmall(x: int, n: nat)
    requires 0 <= x < Pow2(n)
    ensures Mask(x, n) == x
  {
    if n > 0 {
      MaskSmall(x / 2, n - 1);
    }
  }

  /** Two's complement: a negative number that fits keeps its residue. */
  lemma {:induction false} MaskNegative(x: int, n: nat)
    requires -Pow2(n) <= x < 0
    ensures Mask(x, n) == x + Pow2(n)
    decreases n
  {
    if n > 0 {
      MaskNegative(x / 2, n - 1);
    }
  }

  lemma {:induction false} ShrShr(x: int, a: nat, b: nat)
    ensures Shr(Shr(x, a), b) == Shr(x, a + b)
    decreases a
  {
    if a > 0 {
      ShrShr(x / 2, a - 1, b);
    }
  }

  lemma {:induction false} ShlPow2(x: int, k: nat)
    ensures Shl(x, k) == x * Pow2(k)
    decreases k
  {
    if k > 0 {
      ShlPow2(x, k - 1);
    }
  }

  lemma {:induction false} ShlDouble(x: int, k: nat)
    ensures Shl(2 * x, k) == Shl(x, k + 1)
    decreases k
  {
    if k > 0 {
      ShlDouble(x, k - 1);
    }
  }

  lemma {:induction false} ShlMonotone(x: int, y: int, k: nat)
    requires x <= y
    ensures Shl(x, k) <= Shl(y, k)
    decreases k
  {
    if k > 0 {
      ShlMonotone(x, y, k - 1);
    }
  }

  /** Division by a power of two, as inequalities. */
  lemma {:induction false} ShrBounds(x: int, k: nat)
    ensures Shl(Shr(x, k), k) <= x < Shl(Shr(x, k) + 1, k)
    decreases k
  {
    if k > 0 {
      ShrBounds(x / 2, k - 1);
    }
  }

  lemma {:induction false} ShrShlAdd(x: int, y: int, k: nat)
    requires 0 <= y < Pow2(k)
    ensures Shr(Shl(x, k) + y, k) == x
    decreases k
  {
    if k > 0 {
      ShrShlAdd(x, y / 2, k - 1);
      assert (Shl(x, k) + y) / 2 == Shl(x, k - 1) + y / 2;
    }
  }

  lemma {:induction false} ShrMonotone(x: int, y: int, k: nat)
    requires x <= y
    ensures Shr(x, k) <= Shr(y, k)
    decreases k
  {
    if k > 0 {
      ShrMonotone(x / 2, y / 2, k - 1);
    }
  }

  /** x << b | y  reads as the bits of x followed by the b bits of y. */
  lemma {:induction false} ToBitsConcat(x: int, y: int, a: nat, b: nat)
    requires 0 <= y < Pow2(b)
    ensures ToBits(Shl(x, b) + y, a + b) == ToBits(x, a) + ToBits(y, b)
    decreases b
  {
    if b > 0 {
      var z := Shl(x, b) + y;
      assert z / 2 == Shl(x, b - 1) + y / 2 && z % 2 == y % 2;
      ToBitsConcat(x, y / 2, a, b - 1);
      assert ToBits(z, a + b) == ToBits(z / 2, a + (b - 1)) + [z % 2 == 1];
    }
  }

  lemma {:induction false} ToBitsOr(x: nat, y: nat, n: nat, i: nat)
    requires i < n
    ensures ToBits(Or(x, y), n)[i] == (ToBits(x, n)[i] || ToBits(y, n)[i])
    decreases n
  {
    if x == 0 && y == 0 {
      ToBitsZero(n);
    } else {
      assert Or(x, y) / 2 == Or(x / 2, y / 2);
      if i < n - 1 {
        ToBitsOr(x / 2, y / 2, n - 1, i);
      }
    }
  }

  lemma {:induction false} ToBitsZero(n: nat)
    ensures ToBits(0, n) == Const(false, n)
  {
    if n > 0 {
      ToBitsZero(n - 1);
    }
  }

  /** Equal bit strings of two numbers in range mean equal numbers. */
  lemma ToBitsInjective(x: int, y: int, n: nat)
    requires 0 <= x < Pow2(n) && 0 <= y < Pow2(n)
    requires ToBits(x, n) == ToBits(y, n)
    ensures x == y
  {
    FromToBits(x, n);
    FromToBits(y, n);
    MaskSmall(x, n);
    MaskSmall(y, n);
  }

  /** The bits of a byte string. */
  function BytesBits(b: seq<byte>): (s: seq<bool>)
    ensures |s| == 8 * |b|
  {
    if b == [] then [] else ToBits(b[0], 8) + BytesBits(b[1..])
  }
}
