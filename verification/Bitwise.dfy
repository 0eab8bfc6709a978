/**
 * The bitwise operators of C on non-negative integers of any width, and their laws bit by bit.
 */
module Bitwise {

  type byte = x: int | 0 <= x < 256

  function Pow2(n: nat): (p: nat)
    ensures p > 0
  {
    if n == 0 then 1 else 2 * Pow2(n - 1)
  }

  function Xor(a: nat, b: nat): nat {
    if a == 0 then b else if b == 0 then a else (if a % 2 == b % 2 then 0 else 1) + 2 * Xor(a / 2, b / 2)
  }

  function Or(a: nat, b: nat): nat {
    if a == 0 then b else if b == 0 then a else (if a % 2 == 1 then 1 else b % 2) + 2 * Or(a / 2, b / 2)
  }

  function And(a: nat, b: nat): nat {
    if a == 0 || b == 0 then 0 else (if a % 2 == 1 then b % 2 else 0) + 2 * And(a / 2, b / 2)
  }

  function Shl(a: nat, n: nat): nat {
    if n == 0 then a else 2 * Shl(a, n - 1)
  }

  function Shr(a: nat, n: nat): nat {
    if n == 0 then a else Shr(a / 2, n - 1)
  }

  /** The n lowest bits. */
  function Low(a: nat, n: nat): nat {
    if n == 0 then 0 else a % 2 + 2 * Low(a / 2, n - 1)
  }

  predicate Bit(a: nat, k: nat) {
    if k == 0 then a % 2 == 1 else Bit(a / 2, k - 1)
  }

  lemma {:induction false} ZeroBits(k: nat)
    ensures !Bit(0, k)
  {
    if k > 0 { ZeroBits(k - 1); }
  }

  lemma {:induction false} XorBit(a: nat, b: nat, k: nat)
    ensures Bit(Xor(a, b), k) <==> Bit(a, k) != Bit(b, k)
  {
    ZeroBits(k);
    if k > 0 && a > 0 && b > 0 {
      XorBit(a / 2, b / 2, k - 1);
    }
  }

  lemma {:induction false} OrBit(a: nat, b: nat, k: nat)
    ensures Bit(Or(a, b), k) <==> Bit(a, k) || Bit(b, k)
  {
    ZeroBits(k);
    if k > 0 && a > 0 && b > 0 {
      OrBit(a / 2, b / 2, k - 1);
    }
  }

  lemma {:induction false} AndBit(a: nat, b: nat, k: nat)
    ensures Bit(And(a, b), k) <==> Bit(a, k) && Bit(b, k)
  {
    ZeroBits(k);
    if k > 0 && a > 0 && b > 0 {
      AndBit(a / 2, b / 2, k - 1);
    }
  }

  lemma {:induction false} ShlBit(a: nat, n: nat, k: nat)
    ensures Bit(Shl(a, n), k) <==> n <= k && Bit(a, k - n)
  {
    if n > 0 && k > 0 {
      ShlBit(a, n - 1, k - 1);
    }
  }

  lemma {:induction false} ShrBit(a: nat, n: nat, k: nat)
    ensures Bit(Shr(a, n), k) <==> Bit(a, k + n)
  {
    if n > 0 {
      ShrBit(a / 2, n - 1, k);
    }
  }

  lemma {:induction false} LowBit(a: nat, n: nat, k: nat)
    ensures Bit(Low(a, n), k) <==> k < n && Bit(a, k)
  {
    ZeroBits(k);
    if n > 0 && k > 0 {
      LowBit(a / 2, n - 1, k - 1);
    }
  }

  lemma {:induction false} SplitAt(a: nat, n: nat)
    ensures a == Shr(a, n) * Pow2(n) + Low(a, n) && Low(a, n) < Pow2(n)
  {
    if n > 0 {
      SplitAt(a / 2, n - 1);
      Doubled(Shr(a / 2, n - 1), Pow2(n - 1));
    }
  }

  lemma Doubled(x: int, y: int)
    ensures x * (2 * y) == 2 * (x * y)
  {
  }

  lemma {:induction false} ShlIsTimes(a: nat, n: nat)
    ensures Shl(a, n) == a * Pow2(n)
  {
    if n > 0 {
      ShlIsTimes(a, n - 1);
      Doubled(a, Pow2(n - 1));
    }
  }

  /** Division and remainder by a power of two are the upper and the lower bits. */
  lemma ShiftIsDivision(a: nat, n: nat)
    ensures a / Pow2(n) == Shr(a, n) && a % Pow2(n) == Low(a, n)
  {
    SplitAt(a, n);
    DivUnique(a, Pow2(n), Shr(a, n), Low(a, n));
  }

  lemma DivUnique(a: nat, m: nat, q: nat, r: nat)
    requires m > 0 && a == q * m + r && r < m
    ensures a / m == q && a % m == r
  {
    MultiplesApart(a / m - q, m);
    assert (a / m - q) * m == r - a % m;
  }

  lemma MultiplesApart(d: int, m: int)
    requires m > 0
    ensures d == 0 || d * m >= m || d * m <= -m
  {
    if d >= 1 {
      assert d * m >= m;
    } else if d <= -1 {
      assert d * m <= -m;
    }
  }

  /** A number is below 2^n exactly if it has no bit from n upwards. */
  lemma {:induction false} HighBits(a: nat, n: nat, k: nat)
    requires a < Pow2(n) && n <= k
    ensures !Bit(a, k)
  {
    if n == 0 {
      ZeroBits(k);
    } else {
      HighBits(a / 2, n - 1, k - 1);
    }
  }

  lemma {:induction false} BelowIf(a: nat, n: nat)
    requires forall k: nat | k >= n :: !Bit(a, k)
    ensures a < Pow2(n)
  {
    if n == 0 {
      if a > 0 {
        var k := TopBit(a);
      }
    } else {
      forall k: nat | k >= n - 1
        ensures !Bit(a / 2, k)
      {
        assert !Bit(a, k + 1);
      }
      BelowIf(a / 2, n - 1);
    }
  }

  lemma {:induction false} TopBit(a: nat) returns (k: nat)
    requires a > 0
    ensures Bit(a, k)
  {
    if a % 2 == 1 {
      k := 0;
    } else {
      k := TopBit(a / 2);
      k := k + 1;
    }
  }

  /** Numbers with the same bits are equal. */
  lemma {:induction false} SameBits(a: nat, b: nat)
    requires forall k: nat :: Bit(a, k) <==> Bit(b, k)
    ensures a == b
  {
    assert Bit(a, 0) <==> Bit(b, 0);
    if a > 0 || b > 0 {
      forall k: nat
        ensures Bit(a / 2, k) <==> Bit(b / 2, k)
      {
        assert Bit(a, k + 1) <==> Bit(b, k + 1);
      }
      SameBits(a / 2, b / 2);
    }
  }

  /** Xor undoes itself. */
  lemma XorTwice(a: nat, b: nat)
    ensures Xor(Xor(a, b), b) == a
  {
    forall k: nat
      ensures Bit(Xor(Xor(a, b), b), k) <==> Bit(a, k)
    {
      XorBit(Xor(a, b), b, k);
      XorBit(a, b, k);
    }
    SameBits(Xor(Xor(a, b), b), a);
  }

  lemma XorBelow(a: nat, b: nat, n: nat)
    requires a < Pow2(n) && b < Pow2(n)
    ensures Xor(a, b) < Pow2(n)
  {
    forall k: nat | k >= n
      ensures !Bit(Xor(a, b), k)
    {
      XorBit(a, b, k);
      HighBits(a, n, k);
      HighBits(b, n, k);
    }
    BelowIf(Xor(a, b), n);
  }

  /** Shifting up leaves room for a number below 2^n, which or, xor and plus all fill alike. */
  lemma {:induction false} FillsLowBits(a: nat, n: nat, b: nat)
    requires b < Pow2(n)
    ensures Or(Shl(a, n), b) == Xor(Shl(a, n), b) == Shl(a, n) + b
  {
    if n > 0 {
      FillsLowBits(a, n - 1, b / 2);
    }
  }
}
