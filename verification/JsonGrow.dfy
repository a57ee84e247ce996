/**
 `pow2gt`: smearing the bits of x - 1 to the right and adding one gives the least power of two that is not below x.
 */
module JsonGrow {

  function Two(n: nat): (p: nat)
    ensures p >= 1
  {
    if n == 0 then 1 else 2 * Two(n - 1)
  }

  /** Bitwise or, bit by bit. */
  function Or(a: nat, b: nat): nat {
    if a == 0 && b == 0 then 0 else 2 * Or(a / 2, b / 2) + if a % 2 == 1 || b % 2 == 1 then 1 else 0
  }

  /** `x >> k`. */
  function Shr(x: nat, k: nat): nat {
    if k == 0 then x else Shr(x / 2, k - 1)
  }

  /** `x | x >> k`. */
  function Smear(x: nat, k: nat): nat {
    Or(x, Shr(x, k))
  }

  lemma {:induction false} OrBound(a: nat, b: nat, n: nat)
    requires a < Two(n) && b < Two(n)
    ensures Or(a, b) < Two(n)
  {
    if n > 0 {
      OrBound(a / 2, b / 2, n - 1);
    }
  }

  lemma {:induction false} OrAbove(a: nat, b: nat)
    ensures Or(a, b) >= a && Or(a, b) >= b
  {
    if a > 0 || b > 0 {
      OrAbove(a / 2, b / 2);
    }
  }

  lemma {:induction false} OrZero(a: nat)
    ensures Or(a, 0) == a
  {
    if a > 0 {
      OrZero(a / 2);
    }
  }

  /** `a << n`. */
  function Shl(a: nat, n: nat): nat {
    if n == 0 then a else 2 * Shl(a, n - 1)
  }

  lemma {:induction false} ShlSum(a: nat, b: nat, n: nat)
    ensures Shl(a + b, n) == Shl(a, n) + Shl(b, n) && Shl(0, n) == 0
  {
    if n > 0 {
      ShlSum(a, b, n - 1);
    }
  }

  lemma {:induction false} ShlTwo(m: nat, n: nat)
    ensures Shl(Two(m), n) == Two(m + n)
  {
    if n > 0 {
      ShlTwo(m, n - 1);
    }
  }

  /** The bits from n on are untouched by an operand below them. */
  lemma {:induction false} OrHigh(hi: nat, lo: nat, z: nat, n: nat)
    requires lo < Two(n) && z < Two(n)
    ensures Or(Shl(hi, n) + lo, z) == Shl(hi, n) + Or(lo, z)
  {
    if n == 0 {
      OrZero(hi);
    } else {
      OrHigh(hi, lo / 2, z / 2, n - 1);
      Halves(Shl(hi, n - 1), lo);
      OrUnfold(Shl(hi, n) + lo, z);
      OrUnfold(lo, z);
    }
  }

  lemma Halves(h: nat, lo: nat)
    ensures (2 * h + lo) / 2 == h + lo / 2 && (2 * h + lo) % 2 == lo % 2
  {}

  lemma OrUnfold(a: nat, b: nat)
    ensures Or(a, b) == 2 * Or(a / 2, b / 2) + if a % 2 == 1 || b % 2 == 1 then 1 else 0
  {}

  function Over(a: nat, b: nat): nat {
    if a > b then a - b else 0
  }

  lemma {:induction false} TwoMonotone(a: nat, b: nat)
    requires a <= b
    ensures Two(a) <= Two(b)
  {
    if a < b {
      TwoMonotone(a, b - 1);
    }
  }

  /** x has n bits and all but the lowest j of them are set. */
  predicate TopSet(x: nat, n: nat, j: nat) {
    j <= n && x < Two(n) && x + Two(j) >= Two(n)
  }

  lemma {:induction false} ShrTop(x: nat, n: nat, j: nat, k: nat)
    requires TopSet(x, n, j) && k <= n
    ensures Shr(x, k) < Two(n - k) && Shr(x, k) + Two(Over(j, k)) >= Two(n - k)
  {
    if k > 0 {
      assert TopSet(x / 2, n - 1, Over(j, 1)) by {
        if j == 0 {
          assert x + 1 == Two(n);
        }
      }
      ShrTop(x / 2, n - 1, Over(j, 1), k - 1);
    }
  }

  lemma {:induction false} SplitTop(x: nat, n: nat, j: nat) returns (hi: nat, lo: nat)
    requires TopSet(x, n, j)
    ensures lo < Two(j) && x == Shl(hi, j) + lo && Shl(hi, j) + Two(j) == Two(n)
  {
    if j == n {
      hi, lo := 0, x;
      ShlSum(0, 0, j);
    } else {
      TwoMonotone(j, n - 1);
      hi, lo := SplitTop(x - Two(n - 1), n - 1, j);
      ShlSum(hi, Two(n - 1 - j), j);
      ShlTwo(n - 1 - j, j);
      hi := hi + Two(n - 1 - j);
    }
  }

  /** Smearing by as many places as are set on top doubles them. */
  lemma SmearTop(x: nat, n: nat, j: nat)
    requires TopSet(x, n, j)
    ensures TopSet(Smear(x, n - j), n, Over(j, n - j))
  {
    var z := Shr(x, n - j);
    ShrTop(x, n, j, n - j);
    var hi, lo := SplitTop(x, n, j);
    OrHigh(hi, lo, z, j);
    OrAbove(lo, z);
    OrBound(lo, z, j);
  }

  lemma {:induction false} FullStays(x: nat, n: nat, k: nat)
    requires x + 1 == Two(n)
    ensures Smear(x, k) == x
  {
    OrAbove(x, Shr(x, k));
    ShrBelow(x, k);
    OrBound(x, Shr(x, k), n);
  }

  lemma {:induction false} ShrBelow(x: nat, k: nat)
    ensures Shr(x, k) <= x
  {
    if k > 0 {
      ShrBelow(x / 2, k - 1);
    }
  }

  /** One line of `pow2gt`: k bits are set on top, or all of them. */
  lemma SmearStep(x: nat, n: nat, k: nat)
    requires 0 < k && TopSet(x, n, Over(n, k))
    ensures TopSet(Smear(x, k), n, Over(n, 2 * k))
  {
    if k <= n {
      SmearTop(x, n, n - k);
    } else {
      FullStays(x, n, k);
    }
  }

  /** The number of bits of x. */
  lemma {:induction false} Bits(x: nat) returns (n: nat)
    ensures x < Two(n) && (n > 0 ==> Two(n - 1) <= x) && TopSet(x, n, Over(n, 1))
  {
    if x == 0 {
      n := 0;
    } else {
      n := Bits(x / 2);
      n := n + 1;
      assert n > 1 ==> Two(n - 1) == 2 * Two(n - 2);
      assert n == 1 ==> Two(0) == 1;
    }
  }

  /** A power of two that is large enough is an `int` exactly for sizes up to 2^30: a buffer cannot grow further. */
  lemma GrowthLimit(needed: nat)
    ensures (exists n: nat :: needed <= Two(n) < 0x8000_0000) <==> needed <= 0x4000_0000
  {
    assert Two(10) == 0x400;
    assert Two(20) == 0x10_0000;
    assert Two(30) == 0x4000_0000;
    assert Two(31) == 2 * Two(30);
    forall n: nat | Two(n) < 0x8000_0000
      ensures Two(n) <= 0x4000_0000
    {
      if n > 30 {
        TwoMonotone(31, n);
      } else {
        TwoMonotone(n, 30);
      }
    }
  }

  method Pow2gt(needed: nat) returns (r: nat)
    requires 0 < needed <= 0x4000_0000
    ensures needed <= r <= 0x4000_0000 && (exists n: nat :: r == Two(n)) && (needed > 1 ==> r / 2 < needed)
  {
    var x := needed - 1;
    ghost var n := Bits(x);
    assert Two(10) == 0x400;
    assert Two(20) == 0x10_0000;
    assert Two(30) == 0x4000_0000;
    if n > 30 {
      TwoMonotone(30, n - 1);
    }
    TwoMonotone(n, 30);
    hide Smear;
    SmearStep(x, n, 1);
    x := Smear(x, 1);
    SmearStep(x, n, 2);
    x := Smear(x, 2);
    SmearStep(x, n, 4);
    x := Smear(x, 4);
    SmearStep(x, n, 8);
    x := Smear(x, 8);
    SmearStep(x, n, 16);
    x := Smear(x, 16);
    r := x + 1;
    assert Over(n, 32) == 0 && r == Two(n);
  }
}
