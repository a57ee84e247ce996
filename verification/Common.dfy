/** Bytes, options, 32-bit arithmetic and the facts about sequences that every part uses. */
module Common {

  type byte = bv8

  datatype Option<+T> = None | Some(value: T)

  /** 2^32: the unsigned 32-bit arithmetic of the source is written `% TWO32` where it can wrap. */
  const TWO32: nat := 0x1_0000_0000

  ghost predicate NoRepeat<T>(s: seq<T>) {
    forall i, j | 0 <= i < j < |s| :: s[i] != s[j]
  }

  function DivRoundUp(n: nat, d: nat): nat
    requires d > 0
  {
    (n + d - 1) / d
  }

  function Min(a: nat, b: nat): nat {
    if a <= b then a else b
  }

  lemma MulPositive(k: int, d: nat)
    requires k >= 1
    ensures k * d >= d
  {
    assert k * d == d + (k - 1) * d;
  }

  lemma DivMod(x: nat, n: nat)
    requires n > 0
    ensures x == n * (x / n) + x % n && x % n < n
  {
  }

  /** Quotient and remainder are the only pair of their kind. */
  lemma DivUnique(x: nat, d: nat, q: nat, r: nat)
    requires d > 0 && r < d && x == q * d + r
    ensures x / d == q && x % d == r
  {
    var q', r' := x / d, x % d;
    assert (q' - q) * d == r - r';
    assert (q - q') * d == r' - r;
    if q < q' {
      MulPositive(q' - q, d);
    } else if q' < q {
      MulPositive(q - q', d);
    }
  }

  /** x / n and x % n by repeated subtraction: the same numbers, without nonlinear terms in the proofs. */
  function Quot(x: nat, n: nat): nat
    requires n > 0
  {
    if x < n then 0 else 1 + Quot(x - n, n)
  }

  function Rem(x: nat, n: nat): (r: nat)
    requires n > 0
    ensures r < n
  {
    if x < n then x else Rem(x - n, n)
  }

  lemma {:induction false} QuotRem(x: nat, n: nat)
    requires n > 0
    ensures Quot(x, n) == x / n && Rem(x, n) == x % n
  {
    if x < n {
      DivUnique(x, n, 0, x);
    } else {
      QuotRem(x - n, n);
      var q, r := (x - n) / n, (x - n) % n;
      assert x == n * q + n + r;
      DivUnique(x, n, q + 1, r);
    }
  }

  /** The number of pieces of size n that x fills, the last one perhaps in part. */
  function Pieces(x: nat, n: nat): nat
    requires n > 0
  {
    Quot(x + n - 1, n)
  }

  lemma PiecesIsDivRoundUp(x: nat, n: nat)
    requires n > 0
    ensures Pieces(x, n) == DivRoundUp(x, n)
  {
    QuotRem(x + n - 1, n);
  }

  ghost function Elements<T>(s: seq<T>): set<T> {
    set x | x in s
  }

  lemma {:induction false} SetOfSeqSize<T>(s: seq<T>)
    requires NoRepeat(s)
    ensures |Elements(s)| == |s|
  {
    if s != [] {
      var last := s[|s| - 1];
      var init := s[..|s| - 1];
      SetOfSeqSize(init);
      assert Elements(s) == Elements(init) + {last};
    }
  }

  function Below(n: nat): (s: set<nat>)
    ensures |s| == n
    ensures forall x: nat :: x in s <==> x < n
  {
    if n == 0 then {} else Below(n - 1) + {n - 1}
  }

  lemma SubsetSize<T>(a: set<T>, b: set<T>)
    requires a <= b
    ensures |a| <= |b|
    ensures |a| == |b| ==> a == b
  {
    assert b == a + (b - a);
  }

  /** Pigeonhole: distinct indices below n number at most n. */
  lemma Pigeonhole(s: seq<nat>, n: nat)
    requires NoRepeat(s)
    requires forall i | 0 <= i < |s| :: s[i] < n
    ensures |s| <= n
  {
    SetOfSeqSize(s);
    SubsetSize(Elements(s), Below(n));
  }
}
