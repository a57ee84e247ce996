/**
 The two forms of the 80 rounds of `sha_transform`: the unravelled one, in which the roles of the working variables
 rotate over six names instead of the values moving, and the generic one, four loops of the macro FG.
 Both are proved to leave FIPS 180-4's working variables, hence the same digest.
 */
module Sha1Rounds {
  import opened Sha1Spec

  /** f1..f4, with the source's "or" where FIPS 180-4 writes "exclusive or". */
  function F1(x: word, y: word, z: word): word { (x & y) | (!x & z) }

  function F2(x: word, y: word, z: word): word { x ^ y ^ z }

  function F3(x: word, y: word, z: word): word { (x & y) | (x & z) | (y & z) }

  function FOf(n: nat, x: word, y: word, z: word): word {
    if n == 1 then F1(x, y, z) else if n == 2 then F2(x, y, z) else if n == 3 then F3(x, y, z) else F2(x, y, z)
  }

  function CONST(n: nat): word {
    if n == 1 then 0x5a82_7999 else if n == 2 then 0x6ed9_eba1 else if n == 3 then 0x8f1b_bcdc else 0xca62_c1d6
  }

  /** What each of the macros FA..FT and FG computes as its new word. */
  function NewWord(n: nat, a: word, b: word, c: word, d: word, e: word, w: word): word {
    Sum(Rotl(a, 5), FOf(n, b, c, d), e, w, CONST(n))
  }

  lemma OrIsXor1(x: word, y: word, z: word)
    ensures F1(x, y, z) == Ch(x, y, z)
  {
    assert (x & y) & (!x & z) == 0;
  }

  lemma OrIsXor3(x: word, y: word, z: word)
    ensures F3(x, y, z) == Maj(x, y, z)
  {
    assert (x & y) | (x & z) | (y & z) == (x & y) ^ (x & z) ^ (y & z);
  }

  lemma FsAgree(n: nat, t: nat, x: word, y: word, z: word)
    requires 1 <= n <= 4 && 20 * (n - 1) <= t < 20 * n
    ensures FOf(n, x, y, z) == F(t, x, y, z) && CONST(n) == K(t)
  {
    hide F1, F3, Ch, Maj;
    OrIsXor1(x, y, z);
    OrIsXor3(x, y, z);
  }

  lemma SumReordered(r: word, f: word, e: word, w: word, k: word)
    ensures Sum(r, f, e, w, k) == Sum(r, f, e, k, w)
  {}

  /** Where `SHA_LONG` has 64 bits, the mask T32 makes a rotation, as every sum, the one of 32-bit words. */
  lemma WideRotation(x: bv64)
    requires x <= 0xffff_ffff
    ensures ((x << 5) | (x >> 27)) & 0xffff_ffff == (((x as word) << 5) | ((x as word) >> 27)) as bv64
    ensures ((x << 30) | (x >> 2)) & 0xffff_ffff == (((x as word) << 30) | ((x as word) >> 2)) as bv64
    ensures ((x << 1) | (x >> 31)) & 0xffff_ffff == (((x as word) << 1) | ((x as word) >> 31)) as bv64
  {}

  /** One macro is one round, whatever six names hold the values. */
  lemma MacroIsRound(n: nat, t: nat, v: Five, w: word)
    requires 1 <= n <= 4 && 20 * (n - 1) <= t < 20 * n
    ensures Five(NewWord(n, v.a, v.b, v.c, v.d, v.e, w), v.a, Rotl(v.b, 30), v.c, v.d) == Round(t, v, w)
  {
    hide FOf, F, Rotl, CONST, K, Sum;
    FsAgree(n, t, v.b, v.c, v.d);
    SumReordered(Rotl(v.a, 5), FOf(n, v.b, v.c, v.d), v.e, w, CONST(n));
  }

  lemma NextRound(n: nat, t: nat, a: word, b: word, c: word, d: word, e: word, h: Five, W: seq<word>)
    requires 1 <= n <= 4 && 20 * (n - 1) <= t < 20 * n && t < |W|
    requires Five(a, b, c, d, e) == Rounds(h, W, t)
    ensures Five(NewWord(n, a, b, c, d, e, W[t]), a, Rotl(b, 30), c, d) == Rounds(h, W, t + 1)
  {
    hide NewWord, Rotl, Round;
    MacroIsRound(n, t, Five(a, b, c, d, e), W[t]);
  }

  /** Macros 1 to 20 of the unravelled form. */
  method Unravel1(a: word, b: word, c: word, d: word, e: word, W: seq<word>, ghost h: Five)
    returns (A: word, B: word, C: word, D: word, E: word, T: word)
    requires |W| == 80 && Five(a, b, c, d, e) == Rounds(h, W, 0)
    ensures Five(E, T, A, B, C) == Rounds(h, W, 20)
  {
    hide *;
    A, B, C, D, E, T := a, b, c, d, e, 0;
    NextRound(1, 0, A, B, C, D, E, h, W);
    T, B := NewWord(1, A, B, C, D, E, W[0]), Rotl(B, 30);
    NextRound(1, 1, T, A, B, C, D, h, W);
    E, A := NewWord(1, T, A, B, C, D, W[1]), Rotl(A, 30);
    NextRound(1, 2, E, T, A, B, C, h, W);
    D, T := NewWord(1, E, T, A, B, C, W[2]), Rotl(T, 30);
    NextRound(1, 3, D, E, T, A, B, h, W);
    C, E := NewWord(1, D, E, T, A, B, W[3]), Rotl(E, 30);
    NextRound(1, 4, C, D, E, T, A, h, W);
    B, D := NewWord(1, C, D, E, T, A, W[4]), Rotl(D, 30);
    NextRound(1, 5, B, C, D, E, T, h, W);
    A, C := NewWord(1, B, C, D, E, T, W[5]), Rotl(C, 30);
    NextRound(1, 6, A, B, C, D, E, h, W);
    T, B := NewWord(1, A, B, C, D, E, W[6]), Rotl(B, 30);
    NextRound(1, 7, T, A, B, C, D, h, W);
    E, A := NewWord(1, T, A, B, C, D, W[7]), Rotl(A, 30);
    NextRound(1, 8, E, T, A, B, C, h, W);
    D, T := NewWord(1, E, T, A, B, C, W[8]), Rotl(T, 30);
    NextRound(1, 9, D, E, T, A, B, h, W);
    C, E := NewWord(1, D, E, T, A, B, W[9]), Rotl(E, 30);
    NextRound(1, 10, C, D, E, T, A, h, W);
    B, D := NewWord(1, C, D, E, T, A, W[10]), Rotl(D, 30);
    NextRound(1, 11, B, C, D, E, T, h, W);
    A, C := NewWord(1, B, C, D, E, T, W[11]), Rotl(C, 30);
    NextRound(1, 12, A, B, C, D, E, h, W);
    T, B := NewWord(1, A, B, C, D, E, W[12]), Rotl(B, 30);
    NextRound(1, 13, T, A, B, C, D, h, W);
    E, A := NewWord(1, T, A, B, C, D, W[13]), Rotl(A, 30);
    NextRound(1, 14, E, T, A, B, C, h, W);
    D, T := NewWord(1, E, T, A, B, C, W[14]), Rotl(T, 30);
    NextRound(1, 15, D, E, T, A, B, h, W);
    C, E := NewWord(1, D, E, T, A, B, W[15]), Rotl(E, 30);
    NextRound(1, 16, C, D, E, T, A, h, W);
    B, D := NewWord(1, C, D, E, T, A, W[16]), Rotl(D, 30);
    NextRound(1, 17, B, C, D, E, T, h, W);
    A, C := NewWord(1, B, C, D, E, T, W[17]), Rotl(C, 30);
    NextRound(1, 18, A, B, C, D, E, h, W);
    T, B := NewWord(1, A, B, C, D, E, W[18]), Rotl(B, 30);
    NextRound(1, 19, T, A, B, C, D, h, W);
    E, A := NewWord(1, T, A, B, C, D, W[19]), Rotl(A, 30);
  }

  /** Macros 21 to 40 of the unravelled form. */
  method Unravel2(a: word, b: word, c: word, d: word, e: word, W: seq<word>, ghost h: Five)
    returns (A: word, B: word, C: word, D: word, E: word, T: word)
    requires |W| == 80 && Five(a, b, c, d, e) == Rounds(h, W, 20)
    ensures Five(C, D, E, T, A) == Rounds(h, W, 40)
  {
    hide *;
    A, B, C, D, E, T := c, d, e, 0, a, b;
    NextRound(2, 20, E, T, A, B, C, h, W);
    D, T := NewWord(2, E, T, A, B, C, W[20]), Rotl(T, 30);
    NextRound(2, 21, D, E, T, A, B, h, W);
    C, E := NewWord(2, D, E, T, A, B, W[21]), Rotl(E, 30);
    NextRound(2, 22, C, D, E, T, A, h, W);
    B, D := NewWord(2, C, D, E, T, A, W[22]), Rotl(D, 30);
    NextRound(2, 23, B, C, D, E, T, h, W);
    A, C := NewWord(2, B, C, D, E, T, W[23]), Rotl(C, 30);
    NextRound(2, 24, A, B, C, D, E, h, W);
    T, B := NewWord(2, A, B, C, D, E, W[24]), Rotl(B, 30);
    NextRound(2, 25, T, A, B, C, D, h, W);
    E, A := NewWord(2, T, A, B, C, D, W[25]), Rotl(A, 30);
    NextRound(2, 26, E, T, A, B, C, h, W);
    D, T := NewWord(2, E, T, A, B, C, W[26]), Rotl(T, 30);
    NextRound(2, 27, D, E, T, A, B, h, W);
    C, E := NewWord(2, D, E, T, A, B, W[27]), Rotl(E, 30);
    NextRound(2, 28, C, D, E, T, A, h, W);
    B, D := NewWord(2, C, D, E, T, A, W[28]), Rotl(D, 30);
    NextRound(2, 29, B, C, D, E, T, h, W);
    A, C := NewWord(2, B, C, D, E, T, W[29]), Rotl(C, 30);
    NextRound(2, 30, A, B, C, D, E, h, W);
    T, B := NewWord(2, A, B, C, D, E, W[30]), Rotl(B, 30);
    NextRound(2, 31, T, A, B, C, D, h, W);
    E, A := NewWord(2, T, A, B, C, D, W[31]), Rotl(A, 30);
    NextRound(2, 32, E, T, A, B, C, h, W);
    D, T := NewWord(2, E, T, A, B, C, W[32]), Rotl(T, 30);
    NextRound(2, 33, D, E, T, A, B, h, W);
    C, E := NewWord(2, D, E, T, A, B, W[33]), Rotl(E, 30);
    NextRound(2, 34, C, D, E, T, A, h, W);
    B, D := NewWord(2, C, D, E, T, A, W[34]), Rotl(D, 30);
    NextRound(2, 35, B, C, D, E, T, h, W);
    A, C := NewWord(2, B, C, D, E, T, W[35]), Rotl(C, 30);
    NextRound(2, 36, A, B, C, D, E, h, W);
    T, B := NewWord(2, A, B, C, D, E, W[36]), Rotl(B, 30);
    NextRound(2, 37, T, A, B, C, D, h, W);
    E, A := NewWord(2, T, A, B, C, D, W[37]), Rotl(A, 30);
    NextRound(2, 38, E, T, A, B, C, h, W);
    D, T := NewWord(2, E, T, A, B, C, W[38]), Rotl(T, 30);
    NextRound(2, 39, D, E, T, A, B, h, W);
    C, E := NewWord(2, D, E, T, A, B, W[39]), Rotl(E, 30);
  }

  /** Macros 41 to 60 of the unravelled form. */
  method Unravel3(a: word, b: word, c: word, d: word, e: word, W: seq<word>, ghost h: Five)
    returns (A: word, B: word, C: word, D: word, E: word, T: word)
    requires |W| == 80 && Five(a, b, c, d, e) == Rounds(h, W, 40)
    ensures Five(A, B, C, D, E) == Rounds(h, W, 60)
  {
    hide *;
    A, B, C, D, E, T := e, 0, a, b, c, d;
    NextRound(3, 40, C, D, E, T, A, h, W);
    B, D := NewWord(3, C, D, E, T, A, W[40]), Rotl(D, 30);
    NextRound(3, 41, B, C, D, E, T, h, W);
    A, C := NewWord(3, B, C, D, E, T, W[41]), Rotl(C, 30);
    NextRound(3, 42, A, B, C, D, E, h, W);
    T, B := NewWord(3, A, B, C, D, E, W[42]), Rotl(B, 30);
    NextRound(3, 43, T, A, B, C, D, h, W);
    E, A := NewWord(3, T, A, B, C, D, W[43]), Rotl(A, 30);
    NextRound(3, 44, E, T, A, B, C, h, W);
    D, T := NewWord(3, E, T, A, B, C, W[44]), Rotl(T, 30);
    NextRound(3, 45, D, E, T, A, B, h, W);
    C, E := NewWord(3, D, E, T, A, B, W[45]), Rotl(E, 30);
    NextRound(3, 46, C, D, E, T, A, h, W);
    B, D := NewWord(3, C, D, E, T, A, W[46]), Rotl(D, 30);
    NextRound(3, 47, B, C, D, E, T, h, W);
    A, C := NewWord(3, B, C, D, E, T, W[47]), Rotl(C, 30);
    NextRound(3, 48, A, B, C, D, E, h, W);
    T, B := NewWord(3, A, B, C, D, E, W[48]), Rotl(B, 30);
    NextRound(3, 49, T, A, B, C, D, h, W);
    E, A := NewWord(3, T, A, B, C, D, W[49]), Rotl(A, 30);
    NextRound(3, 50, E, T, A, B, C, h, W);
    D, T := NewWord(3, E, T, A, B, C, W[50]), Rotl(T, 30);
    NextRound(3, 51, D, E, T, A, B, h, W);
    C, E := NewWord(3, D, E, T, A, B, W[51]), Rotl(E, 30);
    NextRound(3, 52, C, D, E, T, A, h, W);
    B, D := NewWord(3, C, D, E, T, A, W[52]), Rotl(D, 30);
    NextRound(3, 53, B, C, D, E, T, h, W);
    A, C := NewWord(3, B, C, D, E, T, W[53]), Rotl(C, 30);
    NextRound(3, 54, A, B, C, D, E, h, W);
    T, B := NewWord(3, A, B, C, D, E, W[54]), Rotl(B, 30);
    NextRound(3, 55, T, A, B, C, D, h, W);
    E, A := NewWord(3, T, A, B, C, D, W[55]), Rotl(A, 30);
    NextRound(3, 56, E, T, A, B, C, h, W);
    D, T := NewWord(3, E, T, A, B, C, W[56]), Rotl(T, 30);
    NextRound(3, 57, D, E, T, A, B, h, W);
    C, E := NewWord(3, D, E, T, A, B, W[57]), Rotl(E, 30);
    NextRound(3, 58, C, D, E, T, A, h, W);
    B, D := NewWord(3, C, D, E, T, A, W[58]), Rotl(D, 30);
    NextRound(3, 59, B, C, D, E, T, h, W);
    A, C := NewWord(3, B, C, D, E, T, W[59]), Rotl(C, 30);
  }

  /** Macros 61 to 80 of the unravelled form. */
  method Unravel4(a: word, b: word, c: word, d: word, e: word, W: seq<word>, ghost h: Five)
    returns (A: word, B: word, C: word, D: word, E: word, T: word)
    requires |W| == 80 && Five(a, b, c, d, e) == Rounds(h, W, 60)
    ensures Five(E, T, A, B, C) == Rounds(h, W, 80)
  {
    hide *;
    A, B, C, D, E, T := a, b, c, d, e, 0;
    NextRound(4, 60, A, B, C, D, E, h, W);
    T, B := NewWord(4, A, B, C, D, E, W[60]), Rotl(B, 30);
    NextRound(4, 61, T, A, B, C, D, h, W);
    E, A := NewWord(4, T, A, B, C, D, W[61]), Rotl(A, 30);
    NextRound(4, 62, E, T, A, B, C, h, W);
    D, T := NewWord(4, E, T, A, B, C, W[62]), Rotl(T, 30);
    NextRound(4, 63, D, E, T, A, B, h, W);
    C, E := NewWord(4, D, E, T, A, B, W[63]), Rotl(E, 30);
    NextRound(4, 64, C, D, E, T, A, h, W);
    B, D := NewWord(4, C, D, E, T, A, W[64]), Rotl(D, 30);
    NextRound(4, 65, B, C, D, E, T, h, W);
    A, C := NewWord(4, B, C, D, E, T, W[65]), Rotl(C, 30);
    NextRound(4, 66, A, B, C, D, E, h, W);
    T, B := NewWord(4, A, B, C, D, E, W[66]), Rotl(B, 30);
    NextRound(4, 67, T, A, B, C, D, h, W);
    E, A := NewWord(4, T, A, B, C, D, W[67]), Rotl(A, 30);
    NextRound(4, 68, E, T, A, B, C, h, W);
    D, T := NewWord(4, E, T, A, B, C, W[68]), Rotl(T, 30);
    NextRound(4, 69, D, E, T, A, B, h, W);
    C, E := NewWord(4, D, E, T, A, B, W[69]), Rotl(E, 30);
    NextRound(4, 70, C, D, E, T, A, h, W);
    B, D := NewWord(4, C, D, E, T, A, W[70]), Rotl(D, 30);
    NextRound(4, 71, B, C, D, E, T, h, W);
    A, C := NewWord(4, B, C, D, E, T, W[71]), Rotl(C, 30);
    NextRound(4, 72, A, B, C, D, E, h, W);
    T, B := NewWord(4, A, B, C, D, E, W[72]), Rotl(B, 30);
    NextRound(4, 73, T, A, B, C, D, h, W);
    E, A := NewWord(4, T, A, B, C, D, W[73]), Rotl(A, 30);
    NextRound(4, 74, E, T, A, B, C, h, W);
    D, T := NewWord(4, E, T, A, B, C, W[74]), Rotl(T, 30);
    NextRound(4, 75, D, E, T, A, B, h, W);
    C, E := NewWord(4, D, E, T, A, B, W[75]), Rotl(E, 30);
    NextRound(4, 76, C, D, E, T, A, h, W);
    B, D := NewWord(4, C, D, E, T, A, W[76]), Rotl(D, 30);
    NextRound(4, 77, B, C, D, E, T, h, W);
    A, C := NewWord(4, B, C, D, E, T, W[77]), Rotl(C, 30);
    NextRound(4, 78, A, B, C, D, E, h, W);
    T, B := NewWord(4, A, B, C, D, E, W[78]), Rotl(B, 30);
    NextRound(4, 79, T, A, B, C, D, h, W);
    E, A := NewWord(4, T, A, B, C, D, W[79]), Rotl(A, 30);
  }
}
