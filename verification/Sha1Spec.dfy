/**
 SHA-1 as FIPS 180-4 defines it: padding (section 5.1.1), parsing (5.2.1), constants and functions
 (4.1.1, 4.2.1) and the hash computation (6.1.2), on messages of whole bytes.
 */
module Sha1Spec {
  import opened Common

  type word = bv32

  function Rotl(x: word, n: nat): word
    requires 0 < n < 32
  {
    (x << n) | (x >> (32 - n))
  }

  function Ch(x: word, y: word, z: word): word { (x & y) ^ (!x & z) }

  function Parity(x: word, y: word, z: word): word { x ^ y ^ z }

  function Maj(x: word, y: word, z: word): word { (x & y) ^ (x & z) ^ (y & z) }

  function F(t: nat, x: word, y: word, z: word): word {
    if t < 20 then Ch(x, y, z) else if t < 40 then Parity(x, y, z) else if t < 60 then Maj(x, y, z) else Parity(x, y, z)
  }

  function K(t: nat): word {
    if t < 20 then 0x5a82_7999 else if t < 40 then 0x6ed9_eba1 else if t < 60 then 0x8f1b_bcdc else 0xca62_c1d6
  }

  /** The five working variables, and the five words of a hash value. */
  datatype Five = Five(a: word, b: word, c: word, d: word, e: word)

  const H0: Five := Five(0x6745_2301, 0xefcd_ab89, 0x98ba_dcfe, 0x1032_5476, 0xc3d2_e1f0)

  function WordAt(block: seq<byte>, t: nat): word
    requires 4 * t + 4 <= |block|
  {
    ((block[4 * t] as word) << 24) | ((block[4 * t + 1] as word) << 16)
    | ((block[4 * t + 2] as word) << 8) | (block[4 * t + 3] as word)
  }

  function Xor(a: word, b: word, c: word, d: word): word { a ^ b ^ c ^ d }

  /** The message schedule. */
  function Schedule(block: seq<byte>, t: nat): word
    requires |block| == 64
  {
    if t < 16 then WordAt(block, t)
    else Rotl(Xor(Schedule(block, t - 3), Schedule(block, t - 8), Schedule(block, t - 14), Schedule(block, t - 16)), 1)
  }

  /** Addition modulo 2^32, of two words and of five. */
  function Plus(a: word, b: word): word { a + b }

  function Sum(a: word, b: word, c: word, d: word, e: word): word { a + b + c + d + e }

  function Round(t: nat, v: Five, w: word): Five {
    Five(Sum(Rotl(v.a, 5), F(t, v.b, v.c, v.d), v.e, K(t), w), v.a, Rotl(v.b, 30), v.c, v.d)
  }

  /** The working variables after `t` rounds on the schedule `w`. */
  function Rounds(h: Five, w: seq<word>, t: nat): Five
    requires t <= |w|
  {
    if t == 0 then h else Round(t - 1, Rounds(h, w, t - 1), w[t - 1])
  }

  function Add(h: Five, v: Five): Five {
    Five(Plus(h.a, v.a), Plus(h.b, v.b), Plus(h.c, v.c), Plus(h.d, v.d), Plus(h.e, v.e))
  }

  function Words(block: seq<byte>): (w: seq<word>)
    requires |block| == 64
    ensures |w| == 80 && forall t | 0 <= t < 80 :: w[t] == Schedule(block, t)
  {
    seq(80, t requires t >= 0 => Schedule(block, t))
  }

  function Compress(h: Five, block: seq<byte>): Five
    requires |block| == 64
  {
    Add(h, Rounds(h, Words(block), 80))
  }

  /** The hash value after all whole blocks of `m`. */
  function Blocks(h: Five, m: seq<byte>): Five
    decreases |m|
  {
    if |m| < 64 then h else Blocks(Compress(h, m[..64]), m[64..])
  }

  function Zeros(n: nat): (z: seq<byte>)
    ensures |z| == n
  {
    seq(n, _ => 0)
  }

  function LowByte(n: nat): byte { (n % 256) as byte }

  /** n as `k` bytes, most significant first. */
  function BigEndian(n: nat, k: nat): (b: seq<byte>)
    ensures |b| == k
  {
    if k == 0 then [] else BigEndian(n / 256, k - 1) + [LowByte(n)]
  }

  function Pad(m: seq<byte>): seq<byte> {
    m + [0x80] + Zeros((119 - |m| % 64) % 64) + BigEndian(8 * |m|, 8)
  }

  function WordBytes(w: word): (b: seq<byte>)
    ensures |b| == 4
  {
    [((w >> 24) & 0xff) as byte, ((w >> 16) & 0xff) as byte, ((w >> 8) & 0xff) as byte, (w & 0xff) as byte]
  }

  function FiveBytes(h: Five): (b: seq<byte>)
    ensures |b| == 20
  {
    WordBytes(h.a) + WordBytes(h.b) + WordBytes(h.c) + WordBytes(h.d) + WordBytes(h.e)
  }

  function Sha1(m: seq<byte>): (digest: seq<byte>)
    ensures |digest| == 20
  {
    FiveBytes(Blocks(H0, Pad(m)))
  }
}
