/**
 The streaming SHA-1 of EdgeFS: a digest in progress, a split 64-bit count of bits and a partial block, fed by any
 number of updates. The ghost field `message` is everything absorbed so far; every method keeps the others equal to
 what FIPS 180-4 prescribes for it.
 */
module Sha1Stream {
  import opened Common
  import opened Sha1Spec
  import opened Sha1Rounds

  /** A message below 2^64 bits, the bound of FIPS 180-4. */
  const MAX_BYTES: nat := 0x2000_0000_0000_0000

  /** A 32-bit load on a little-endian machine. */
  function LittleEndian(b0: byte, b1: byte, b2: byte, b3: byte): word {
    ((b3 as word) << 24) | ((b2 as word) << 16) | ((b1 as word) << 8) | (b0 as word)
  }

  function Swap(t: word): word {
    ((t << 24) & 0xff00_0000) | ((t << 8) & 0x00ff_0000) | ((t >> 8) & 0x0000_ff00) | ((t >> 24) & 0x0000_00ff)
  }

  lemma SwapIsBigEndian(block: seq<byte>, i: nat)
    requires |block| == 64 && i < 16
    ensures Swap(LittleEndian(block[4 * i], block[4 * i + 1], block[4 * i + 2], block[4 * i + 3])) == WordAt(block, i)
  {}

  /** The digest array as FIPS 180-4's hash value. */
  function FiveOf(digest: seq<word>): Five
    requires |digest| == 5
  {
    Five(digest[0], digest[1], digest[2], digest[3], digest[4])
  }

  lemma {:induction false} BlocksSnoc(h: Five, m: seq<byte>, block: seq<byte>)
    requires |m| % 64 == 0 && |block| == 64
    ensures Blocks(h, m + block) == Compress(Blocks(h, m), block)
    decreases |m|
  {
    hide Compress;
    if m == [] {
      assert m + block == block;
      assert block[..64] == block && block[64..] == [];
    } else {
      BlocksSnoc(Compress(h, m[..64]), m[64..], block);
      assert (m + block)[..64] == m[..64] && (m + block)[64..] == m[64..] + block;
    }
  }

  /** The four low bytes of n, most significant first. */
  function Bytes4(n: nat): (b: seq<byte>)
    ensures |b| == 4
  {
    [LowByte(n / 0x100_0000), LowByte(n / 0x1_0000), LowByte(n / 0x100), LowByte(n)]
  }

  lemma Quotients(n: nat)
    ensures n / 256 / 256 == n / 0x1_0000 && n / 256 / 256 / 256 == n / 0x100_0000
    ensures n < TWO32 ==> n / 256 / 256 / 256 / 256 == 0
  {}

  lemma BigEndianStep(hi: nat, lo: nat, k: nat)
    ensures BigEndian(hi * 256 + lo, k + 1) == BigEndian(hi + lo / 256, k) + [LowByte(lo)]
  {
    assert (hi * 256 + lo) / 256 == hi + lo / 256 && (hi * 256 + lo) % 256 == lo % 256;
  }

  lemma BigEndianLow(hi: nat, lo: nat, k: nat)
    ensures BigEndian(hi * TWO32 + lo, k + 4) == BigEndian(hi + lo / 256 / 256 / 256 / 256, k) + Bytes4(lo)
  {
    hide BigEndian, LowByte;
    BigEndianStep(hi * 0x100_0000, lo, k + 3);
    BigEndianStep(hi * 0x1_0000, lo / 256, k + 2);
    BigEndianStep(hi * 0x100, lo / 256 / 256, k + 1);
    BigEndianStep(hi, lo / 256 / 256 / 256, k);
    Quotients(lo);
  }

  /** The two halves of the count, written out, are the 64-bit length FIPS 180-4 appends. */
  lemma CountBytes(hi: nat, lo: nat)
    requires lo < TWO32 && hi < TWO32
    ensures BigEndian(hi * TWO32 + lo, 8) == Bytes4(hi) + Bytes4(lo)
  {
    hide LowByte, Bytes4;
    BigEndianLow(hi, lo, 4);
    BigEndianLow(0, hi, 0);
    Quotients(lo);
    Quotients(hi);
    assert BigEndian(0, 0) == [];
  }

  /** The count alone tells how much of the block in `data` is filled. */
  lemma CountIsLocal(lo: nat, hi: nat, n: nat, local: nat)
    requires 8 * n == hi * TWO32 + lo && lo < TWO32 && n < MAX_BYTES && local == n % 64
    ensures (lo / 8) % 64 == local && hi < TWO32
  {
    Eighths(lo, hi, n);
    SameRest(hi * 0x80_0000, lo / 8);
  }

  lemma Eighths(lo: nat, hi: nat, n: nat)
    requires 8 * n == hi * TWO32 + lo && n < MAX_BYTES
    ensures n == 64 * (hi * 0x80_0000) + lo / 8 && hi < TWO32
  {
  }

  lemma SameRest(m: nat, k: nat)
    ensures (64 * m + k) % 64 == k % 64
  {
  }

  lemma Moved<T>(w: seq<T>, p: seq<T>, b: seq<T>, i: nat)
    requires i <= |b|
    ensures w + (p + b) == (w + (p + b[..i])) + b[i..] && [] + b[..i] == b[..i] && [] + b == b
  {
    assert b == b[..i] + b[i..];
  }

  lemma Regroup<T>(w: seq<T>, p: seq<T>, x: seq<T>, z: seq<T>, l: seq<T>)
    ensures (w + p) + x + z + l == w + (p + x + z) + l
  {}

  /** The zeros of the padding end the only block left ... */
  lemma PadShort(whole: seq<byte>, part: seq<byte>)
    requires |whole| % 64 == 0 && |part| < 56
    ensures Pad(whole + part) == whole + (part + [0x80] + Zeros(55 - |part|)) + BigEndian(8 * |whole + part|, 8)
  {
    hide BigEndian, Zeros;
    PadLength(|whole|, |part|);
    Regroup(whole, part, [0x80], Zeros(55 - |part|), BigEndian(8 * |whole + part|, 8));
  }

  /** ... or fill this block and all but the last eight bytes of the next. */
  lemma PadLong(whole: seq<byte>, part: seq<byte>)
    requires |whole| % 64 == 0 && 56 <= |part| < 64
    ensures Pad(whole + part) ==
            whole + (part + [0x80] + Zeros(63 - |part|)) + Zeros(56) + BigEndian(8 * |whole + part|, 8)
  {
    hide BigEndian, Zeros;
    var length := BigEndian(8 * |whole + part|, 8);
    PadLength(|whole|, |part|);
    ZerosSplit(63 - |part|, 56);
    RegroupLong(whole, part, [0x80], Zeros(63 - |part|), Zeros(56), length);
  }

  lemma RegroupLong<T>(w: seq<T>, p: seq<T>, x: seq<T>, y: seq<T>, z: seq<T>, l: seq<T>)
    ensures (w + p) + x + (y + z) + l == w + (p + x + y) + z + l
  {}

  lemma PadLength(w: nat, p: nat)
    requires w % 64 == 0 && p < 64
    ensures (119 - (w + p) % 64) % 64 == if p < 56 then 55 - p else 119 - p
  {}

  lemma ZerosSplit(a: nat, b: nat)
    ensures Zeros(a + b) == Zeros(a) + Zeros(b)
  {}

  class ShaInfo {
    const digest: array<word>
    var countLo: nat
    var countHi: nat
    const data: array<byte>
    var local: nat
    ghost var message: seq<byte>

    ghost predicate Shape() {
      digest.Length == 5 && data.Length == 64 && (digest as object) != data
    }

    /** Everything but the last `local` bytes of the message has been compressed. */
    ghost predicate Hashed(whole: seq<byte>)
      reads digest
    {
      Shape() && |whole| % 64 == 0 && FiveOf(digest[..]) == Blocks(H0, whole)
    }

    ghost predicate Counted()
      reads this`countLo, this`countHi, this`message
    {
      countLo < TWO32 && 8 * |message| == countHi * TWO32 + countLo
    }

    /** What `sha_init` establishes and every update keeps. */
    ghost predicate Valid()
      reads this, digest, data
    {
      && Shape() && Counted() && |message| < MAX_BYTES
      && local == |message| % 64
      && data[..local] == message[|message| - local..]
      && Hashed(message[..|message| - local])
    }

    constructor ()
      ensures Valid() && message == [] && fresh(digest) && fresh(data)
    {
      digest := new word[5];
      data := new byte[64];
      countLo, countHi, local := 0, 0, 0;
      message := [];
      new;
      digest[0] := 0x6745_2301;
      digest[1] := 0xefcd_ab89;
      digest[2] := 0x98ba_dcfe;
      digest[3] := 0x1032_5476;
      digest[4] := 0xc3d2_e1f0;
    }

    /** The message schedule of the block in `data`. */
    method LoadWords() returns (w: seq<word>)
      requires Shape()
      ensures w == Words(data[..])
    {
      hide Swap, LittleEndian, WordAt, Rotl, Xor;
      var W := new word[80];
      ghost var block := data[..];
      var i := 0;
      while i < 16
        invariant i <= 16 && data[..] == block
        invariant forall j | 0 <= j < i :: W[j] == Schedule(block, j)
      {
        SwapIsBigEndian(block, i);
        W[i] := Swap(LittleEndian(data[4 * i], data[4 * i + 1], data[4 * i + 2], data[4 * i + 3]));
        i := i + 1;
      }
      while i < 80
        invariant 16 <= i <= 80 && data[..] == block
        invariant forall j | 0 <= j < i :: W[j] == Schedule(block, j)
      {
        W[i] := Xor(W[i - 3], W[i - 8], W[i - 14], W[i - 16]);
        W[i] := Rotl(W[i], 1);
        i := i + 1;
      }
      w := W[..];
    }

    method AddToDigest(a: word, b: word, c: word, d: word, e: word)
      requires Shape()
      modifies digest
      ensures FiveOf(digest[..]) == Add(old(FiveOf(digest[..])), Five(a, b, c, d, e))
    {
      hide Plus;
      digest[0] := Plus(digest[0], a);
      digest[1] := Plus(digest[1], b);
      digest[2] := Plus(digest[2], c);
      digest[3] := Plus(digest[3], d);
      digest[4] := Plus(digest[4], e);
    }

    /** `sha_transform` as configured: 80 unravelled macros, whose last values are in E, T, A, B and C. */
    method Transform()
      requires Shape()
      modifies digest
      ensures FiveOf(digest[..]) == Compress(old(FiveOf(digest[..])), data[..])
    {
      hide Add;
      var W := LoadWords();
      ghost var h := FiveOf(digest[..]);
      assert Rounds(h, W, 0) == h;
      var A, B, C, D, E, T := Unravel1(digest[0], digest[1], digest[2], digest[3], digest[4], W, h);
      A, B, C, D, E, T := Unravel2(E, T, A, B, C, W, h);
      A, B, C, D, E, T := Unravel3(C, D, E, T, A, W, h);
      A, B, C, D, E, T := Unravel4(A, B, C, D, E, W, h);
      AddToDigest(E, T, A, B, C);
    }

    /** `sha_transform` without UNRAVEL and UNROLL_LOOPS: four loops of the macro FG, to the same digest. */
    method TransformGeneric()
      requires Shape()
      modifies digest
      ensures FiveOf(digest[..]) == Compress(old(FiveOf(digest[..])), data[..])
    {
      hide Add, NewWord, Rotl, Round;
      var W := LoadWords();
      ghost var h := FiveOf(digest[..]);
      assert Rounds(h, W, 0) == h;
      var A, B, C, D, E := digest[0], digest[1], digest[2], digest[3], digest[4];
      A, B, C, D, E := FGLoop(1, A, B, C, D, E, W, h);
      A, B, C, D, E := FGLoop(2, A, B, C, D, E, W, h);
      A, B, C, D, E := FGLoop(3, A, B, C, D, E, W, h);
      A, B, C, D, E := FGLoop(4, A, B, C, D, E, W, h);
      AddToDigest(A, B, C, D, E);
    }

    method Fill(at: nat, bytes: seq<byte>)
      requires Shape() && at + |bytes| <= 64
      modifies data
      ensures data[..] == old(data[..at]) + bytes + old(data[at + |bytes|..])
    {
      forall k | 0 <= k < |bytes| {
        data[at + k] := bytes[k];
      }
    }

    /** The counter's carry is exact: the two halves hold the number of bits below 2^64. */
    method Count(count: nat)
      requires countLo < TWO32 && count < 0x8000_0000
      requires countHi * TWO32 + countLo + 8 * count < TWO32 * TWO32
      modifies `countLo, `countHi
      ensures countLo < TWO32 && countHi < TWO32
      ensures countHi * TWO32 + countLo == old(countHi * TWO32 + countLo) + 8 * count
    {
      var clo := (countLo + 8 * count) % TWO32;
      if clo < countLo {
        countHi := (countHi + 1) % TWO32;
      }
      countLo := clo;
      countHi := (countHi + count / 0x2000_0000) % TWO32;
    }

    /** Compressing the block in `data` when it continues what is already compressed. */
    method TransformNext(ghost whole: seq<byte>)
      requires Hashed(whole)
      modifies digest
      ensures Hashed(whole + data[..])
    {
      hide Compress, FiveOf, Blocks;
      Transform();
      BlocksSnoc(H0, whole, data[..]);
    }

    /** The blocks of `buffer` that are whole, compressed one after another; what remains is kept in `data`. */
    method Blocks64(buffer: seq<byte>, ghost whole: seq<byte>) returns (ghost done: seq<byte>)
      requires Hashed(whole)
      modifies `local, digest, data
      ensures Hashed(done) && local < 64 && whole + buffer == done + data[..local]
    {
      hide FiveOf, Blocks, Compress;
      var from, count := 0, |buffer|;
      assert whole + buffer[..from] == whole;
      while count >= 64
        invariant 0 <= from <= |buffer| && from + count == |buffer|
        invariant Hashed(whole + buffer[..from])
      {
        Fill(0, buffer[from..from + 64]);
        assert data[..] == buffer[from..from + 64];
        TransformNext(whole + buffer[..from]);
        assert whole + buffer[..from] + buffer[from..from + 64] == whole + buffer[..from + 64];
        from := from + 64;
        count := count - 64;
      }
      Fill(0, buffer[from..]);
      local := count;
      done := whole + buffer[..from];
      Moved(whole, [], buffer, from);
    }

    /** The message is the compressed blocks and what `data` holds. */
    lemma ValidFrom(whole: seq<byte>, part: seq<byte>)
      requires Shape() && Counted() && |message| < MAX_BYTES
      requires Hashed(whole) && message == whole + part && local == |part| < 64 && data[..local] == part
      ensures Valid()
    {
      hide FiveOf, Blocks;
      ghost var m := message;
      assert m[..|m| - |part|] == whole && m[|m| - |part|..] == part;
      assert |m| % 64 == |part|;
    }

    method Update(buffer: seq<byte>)
      requires Valid() && |buffer| < 0x8000_0000 && |message| + |buffer| < MAX_BYTES
      modifies this, digest, data
      ensures Valid() && message == old(message) + buffer
    {
      hide FiveOf, Blocks, Compress;
      ghost var whole, part := message[..|message| - local], message[|message| - local..];
      assert message == whole + part;
      Count(|buffer|);
      message := message + buffer;
      assert buffer[0..] == buffer && (part == [] ==> whole + part == whole);
      assert message == whole + (part + buffer);
      var i := 0;
      if local != 0 {
        i := 64 - local;
        if i > |buffer| {
          i := |buffer|;
        }
        Fill(local, buffer[..i]);
        local := local + i;
        assert data[..local] == part + buffer[..i];
        if local == 64 {
          TransformNext(whole);
          Moved(whole, part, buffer, i);
          assert data[..] == part + buffer[..i];
          whole := whole + data[..];
        } else {
          ValidFrom(whole, part + buffer);
          return;
        }
      }
      assert message == whole + buffer[i..];
      ghost var done := Blocks64(buffer[i..], whole);
      ValidFrom(done, data[..local]);
    }

    /** Pads the block in `data` up to its last eight bytes, opening a second one when they do not fit. */
    method PadBlock(start: nat, ghost whole: seq<byte>, ghost part: seq<byte>) returns (ghost done: seq<byte>)
      requires Hashed(whole) && start == |part| < 64 && data[..start] == part
      modifies digest, data
      ensures Hashed(done) && Pad(whole + part) == done + data[..56] + BigEndian(8 * |whole + part|, 8)
    {
      hide FiveOf, Blocks, Compress, Pad, Zeros, BigEndian;
      var count := start;
      Fill(count, [0x80]);
      count := count + 1;
      assert data[..count] == part + [0x80];
      if count > 56 {
        Fill(count, Zeros(64 - count));
        assert data[..] == part + [0x80] + Zeros(63 - |part|);
        TransformNext(whole);
        done := whole + data[..];
        PadLong(whole, part);
        Fill(0, Zeros(56));
        assert data[..56] == Zeros(56);
      } else {
        done := whole;
        PadShort(whole, part);
        Fill(count, Zeros(56 - count));
        assert data[..56] == part + [0x80] + Zeros(55 - |part|);
      }
    }

    /** The last block or two, and the digest they give. */
    method Final(out: array<byte>)
      requires Valid() && out.Length == 20 && out != data && (out as object) != digest
      modifies digest, data, out
      ensures out[..] == Sha1(message)
    {
      hide FiveOf, Blocks, Compress, Pad, BigEndian, Bytes4, FiveBytes;
      ghost var whole, part := message[..|message| - local], message[|message| - local..];
      assert message == whole + part;
      var lo, hi := countLo, countHi;
      CountIsLocal(lo, hi, |message|, local);
      ghost var done := PadBlock((lo / 8) % 64, whole, part);
      CountBytes(hi, lo);
      ghost var front := data[..56];
      Fill(56, Bytes4(hi) + Bytes4(lo));
      assert data[..] == front + (Bytes4(hi) + Bytes4(lo));
      assert done + front + (Bytes4(hi) + Bytes4(lo)) == done + (front + (Bytes4(hi) + Bytes4(lo)));
      TransformNext(done);
      Emit(out);
    }

    method Emit(out: array<byte>)
      requires Shape() && out.Length == 20 && (out as object) != digest
      modifies out
      ensures out[..] == FiveBytes(FiveOf(digest[..]))
    {
      hide WordBytes;
      PutWord(out, 0, digest[0]);
      PutWord(out, 4, digest[1]);
      assert out[..8] == WordBytes(digest[0]) + WordBytes(digest[1]);
      PutWord(out, 8, digest[2]);
      assert out[..12] == out[..8] + WordBytes(digest[2]);
      PutWord(out, 12, digest[3]);
      assert out[..16] == out[..12] + WordBytes(digest[3]);
      PutWord(out, 16, digest[4]);
      assert out[..] == out[..16] + WordBytes(digest[4]);
    }
  }

  method PutWord(out: array<byte>, at: nat, w: word)
    requires at + 4 <= out.Length
    modifies out
    ensures out[..] == old(out[..at]) + WordBytes(w) + old(out[at + 4..])
  {
    hide WordBytes;
    var b := WordBytes(w);
    out[at], out[at + 1], out[at + 2], out[at + 3] := b[0], b[1], b[2], b[3];
  }

  /** One of the four generic loops: twenty times FG(n). */
  method FGLoop(n: nat, a: word, b: word, c: word, d: word, e: word, W: seq<word>, ghost h: Five)
    returns (A: word, B: word, C: word, D: word, E: word)
    requires 1 <= n <= 4 && |W| == 80 && Five(a, b, c, d, e) == Rounds(h, W, 20 * (n - 1))
    ensures Five(A, B, C, D, E) == Rounds(h, W, 20 * n)
  {
    hide NewWord, Rotl, Round;
    A, B, C, D, E := a, b, c, d, e;
    var i := 20 * (n - 1);
    while i < 20 * n
      invariant 20 * (n - 1) <= i <= 20 * n
      invariant Five(A, B, C, D, E) == Rounds(h, W, i)
    {
      NextRound(n, i, A, B, C, D, E, h, W);
      var T := NewWord(n, A, B, C, D, E, W[i]);
      E := D;
      D := C;
      C := Rotl(B, 30);
      B := A;
      A := T;
      i := i + 1;
    }
  }

  /** The one-shot digest of `ShaHelper::calcShaToHex`. */
  method CalcSha(data: seq<byte>) returns (digest: seq<byte>)
    requires |data| < 0x8000_0000
    ensures digest == Sha1(data)
  {
    hide FiveOf, Blocks, Sha1Spec.Sha1;
    var ctx := new ShaInfo();
    ctx.Update(data);
    assert ctx.message == data;
    var out := new byte[20];
    ctx.Final(out);
    digest := out[..];
  }

  function Concat(parts: seq<seq<byte>>): seq<byte> {
    if parts == [] then [] else Concat(parts[..|parts| - 1]) + parts[|parts| - 1]
  }

  /** A message in any pieces: one update for each, as the readers of a stream make them. */
  method CalcShaOfParts(parts: seq<seq<byte>>) returns (digest: seq<byte>)
    requires forall p | p in parts :: |p| < 0x8000_0000
    requires |Concat(parts)| < MAX_BYTES
    ensures digest == Sha1(Concat(parts))
  {
    hide FiveOf, Blocks, Sha1Spec.Sha1;
    var ctx := new ShaInfo();
    var i := 0;
    assert parts[..|parts|] == parts;
    while i < |parts|
      invariant i <= |parts| && ctx.Valid() && ctx.message == Concat(parts[..i])
      invariant fresh(ctx) && fresh(ctx.digest) && fresh(ctx.data)
    {
      assert parts[..i + 1][..i] == parts[..i];
      PrefixIsShorter(parts, i + 1);
      ctx.Update(parts[i]);
      i := i + 1;
    }
    var out := new byte[20];
    ctx.Final(out);
    digest := out[..];
  }

  lemma {:induction false} PrefixIsShorter(parts: seq<seq<byte>>, i: nat)
    requires i <= |parts|
    ensures |Concat(parts[..i])| <= |Concat(parts)|
    decreases |parts|
  {
    if i < |parts| {
      PrefixIsShorter(parts[..|parts| - 1], i);
      assert parts[..|parts| - 1][..i] == parts[..i];
    } else {
      assert parts[..i] == parts;
    }
  }
}
