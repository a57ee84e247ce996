/**
 The data file: one flat array of bytes, seen as chunks of equal size.
 */
module FsDisk {
  import opened Common
  import opened FsWrite

  ghost function Chunks(d: seq<byte>, chunkSize: nat, n: nat): (chunks: seq<seq<byte>>)
    requires n * chunkSize <= |d|
    ensures |chunks| == n && forall c | 0 <= c < n :: |chunks[c]| == chunkSize
  {
    if n == 0 then []
    else
      ChunkFits(chunkSize, n, n - 1);
      Chunks(d, chunkSize, n - 1) + [d[(n - 1) * chunkSize..(n - 1) * chunkSize + chunkSize]]
  }

  /** A chunk id below n names a byte range inside the file. */
  lemma ChunkFits(chunkSize: nat, n: nat, c: nat)
    requires c < n
    ensures 0 <= c * chunkSize <= c * chunkSize + chunkSize <= n * chunkSize
  {
    Spread(c, n - 1 - c, chunkSize);
  }

  lemma Spread(c: nat, m: nat, k: nat)
    ensures (c + 1 + m) * k == c * k + k + m * k && m * k >= 0 && c * k >= 0
  {}

  /** The byte ranges of different chunks do not meet. */
  lemma ChunksApart(chunkSize: nat, c: nat, e: nat)
    requires c < e
    ensures c * chunkSize + chunkSize <= e * chunkSize
  {
    ChunkFits(chunkSize, e, c);
  }

  lemma {:induction false} ChunkAt(d: seq<byte>, chunkSize: nat, n: nat, c: nat)
    requires n * chunkSize <= |d| && c < n
    ensures 0 <= c * chunkSize <= c * chunkSize + chunkSize <= |d|
    ensures Chunks(d, chunkSize, n)[c] == d[c * chunkSize..c * chunkSize + chunkSize]
  {
    ChunkFits(chunkSize, n, c);
    if c < n - 1 {
      ChunkFits(chunkSize, n, n - 1);
      ChunkAt(d, chunkSize, n - 1, c);
    }
  }

  lemma ChunkAfterWrite(d: seq<byte>, d': seq<byte>, chunkSize: nat, n: nat, c: nat, skip: nat, part: seq<byte>, e: nat)
    requires |d| == n * chunkSize && c < n && e < n && skip + |part| <= chunkSize
    requires 0 <= c * chunkSize && c * chunkSize + skip + |part| <= |d| && d' == Splice(d, c * chunkSize + skip, part)
    ensures Chunks(d', chunkSize, n)[e] ==
            if e == c then Splice(Chunks(d, chunkSize, n)[c], skip, part) else Chunks(d, chunkSize, n)[e]
  {
    hide Splice, Chunks;
    ChunkAt(d, chunkSize, n, e);
    ChunkAt(d', chunkSize, n, e);
    var lo, at := e * chunkSize, c * chunkSize;
    if e == c {
      SpliceInside(d, lo, lo + chunkSize, skip, part);
    } else {
      if e < c {
        ChunksApart(chunkSize, e, c);
      } else {
        ChunksApart(chunkSize, c, e);
      }
      SpliceOutside(d, at + skip, part, lo, lo + chunkSize);
    }
  }

  /** Writing inside chunk c changes that chunk and no other. */
  lemma WriteInChunk(d: seq<byte>, chunkSize: nat, n: nat, c: nat, skip: nat, part: seq<byte>)
    requires |d| == n * chunkSize && c < n && skip + |part| <= chunkSize
    ensures c * chunkSize + skip + |part| <= |d| && 0 <= c * chunkSize
    ensures var d' := Splice(d, c * chunkSize + skip, part);
            Chunks(d', chunkSize, n) == Chunks(d, chunkSize, n)[c := Splice(Chunks(d, chunkSize, n)[c], skip, part)]
  {
    ChunkFits(chunkSize, n, c);
    var d' := Splice(d, c * chunkSize + skip, part);
    forall e | 0 <= e < n
      ensures Chunks(d', chunkSize, n)[e] ==
              if e == c then Splice(Chunks(d, chunkSize, n)[c], skip, part) else Chunks(d, chunkSize, n)[e]
    {
      ChunkAfterWrite(d, d', chunkSize, n, c, skip, part, e);
    }
  }

  lemma SpliceOutside(d: seq<byte>, from: nat, part: seq<byte>, lo: nat, hi: nat)
    requires from + |part| <= |d| && lo <= hi <= |d| && (hi <= from || from + |part| <= lo)
    ensures Splice(d, from, part)[lo..hi] == d[lo..hi]
  {
  }

  lemma SpliceInside(d: seq<byte>, lo: nat, hi: nat, skip: nat, part: seq<byte>)
    requires lo <= hi <= |d| && lo + skip + |part| <= hi
    ensures Splice(d, lo + skip, part)[lo..hi] == Splice(d[lo..hi], skip, part)
  {
  }

  lemma SpliceNothing(chunk: seq<byte>, from: nat, part: seq<byte>)
    requires from <= |chunk|
    ensures Splice(chunk, from, part[..0]) == chunk
  {}

  /** One more byte of a splice. */
  lemma SpliceNext(chunk: seq<byte>, from: nat, part: seq<byte>, i: nat)
    requires i < |part| && from + |part| <= |chunk|
    ensures Splice(chunk, from, part[..i])[from + i := part[i]] == Splice(chunk, from, part[..i + 1])
  {}

  class DataMgr {
    const file: array<byte>

    constructor (fileSize: nat)
      ensures fresh(file) && file.Length == fileSize && forall i | 0 <= i < fileSize :: file[i] == 0
    {
      file := new byte[fileSize](_ => 0);
    }

    /** Write buff[from..from + len] at `offset`. */
    method Write(buff: array<byte>, from: nat, len: nat, offset: nat)
      requires from + len <= buff.Length && offset + len <= file.Length && buff != file
      modifies file
      ensures file[..] == Splice(old(file[..]), offset, buff[from..from + len])
    {
      ghost var before, part := file[..], buff[from..from + len];
      SpliceNothing(before, offset, part);
      hide Splice;
      for i := 0 to len
        invariant file[..] == Splice(before, offset, part[..i])
      {
        SpliceNext(before, offset, part, i);
        file[offset + i] := buff[from + i];
      }
      assert part[..len] == part;
    }

    /** Read `len` bytes at `offset` into buff[to..to + len]. */
    method Read(buff: array<byte>, to: nat, len: nat, offset: nat)
      requires to + len <= buff.Length && offset + len <= file.Length && buff != file
      modifies buff
      ensures buff[..] == Splice(old(buff[..]), to, file[offset..offset + len])
    {
      ghost var before, part := buff[..], file[offset..offset + len];
      SpliceNothing(before, to, part);
      hide Splice;
      for i := 0 to len
        invariant buff[..] == Splice(before, to, part[..i])
        invariant file[offset..offset + len] == part
      {
        SpliceNext(before, to, part, i);
        buff[to + i] := file[offset + i];
      }
      assert part[..len] == part;
    }
  }
}
