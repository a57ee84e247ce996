/**
 Inputs on which the store does not do what it is for, each one or two calls away from a freshly created index: a write
 that loses bytes, and three reads. When this happens in general is said in FsRepeat and FsRead.
 */
module FsFailures {
  import opened Common
  import opened FsModel
  import opened FsWrite
  import opened FsBitmap
  import opened FsAppend
  import opened FsRefine
  import opened FsRead
  import opened FsRepeat
  import opened FsRuns

  /** A freshly created index, and a file whose bucket is not chunk c. */
  ghost predicate Start(s: Fs, d: Digest, c: nat) {
    && 0 < s.chunkSize <= TWO32 && 0 < |s.metas| <= INVALID_CHUNKID && (forall e :: s.bucket(e) < |s.metas|)
    && s == Fresh(s.chunkSize, |s.metas|, s.bucket)
    && c < |s.metas| && c != s.bucket(d)
  }

  /** A first write needs its buffer's size in chunks, the first of them the bucket. */
  lemma FirstPlan(s: Fs, d: Digest, c: nat, len: nat, need: nat)
    requires Start(s, d, c) && 1 <= need && (need - 1) * s.chunkSize < len <= need * s.chunkSize
    ensures PlanFor(s, d, len).need == need && FileTail(s, d) == Some(s.bucket(d))
    ensures LeadOf(TailMeta(s, FileTail(s, d)), ChunkidOf(FileTail(s, d))) == [s.bucket(d)]
  {
    assert need * s.chunkSize == (need - 1) * s.chunkSize + s.chunkSize;
    PiecesAre(len, s.chunkSize, need, len - (need - 1) * s.chunkSize);
    PiecesIsDivRoundUp(len, s.chunkSize);
  }

  /** The bucket, and c for every further chunk. */
  function Taken(h: nat, c: nat, need: nat): seq<nat>
    requires 1 <= need <= 3
  {
    if need == 1 then [h] else if need == 2 then [h, c] else [h, c, c]
  }

  /** Every chunk but the bucket is drawn, and the drawn chunk is c. */
  lemma FirstGrant(s: Fs, d: Digest, c: nat, len: nat, need: nat)
    requires Start(s, d, c) && 1 <= need <= 3 && (need - 1) * s.chunkSize < len <= need * s.chunkSize
    ensures Grant(s, d, len, _ => c) == Some(Taken(s.bucket(d), c, need))
  {
    FirstPlan(s, d, c, len, need);
    DrawC(|s.metas|, s.bucket(d), c, need);
  }

  lemma DrawC(total: nat, h: nat, c: nat, need: nat)
    requires 1 <= need <= 3 && h < total && c < total && c != h
    ensures Allocate({}, 0, total, [h], h, need, _ => c) == Some(Taken(h, c, need))
  {
    var draw := (_: nat) => c;
    if need == 2 {
      DivUnique(c, total, 0, c);
      assert Accepted({}, h, total, draw, 1) == [c];
      DrawsSuffice({}, h, total, [h], 2, draw, 1);
      assert [h] + [c] == [h, c];
    } else if need == 3 {
      FastRepeats({}, 0, total, [h], h, c);
      assert [h] + [c, c] == [h, c, c];
    }
  }

  /**
   The first write of all, to a file of three chunks, is given one chunk twice: it answers that all is written, and it
   is not.
   */
  lemma FirstWriteLosesBytes(s: Fs, d: Digest, c: nat, buf: seq<byte>)
    requires Start(s, d, c) && 2 * s.chunkSize < |buf| <= 3 * s.chunkSize
    ensures Valid(s) && Content(s, d) == []
    ensures var (s', n) := WriteStep(s, d, buf, _ => c);
            n == |buf| && |Content(s', d)| < |buf|
  {
    FirstGrant(s, d, c, |buf|, 3);
    var ids := Taken(s.bucket(d), c, 3);
    GrantIsUsable(s, d, |buf|, _ => c);
    assert ids[1] == ids[2];
    hide WriteTo, Content, Granted, Start, Taken;
    RepeatLosesBytes(s, d, buf, ids);
  }

  /** The first write to a file of one or two chunks goes well. */
  lemma FirstWrite(s: Fs, d: Digest, c: nat, buf: seq<byte>)
    requires Start(s, d, c) && 0 < |buf| <= 2 * s.chunkSize
    ensures Valid(s)
    ensures var s' := WriteStep(s, d, buf, _ => c).0;
            && Valid(s') && Content(s', d) == buf && s'.chunkSize == s.chunkSize
            && |FileIds(s', d)| == if |buf| <= s.chunkSize then 1 else 2
  {
    var need := if |buf| <= s.chunkSize then 1 else 2;
    FirstGrant(s, d, c, |buf|, need);
    assert NoRepeat(Taken(s.bucket(d), c, need));
    WriteIsAppend(s, d, buf, _ => c);
    var s' := WriteStep(s, d, buf, _ => c).0;
    GrantIsUsable(s, d, |buf|, _ => c);
    WriteAppends(s, d, buf, Taken(s.bucket(d), c, need));
    assert [] + buf == buf;
    FileLength(s', d);
    PiecesAre(|buf|, s.chunkSize, need, |buf| - (need - 1) * s.chunkSize);
  }

  /** A read from the start of a file of one chunk and a part of another returns more bytes than the file has. */
  lemma ReadOverruns(s: Fs, d: Digest, c: nat, buf: seq<byte>, len: nat)
    requires Start(s, d, c) && s.chunkSize < |buf| < len <= 2 * s.chunkSize < TWO32
    ensures Valid(s) && Valid(WriteStep(s, d, buf, _ => c).0)
    ensures var s' := WriteStep(s, d, buf, _ => c).0;
            && Content(s', d) == buf && StartExists(s', d, 0)
            && ReadStep(s', d, len, 0).Bytes? && |ReadStep(s', d, len, 0).data| > |buf|
  {
    FirstWrite(s, d, c, buf);
    var s' := WriteStep(s, d, buf, _ => c).0;
    FileIsPackedFile(s', d);
    hide Start, WriteStep, FileIds, PackedFile, ReadFrom, Gather;
    OverrunReads(s', FileIds(s', d), len);
  }

  lemma OverrunReads(s: Fs, ids: seq<nat>, len: nat)
    requires PackedFile(s, ids) && |ids| == 2 && s.chunkSize < |Gather(s, ids)| < len <= 2 * s.chunkSize < TWO32
    ensures Quot(0, s.chunkSize) == 0 && Rem(0, s.chunkSize) == 0
    ensures |ReadFrom(s, ids, len, 0, 0)| > |Gather(s, ids)|
  {
    hide PackedFile, ReadFrom, Gather, CollectMore, FurtherChunks, Written;
    LastLenOf(s, ids);
    FirstChunk(s, ids);
    LastOnly(s, ids);
    LastWritten(s, ids);
    ReadFromParts(s, ids, len, 0, 0);
    var remain := len - s.chunkSize;
    FurtherIsNeeded(s.chunkSize, remain);
    RoundUpCovers(s.chunkSize, remain);
    MoreOverruns(s, ids, 1, FurtherChunks(s.chunkSize, remain), remain);
  }

  lemma LastWritten(s: Fs, ids: seq<nat>)
    requires PackedFile(s, ids)
    ensures |s.data[ids[0]]| == s.chunkSize
    ensures |Written(s, ids[|ids| - 1])| == s.chunkSize - s.metas[ids[|ids| - 1]].idleLen
  {
  }

  /**
   A read of 2^32 - 1 bytes from offset 2 on: the round-up of what remains wraps to zero, and only one chunk is read.
   */
  lemma ReadWraps(s: Fs, d: Digest, c: nat, buf: seq<byte>)
    requires Start(s, d, c) && 3 <= s.chunkSize < |buf| <= 2 * s.chunkSize
    ensures Valid(s) && Valid(WriteStep(s, d, buf, _ => c).0)
    ensures var s' := WriteStep(s, d, buf, _ => c).0;
            && Content(s', d) == buf && StartExists(s', d, 2)
            && ReadStep(s', d, TWO32 - 1, 2) == Bytes(buf[2..s.chunkSize])
  {
    FirstWrite(s, d, c, buf);
    var s' := WriteStep(s, d, buf, _ => c).0;
    FileIsPackedFile(s', d);
    hide Start, WriteStep, FileIds, PackedFile, ReadFrom, Gather;
    WrapReadsOne(s', FileIds(s', d));
  }

  lemma WrapReadsOne(s: Fs, ids: seq<nat>)
    requires PackedFile(s, ids) && |ids| > 1 && 3 <= s.chunkSize <= TWO32
    ensures s.chunkSize <= |Gather(s, ids)| && Quot(2, s.chunkSize) == 0 && Rem(2, s.chunkSize) == 2
    ensures ReadFrom(s, ids, TWO32 - 1, 0, 2) == Gather(s, ids)[2..s.chunkSize]
  {
    hide PackedFile, ReadFrom, Gather;
    LastLenOf(s, ids);
    FirstChunk(s, ids);
    ReadFromParts(s, ids, TWO32 - 1, 0, 2);
    NoFurther(s, ids, s.chunkSize);
    var chunk := s.data[ids[0]];
    assert chunk[2..][..s.chunkSize - 2] == chunk[2..] == Gather(s, ids)[2..s.chunkSize];
  }

  lemma FirstChunk(s: Fs, ids: seq<nat>)
    requires PackedFile(s, ids) && |ids| > 1
    ensures Gather(s, ids) == s.data[ids[0]] + Gather(s, ids[1..])
  {
  }

  lemma NoFurther(s: Fs, ids: seq<nat>, cs: nat)
    requires Shape(s) && InRange(ids, |s.metas|) && 3 <= cs <= TWO32
    ensures FurtherChunks(cs, TWO32 - 1 - (cs - 2)) == 0
    ensures CollectMore(s, ids, 1, 0, TWO32 - 1 - (cs - 2)) == []
  {
  }

  /** The length of a file of one full chunk is an offset that passes the check, and there is no chunk for it. */
  lemma ReadLeavesList(s: Fs, d: Digest, c: nat, buf: seq<byte>)
    requires Start(s, d, c) && |buf| == s.chunkSize
    ensures Valid(s) && Valid(WriteStep(s, d, buf, _ => c).0)
    ensures var s' := WriteStep(s, d, buf, _ => c).0;
            && Content(s', d) == buf && FileIds(s', d) != [] && !StartExists(s', d, |buf|)
  {
    FirstWrite(s, d, c, buf);
    var s' := WriteStep(s, d, buf, _ => c).0;
    DivUnique(|buf|, s.chunkSize, 1, 0);
    StartExactly(s', d, |buf|);
  }
}
