/**
 One write with its allocation: which chunks it is given, what becomes of the store, and how the number of chunks
 follows from the length of the file. Whole runs are in FsRuns.
 */
module FsRefine {
  import opened Common
  import opened FsModel
  import opened FsWrite
  import opened FsBitmap
  import opened FsAppend

  // ----- One write ------------------------------------------------------------------------------

  function TailMeta(s: Fs, t: Option<nat>): Option<MetaInfo>
    requires t.Some? ==> t.value < |s.metas|
  {
    if t.Some? then Some(s.metas[t.value]) else None
  }

  function ChunkidOf(t: Option<nat>): nat {
    if t.Some? then t.value else INVALID_CHUNKID
  }

  /** The chunks that a write of `len` bytes to file d is given, or None when it is refused. */
  ghost function Grant(s: Fs, d: Digest, len: nat, draw: nat -> nat): Option<seq<nat>>
    requires Shape(s)
  {
    var t := FileTail(s, d);
    var need := PlanFor(s, d, len).need;
    if need == 0 then Some([])
    else Allocate(s.have, s.count, |s.metas|, LeadOf(TailMeta(s, t), ChunkidOf(t)), ChunkidOf(t), need, draw)
  }

  lemma TailIsProper(s: Fs, d: Digest)
    requires Valid(s)
    ensures var t := FileTail(s, d);
            ProperLead(s.have, |s.metas|, LeadOf(TailMeta(s, t), ChunkidOf(t)), ChunkidOf(t))
    ensures LeadOf(TailMeta(s, FileTail(s, d)), ChunkidOf(FileTail(s, d))) ==
            if s.metas[s.bucket(d)].isUsed then [] else [s.bucket(d)]
  {
    if s.metas[s.bucket(d)].isUsed {
      FindTails(s, d);
    }
  }

  /** What the allocator hands to a write is what the write can use; a refusal means too few idle chunks. */
  lemma GrantIsUsable(s: Fs, d: Digest, len: nat, draw: nat -> nat)
    requires Valid(s)
    ensures var g, need := Grant(s, d, len, draw), PlanFor(s, d, len).need;
            && (g.Some? ==> Granted(s, d, len, g.value) && (NoRepeat(g.value) ==> need <= |s.metas| - |s.have|))
            && (g.None? ==> |s.metas| - |s.have| < need)
            && (2 * s.count % TWO32 >= |s.metas| ==> g.Some? ==> NoRepeat(g.value))
  {
    var need, t := PlanFor(s, d, len).need, FileTail(s, d);
    var lead := LeadOf(TailMeta(s, t), ChunkidOf(t));
    TailIsProper(s, d);
    if need == 0 {
      SubsetSize(s.have, Below(|s.metas|));
    } else {
      AllocateContract(s.have, s.count, |s.metas|, lead, ChunkidOf(t), need, draw);
      if 2 * s.count % TWO32 >= |s.metas| {
        SteadyIsExact(s.have, s.count, |s.metas|, lead, ChunkidOf(t), need, draw);
      }
    }
  }

  lemma GrantInRange(s: Fs, d: Digest, len: nat, draw: nat -> nat)
    requires Valid(s)
    ensures Grant(s, d, len, draw).Some? ==> InRange(Grant(s, d, len, draw).value, |s.metas|)
  {
    GrantIsUsable(s, d, len, draw);
  }

  /** One write: the next store and the returned length, -1 for a refusal. */
  ghost function WriteStep(s: Fs, d: Digest, buf: seq<byte>, draw: nat -> nat): (Fs, int)
    requires Valid(s)
  {
    GrantInRange(s, d, |buf|, draw);
    var g := Grant(s, d, |buf|, draw);
    if g.None? then (s, -1) else (WriteTo(s, d, buf, g.value), |buf|)
  }

  /** The allocation of this write repeats no chunk: always so above half full, else up to the draws. */
  ghost predicate DistinctGrant(s: Fs, d: Digest, len: nat, draw: nat -> nat)
    requires Shape(s)
  {
    Grant(s, d, len, draw).Some? ==> NoRepeat(Grant(s, d, len, draw).value)
  }

  lemma SteadyGrantIsDistinct(s: Fs, d: Digest, len: nat, draw: nat -> nat)
    requires Valid(s) && 2 * s.count % TWO32 >= |s.metas|
    ensures DistinctGrant(s, d, len, draw)
  {
    GrantIsUsable(s, d, len, draw);
  }

  // ----- How long a file is -------------------------------------------------------------------------

  lemma {:induction false} FullChunksLength(s: Fs, ids: seq<nat>)
    requires Shape(s) && InRange(ids, |s.metas|) && ids != []
    requires forall i | 0 <= i < |ids| - 1 :: s.metas[ids[i]].idleLen == 0
    ensures |Gather(s, ids)| == (|ids| - 1) * s.chunkSize + |Written(s, ids[|ids| - 1])|
  {
    if |ids| > 1 {
      FullChunksLength(s, ids[1..]);
      assert (|ids| - 1) * s.chunkSize == (|ids| - 2) * s.chunkSize + s.chunkSize;
    }
  }

  lemma PiecesAre(len: nat, n: nat, k: nat, last: nat)
    requires n > 0 && k > 0 && 1 <= last <= n && len == (k - 1) * n + last
    ensures Pieces(len, n) == k
  {
    assert k * n == (k - 1) * n + n;
    DivUnique(len + n - 1, n, k, last - 1);
    PiecesIsDivRoundUp(len, n);
  }

  /** A file of n chunks holds n - 1 full ones and a last one that is neither empty nor overfull. */
  lemma FileLength(s: Fs, d: Digest)
    requires Valid(s)
    ensures FileIds(s, d) == [] ==> Content(s, d) == []
    ensures FileIds(s, d) != [] ==>
              var last := FileIds(s, d)[|FileIds(s, d)| - 1];
              && s.metas[last].isUsed && s.metas[last].idleLen < s.chunkSize
              && |Content(s, d)| == (|FileIds(s, d)| - 1) * s.chunkSize + (s.chunkSize - s.metas[last].idleLen)
    ensures |FileIds(s, d)| == Pieces(|Content(s, d)|, s.chunkSize)
  {
    var ids := FileIds(s, d);
    if ids != [] {
      FileIdsOwned(s, d);
      assert Packed(s, d);
      FullChunksLength(s, ids);
      var part := s.chunkSize - s.metas[ids[|ids| - 1]].idleLen;
      PiecesAre(|Content(s, d)|, s.chunkSize, |ids|, part);
    }
  }

  /** How many chunks more a file of `oldLen` bytes has with `len` more bytes. */
  function Growth(oldLen: nat, len: nat, chunkSize: nat): int
    requires chunkSize > 0
  {
    Pieces(oldLen + len, chunkSize) - Pieces(oldLen, chunkSize)
  }

  /** A write needs as many fresh chunks as the file, grown by `len`, has more chunks than before. */
  lemma NeedIsGrowth(s: Fs, d: Digest, len: nat)
    requires Valid(s)
    ensures PlanFor(s, d, len).need == Growth(|Content(s, d)|, len, s.chunkSize)
  {
    assert Shape(s);
    hide *;
    if FileIds(s, d) == [] {
      NewFileNeeds(s, d, len);
    } else {
      OldFileNeeds(s, d, len);
    }
  }

  lemma NewFileNeeds(s: Fs, d: Digest, len: nat)
    requires Valid(s) && FileIds(s, d) == []
    ensures Shape(s) && PlanFor(s, d, len).need == Growth(|Content(s, d)|, len, s.chunkSize)
  {
    NothingFilled(s, d, len);
    hide Valid, FileTail, FileIds;
    PiecesIsDivRoundUp(len, s.chunkSize);
    assert Pieces(0, s.chunkSize) == 0;
  }

  lemma OldFileNeeds(s: Fs, d: Digest, len: nat)
    requires Valid(s) && FileIds(s, d) != []
    ensures Shape(s) && PlanFor(s, d, len).need == Growth(|Content(s, d)|, len, s.chunkSize)
  {
    assert Shape(s);
    hide *;
    FileLength(s, d);
    TailInUse(s, d);
    var t := FileTail(s, d).value;
    PlanOfTail(s, d, len, t);
    PlanGrowth(s.chunkSize, s.metas[t], |FileIds(s, d)|, |Content(s, d)|, len);
  }

  lemma PlanOfTail(s: Fs, d: Digest, len: nat, t: nat)
    requires Shape(s) && FileTail(s, d) == Some(t)
    ensures PlanFor(s, d, len) == CalcWrite(s.chunkSize, Some(s.metas[t]), len) && s.chunkSize > 0
  {}

  /** The same for a file of n chunks, the last of them with the given record. */
  lemma PlanGrowth(chunkSize: nat, tail: MetaInfo, n: nat, oldLen: nat, len: nat)
    requires n > 0 && tail.isUsed && tail.idleLen < chunkSize
    requires oldLen == (n - 1) * chunkSize + (chunkSize - tail.idleLen)
    ensures CalcWrite(chunkSize, Some(tail), len).need == Growth(oldLen, len, chunkSize)
  {
    var p, part := CalcWrite(chunkSize, Some(tail), len), chunkSize - tail.idleLen;
    CalcWriteSplits(chunkSize, Some(tail), len);
    PiecesAre(oldLen, chunkSize, n, part);
    if p.need == 0 {
      PiecesAre(oldLen + len, chunkSize, n, part + len);
    } else {
      Whole(n, p.need, chunkSize);
      PiecesAre(oldLen + len, chunkSize, n + p.need, p.last);
    }
  }

  lemma Whole(n: nat, need: nat, size: nat)
    ensures (n + need - 1) * size == (n - 1) * size + size + (need - 1) * size
  {
  }

  lemma TailInUse(s: Fs, d: Digest)
    requires Valid(s) && FileIds(s, d) != []
    ensures FileTail(s, d) == Some(FileIds(s, d)[|FileIds(s, d)| - 1])
    ensures s.metas[FileTail(s, d).value].isUsed
  {
    FindTails(s, d);
  }
}
