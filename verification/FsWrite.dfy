/**
 Appending to a file, as a function from one store value to the next, and the proof that the
 coalesced lists survive it.
 */
module FsWrite {
  import opened Common
  import opened FsModel

  // ----- The steps of a write -----------------------------------------------------------------

  /** The last chunk of file d; an idle bucket stands for the file that is not there yet. */
  ghost function FileTail(s: Fs, d: Digest): (t: Option<nat>)
    requires Shape(s)
    ensures t.Some? ==> t.value < |s.metas|
  {
    if !s.metas[s.bucket(d)].isUsed then Some(s.bucket(d))
    else if FileIds(s, d) == [] then None
    else Some(FileIds(s, d)[|FileIds(s, d)| - 1])
  }

  /** The last chunk of the list that the bucket of d lies on, whichever file owns it. */
  ghost function ChunkTail(s: Fs, d: Digest): (t: nat)
    requires Shape(s)
    ensures t < |s.metas|
  {
    var h := s.bucket(d);
    if !s.metas[h].isUsed then h
    else
      var chain := Chain(s.metas, h, |s.metas|);
      chain[|chain| - 1]
  }

  /** How a write of `len` bytes splits: into the tail chunk, and over fresh chunks. */
  datatype Plan = Plan(first: nat, need: nat, last: nat)

  function CalcWrite(chunkSize: nat, tail: Option<MetaInfo>, len: nat): Plan
    requires chunkSize > 0
  {
    var first := if tail.Some? && tail.value.isUsed then Min(len, tail.value.idleLen) else 0;
    var remain := len - first;
    Plan(first, DivRoundUp(remain, chunkSize), if remain % chunkSize == 0 then chunkSize else remain % chunkSize)
  }

  ghost function PlanFor(s: Fs, d: Digest, len: nat): Plan
    requires Shape(s)
  {
    var t := FileTail(s, d);
    CalcWrite(s.chunkSize, if t.Some? then Some(s.metas[t.value]) else None, len)
  }

  /** `chunk` with `part` written at `from`. */
  function Splice(chunk: seq<byte>, from: nat, part: seq<byte>): (r: seq<byte>)
    requires from + |part| <= |chunk|
    ensures |r| == |chunk|
  {
    chunk[..from] + part + chunk[from + |part|..]
  }

  function FillTail(s: Fs, t: nat, part: seq<byte>): (s': Fs)
    requires t < |s.metas| == |s.data|
    requires |part| <= s.metas[t].idleLen <= s.chunkSize == |s.data[t]|
    ensures Shape(s) ==> Shape(s')
  {
    s.(metas := s.metas[t := s.metas[t].(idleLen := s.metas[t].idleLen - |part|)],
       data := s.data[t := Splice(s.data[t], s.chunkSize - s.metas[t].idleLen, part)])
  }

  function SetNext(s: Fs, c: nat, next: nat): (s': Fs)
    requires c < |s.metas|
    ensures Shape(s) ==> Shape(s')
  {
    s.(metas := s.metas[c := s.metas[c].(next := next)])
  }

  function PutChunk(s: Fs, d: Digest, c: nat, part: seq<byte>, idleLen: nat, next: nat): Fs
    requires c < |s.metas| == |s.data| && |part| <= |s.data[c]|
  {
    s.(metas := s.metas[c := MetaInfo(true, d, idleLen, next)],
       data := s.data[c := Splice(s.data[c], 0, part)],
       have := s.have + {c},
       count := (s.count + 1) % TWO32)
  }

  /** Spread `rest` over the chunks ids[k..], linking each to the one after it. */
  ghost function PutChunks(s: Fs, d: Digest, ids: seq<nat>, k: nat, rest: seq<byte>, last: nat): (s': Fs)
    requires Shape(s) && InRange(ids, |s.metas|) && k <= |ids| && last <= s.chunkSize
    ensures Shape(s') && |s'.metas| == |s.metas| && s'.chunkSize == s.chunkSize && s'.bucket == s.bucket
    decreases |ids| - k
  {
    if k == |ids| then s
    else
      var len := Min(s.chunkSize, |rest|);
      var s1 :=
        if k + 1 == |ids| then PutChunk(s, d, ids[k], rest[..len], s.chunkSize - last, INVALID_CHUNKID)
        else PutChunk(s, d, ids[k], rest[..len], 0, ids[k + 1]);
      PutChunks(s1, d, ids, k + 1, rest[len..], last)
  }

  /** The write into the tail chunk, and the link from the list to the first fresh chunk. */
  ghost function Attach(s: Fs, d: Digest, part: seq<byte>, ids: seq<nat>): (s': Fs)
    requires Shape(s)
    requires part != [] ==> FileTail(s, d).Some? && |part| <= s.metas[FileTail(s, d).value].idleLen
    ensures Shape(s') && |s'.metas| == |s.metas| && s'.chunkSize == s.chunkSize && s'.bucket == s.bucket
  {
    var c := ChunkTail(s, d);
    if part != [] then
      var s1 := FillTail(s, FileTail(s, d).value, part);
      if s1.metas[FileTail(s, d).value].idleLen == 0
      then SetNext(s1, c, if ids == [] then INVALID_CHUNKID else ids[0])
      else s1
    else if ids != [] then SetNext(s, c, ids[0])
    else s
  }

  lemma PlanBounds(s: Fs, d: Digest, len: nat)
    requires Shape(s)
    ensures var p := PlanFor(s, d, len);
            && p.first <= len && 1 <= p.last <= s.chunkSize
            && (p.first > 0 ==> FileTail(s, d).Some? && p.first <= s.metas[FileTail(s, d).value].idleLen)
  {
  }

  /** The store after a write that was given the chunks `ids`. */
  ghost function WriteTo(s: Fs, d: Digest, buf: seq<byte>, ids: seq<nat>): (s': Fs)
    requires Shape(s) && InRange(ids, |s.metas|)
    ensures Shape(s') && |s'.metas| == |s.metas| && s'.chunkSize == s.chunkSize && s'.bucket == s.bucket
  {
    PlanBounds(s, d, |buf|);
    var p := PlanFor(s, d, |buf|);
    PutChunks(Attach(s, d, buf[..p.first], ids), d, ids, 0, buf[p.first..], p.last)
  }

  // ----- Arithmetic of the split --------------------------------------------------------------

  /** Whole chunks followed by one of `last` bytes: the fresh chunks hold exactly what remains. */
  lemma CalcWriteSplits(chunkSize: nat, tail: Option<MetaInfo>, len: nat)
    requires chunkSize > 0
    ensures var p := CalcWrite(chunkSize, tail, len);
            var remain := len - p.first;
            && p.first <= len
            && 1 <= p.last <= chunkSize
            && (remain == 0 <==> p.need == 0)
            && (p.need > 0 ==> remain == (p.need - 1) * chunkSize + p.last)
  {
    hide DivRoundUp;
    var remain := len - CalcWrite(chunkSize, tail, len).first;
    DivMod(remain, chunkSize);
    RoundUpOf(remain, chunkSize, remain / chunkSize, remain % chunkSize);
  }

  /** The number of chunks for q full ones and r bytes more, and what all but the last of them hold. */
  lemma RoundUpOf(remain: nat, chunkSize: nat, q: nat, r: nat)
    requires chunkSize > 0 && remain == q * chunkSize + r && r < chunkSize
    ensures var need, last := DivRoundUp(remain, chunkSize), if r == 0 then chunkSize else r;
            && (remain == 0 <==> need == 0)
            && (need > 0 ==> remain == (need - 1) * chunkSize + last)
  {
    if q > 0 {
      MulPositive(q, chunkSize);
    }
    if r == 0 {
      DivUnique(remain + chunkSize - 1, chunkSize, q, chunkSize - 1);
      assert q * chunkSize == (q - 1) * chunkSize + chunkSize;
    } else {
      assert remain + chunkSize - 1 == (q + 1) * chunkSize + (r - 1);
      DivUnique(remain + chunkSize - 1, chunkSize, q + 1, r - 1);
    }
  }

  // ----- What the fresh chunks hold -----------------------------------------------------------

  /** The record that chunk ids[j] ends up with. */
  ghost function RecordOf(d: Digest, ids: seq<nat>, j: nat, chunkSize: nat, last: nat): MetaInfo
    requires j < |ids| && last <= chunkSize
  {
    if j + 1 == |ids| then MetaInfo(true, d, chunkSize - last, INVALID_CHUNKID)
    else MetaInfo(true, d, 0, ids[j + 1])
  }

  ghost function PutFirst(s: Fs, d: Digest, ids: seq<nat>, k: nat, rest: seq<byte>, last: nat): Fs
    requires Shape(s) && InRange(ids, |s.metas|) && k < |ids| && last <= s.chunkSize
  {
    var part := rest[..Min(s.chunkSize, |rest|)];
    if k + 1 == |ids| then PutChunk(s, d, ids[k], part, s.chunkSize - last, INVALID_CHUNKID)
    else PutChunk(s, d, ids[k], part, 0, ids[k + 1])
  }

  lemma {:induction false} PutChunksFrame(s: Fs, d: Digest, ids: seq<nat>, k: nat, rest: seq<byte>, last: nat, c: nat)
    requires Shape(s) && InRange(ids, |s.metas|) && k <= |ids| && last <= s.chunkSize
    requires c < |s.metas| && c !in ids[k..]
    ensures var s' := PutChunks(s, d, ids, k, rest, last);
            s'.metas[c] == s.metas[c] && s'.data[c] == s.data[c]
    decreases |ids| - k
  {
    if k < |ids| {
      assert ids[k..] == [ids[k]] + ids[k + 1..];
      PutChunksFrame(PutFirst(s, d, ids, k, rest, last), d, ids, k + 1, rest[Min(s.chunkSize, |rest|)..], last, c);
    }
  }

  lemma {:induction false} PutChunksRecord(s: Fs, d: Digest, ids: seq<nat>, k: nat, rest: seq<byte>, last: nat, j: nat)
    requires Shape(s) && InRange(ids, |s.metas|) && k <= j < |ids| && last <= s.chunkSize
    requires ids[j] !in ids[j + 1..]
    ensures PutChunks(s, d, ids, k, rest, last).metas[ids[j]] == RecordOf(d, ids, j, s.chunkSize, last)
    decreases |ids| - k
  {
    var s1, rest1 := PutFirst(s, d, ids, k, rest, last), rest[Min(s.chunkSize, |rest|)..];
    if k == j {
      PutChunksFrame(s1, d, ids, k + 1, rest1, last, ids[k]);
    } else {
      PutChunksRecord(s1, d, ids, k + 1, rest1, last, j);
    }
  }

  lemma {:induction false} PutChunksCounts(s: Fs, d: Digest, ids: seq<nat>, k: nat, rest: seq<byte>, last: nat)
    requires Shape(s) && InRange(ids, |s.metas|) && k <= |ids| && last <= s.chunkSize
    ensures var s' := PutChunks(s, d, ids, k, rest, last);
            s'.have == s.have + Elements(ids[k..]) && (s.count + |ids| - k < TWO32 ==> s'.count == s.count + |ids| - k)
    decreases |ids| - k
  {
    hide PutChunks, PutFirst;
    if k == |ids| {
      PutNone(s, d, ids, rest, last);
      assert ids[k..] == [];
    } else {
      PutFirstCounts(s, d, ids, k, rest, last);
      PutChunksCounts(PutFirst(s, d, ids, k, rest, last), d, ids, k + 1, rest[Min(s.chunkSize, |rest|)..], last);
      assert ids[k..] == [ids[k]] + ids[k + 1..];
    }
  }

  lemma PutNone(s: Fs, d: Digest, ids: seq<nat>, rest: seq<byte>, last: nat)
    requires Shape(s) && InRange(ids, |s.metas|) && last <= s.chunkSize
    ensures PutChunks(s, d, ids, |ids|, rest, last) == s
  {
  }

  /** One chunk: its bit, and one more in the counter. */
  lemma PutFirstCounts(s: Fs, d: Digest, ids: seq<nat>, k: nat, rest: seq<byte>, last: nat)
    requires Shape(s) && InRange(ids, |s.metas|) && k < |ids| && last <= s.chunkSize
    ensures var s1 := PutFirst(s, d, ids, k, rest, last);
            && Shape(s1) && |s1.metas| == |s.metas| && s1.chunkSize == s.chunkSize
            && s1.have == s.have + {ids[k]} && s1.count == (s.count + 1) % TWO32
            && PutChunks(s, d, ids, k, rest, last) ==
               PutChunks(s1, d, ids, k + 1, rest[Min(s.chunkSize, |rest|)..], last)
  {
  }

  /** Read back in order, the fresh chunks give exactly the bytes that were spread over them. */
  lemma {:induction false} PutChunksGather(s: Fs, d: Digest, ids: seq<nat>, k: nat, rest: seq<byte>, last: nat)
    requires Shape(s) && InRange(ids, |s.metas|) && k <= |ids| && 1 <= last <= s.chunkSize
    requires NoRepeat(ids)
    requires if k < |ids| then |rest| == (|ids| - k - 1) * s.chunkSize + last else rest == []
    ensures Gather(PutChunks(s, d, ids, k, rest, last), ids[k..]) == rest
    decreases |ids| - k
  {
    hide PutChunks, Gather, PutFirst, Written;
    if k == |ids| {
      GatherNone(PutChunks(s, d, ids, k, rest, last), ids);
    } else {
      var len := Min(s.chunkSize, |rest|);
      var s1 := PutFirst(s, d, ids, k, rest, last);
      FirstPiece(|ids| - k, s.chunkSize, last, |rest|);
      PutFirstHolds(s, d, ids, k, rest, last);
      var s' := PutChunks(s1, d, ids, k + 1, rest[len..], last);
      GatherNext(s', ids, k);
      PutChunksGather(s1, d, ids, k + 1, rest[len..], last);
      PutChunksFrame(s1, d, ids, k + 1, rest[len..], last, ids[k]);
      WrittenSame(s1, s', ids[k]);
      assert rest == rest[..len] + rest[len..];
    }
  }

  lemma PutFirstHolds(s: Fs, d: Digest, ids: seq<nat>, k: nat, rest: seq<byte>, last: nat)
    requires Shape(s) && InRange(ids, |s.metas|) && k < |ids| && 1 <= last <= s.chunkSize
    requires k + 1 == |ids| ==> |rest| == last
    requires k + 1 < |ids| ==> |rest| >= s.chunkSize
    ensures var len, s1 := Min(s.chunkSize, |rest|), PutFirst(s, d, ids, k, rest, last);
            && Shape(s1) && |s1.metas| == |s.metas| && s1.chunkSize == s.chunkSize
            && Written(s1, ids[k]) == rest[..len]
            && PutChunks(s, d, ids, k, rest, last) == PutChunks(s1, d, ids, k + 1, rest[len..], last)
  {
  }

  lemma GatherNone(s: Fs, ids: seq<nat>)
    requires Shape(s) && InRange(ids, |s.metas|)
    ensures Gather(s, ids[|ids|..]) == []
  {
  }

  lemma GatherNext(s: Fs, ids: seq<nat>, k: nat)
    requires Shape(s) && InRange(ids, |s.metas|) && k < |ids|
    ensures Gather(s, ids[k..]) == Written(s, ids[k]) + Gather(s, ids[k + 1..])
  {
    assert ids[k..][1..] == ids[k + 1..];
  }

  lemma WrittenSame(s: Fs, s': Fs, c: nat)
    requires Shape(s) && Shape(s') && s'.chunkSize == s.chunkSize && c < |s.metas| && c < |s'.metas|
    requires s'.metas[c] == s.metas[c] && s'.data[c] == s.data[c]
    ensures Written(s', c) == Written(s, c)
  {
  }

  lemma FirstPiece(n: nat, chunkSize: nat, last: nat, len: nat)
    requires n > 0 && 1 <= last <= chunkSize && len == (n - 1) * chunkSize + last
    ensures n == 1 ==> len == last
    ensures n > 1 ==> len >= chunkSize && len - chunkSize == (n - 2) * chunkSize + last
  {
    if n > 1 {
      assert (n - 1) * chunkSize == (n - 2) * chunkSize + chunkSize;
      assert (n - 2) * chunkSize >= 0;
    }
  }
}
