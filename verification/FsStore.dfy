/**
 The chunk store as the program keeps it: a pool of records, a bitmap and a data file, updated in
 place.  Record pointers are chunk ids here; see FsSizing for the two conversions.
 */
module FsStore {
  import opened Common
  import opened FsModel
  import opened FsWrite
  import opened FsBitmap
  import opened FsAppend
  import opened FsRefine
  import opened FsRead
  import opened FsDisk
  import opened FsRuns
  import opened Sha1Spec
  import opened Sha1Stream

  /** The first four digest bytes as a little-endian word, modulo the number of chunks. */
  function GenerateHashKey(sha1Val: Digest, chunkNum: nat): (h: nat)
    requires chunkNum > 0
    ensures h < chunkNum
  {
    (sha1Val[0] as nat + 0x100 * sha1Val[1] as nat + 0x1_0000 * sha1Val[2] as nat
        + 0x100_0000 * sha1Val[3] as nat) % chunkNum
  }

  /** The bucket is the remainder of the number whose bytes, lowest first, are the first four of the digest. */
  lemma KeyIsWord(d: Digest, chunkNum: nat, x: nat)
    requires chunkNum > 0 && x < TWO32
    requires x % 0x100 == d[0] as nat && x / 0x100 % 0x100 == d[1] as nat
    requires x / 0x1_0000 % 0x100 == d[2] as nat && x / 0x100_0000 == d[3] as nat
    ensures GenerateHashKey(d, chunkNum) == x % chunkNum
  {
    FourBytes(x);
  }

  lemma FourBytes(x: nat)
    ensures x == x % 0x100 + 0x100 * (x / 0x100 % 0x100) + 0x1_0000 * (x / 0x1_0000 % 0x100)
                 + 0x100_0000 * (x / 0x100_0000)
  {
    ByteOff(x);
    ByteOff(x / 0x100);
    ByteOff(x / 0x1_0000);
  }

  lemma ByteOff(x: nat)
    ensures x == x % 0x100 + 0x100 * (x / 0x100)
    ensures x / 0x100 / 0x100 == x / 0x1_0000 && x / 0x1_0000 / 0x100 == x / 0x100_0000
  {}

  ghost predicate HashesTo(bucket: Digest -> nat, chunkNum: nat, d: Digest)
    requires chunkNum > 0
  {
    bucket(d) == GenerateHashKey(d, chunkNum)
  }

  class EdgeFs {
    const chunkNum: nat
    const chunkSize: nat
    ghost const bucket: Digest -> nat
    const metaPool: array<MetaInfo>
    const bitmap: Bitmap
    const disk: DataMgr

    ghost predicate Ready()
      reads this, metaPool, bitmap, bitmap.ptr, disk, disk.file
    {
      && 0 < chunkSize < TWO32
      && 0 < chunkNum <= INVALID_CHUNKID
      && (forall d :: bucket(d) < chunkNum)
      && (forall d {:trigger HashesTo(bucket, chunkNum, d)} :: HashesTo(bucket, chunkNum, d))
      && metaPool.Length == chunkNum
      && (forall c | 0 <= c < chunkNum :: metaPool[c].idleLen <= chunkSize)
      && bitmap.Valid() && bitmap.total == chunkNum
      && disk.file.Length == chunkNum * chunkSize
      && disk.file != bitmap.ptr && metaPool as object != bitmap.ptr && metaPool as object != disk.file
    }

    /** A caller's buffer is none of the store's own arrays. */
    ghost predicate Apart(buff: array<byte>)
      reads this, bitmap, disk
    {
      buff != disk.file && buff != bitmap.ptr && buff as object != metaPool
    }

    /** The value that the arrays stand for. */
    ghost function Abs(): (s: Fs)
      requires Ready()
      reads this, metaPool, bitmap, bitmap.ptr, disk, disk.file
      ensures Shape(s) && |s.metas| == chunkNum && s.chunkSize == chunkSize
    {
      Fs(chunkSize, bucket, metaPool[..], Chunks(disk.file[..], chunkSize, chunkNum),
         bitmap.Have(), bitmap.writeChunkNum)
    }

    constructor (chunkNum: nat, chunkSize: nat)
      requires 0 < chunkSize < TWO32 && 0 < chunkNum <= INVALID_CHUNKID
      ensures Ready() && fresh(metaPool) && fresh(bitmap) && fresh(bitmap.ptr) && fresh(disk) && fresh(disk.file)
      ensures this.chunkNum == chunkNum && this.chunkSize == chunkSize
      ensures Valid(Abs()) && Tidy(Abs()) && Counted(Abs())
      ensures forall d :: Content(Abs(), d) == []
    {
      this.chunkNum := chunkNum;
      this.chunkSize := chunkSize;
      bucket := d => GenerateHashKey(d, chunkNum);
      metaPool := new MetaInfo[chunkNum](_ => MetaInfo(false, seq(20, _ => 0), 0, 0));
      var b := new Bitmap(chunkNum);
      bitmap := b;
      disk := new DataMgr(chunkNum * chunkSize);
      new;
      UnusedIsValid(Abs());
    }

    // ----- The two tail searches --------------------------------------------------------------------

    method FindChunkTailMetaInfo(sha1Val: Digest, head: nat, ghost s: Fs) returns (tail: nat)
      requires Valid(s) && metaPool[..] == s.metas && head == s.bucket(sha1Val)
      ensures tail == ChunkTail(s, sha1Val)
    {
      if !metaPool[head].isUsed {
        return head;
      }
      ghost var list, i := ListOf(s, head);
      tail := head;
      while true
        invariant i < |list| && list[i] == tail
        decreases |list| - i
      {
        assert LinkAt(s.metas, list, i);
        if metaPool[tail].next == INVALID_CHUNKID {
          return tail;
        }
        tail := metaPool[tail].next;
        i := i + 1;
      }
    }

    method FindFileTailMetaInfo(sha1Val: Digest, head: nat, ghost s: Fs) returns (tail: Option<nat>)
      requires Valid(s) && metaPool[..] == s.metas && head == s.bucket(sha1Val)
      ensures tail == FileTail(s, sha1Val)
    {
      if !metaPool[head].isUsed {
        return Some(head);
      }
      hide Owned, Valid, FileTail, LastOf, Linked;
      ghost var list, p := ListOf(s, head);
      ghost var i := p;
      OwnedNothing(s.metas, list, p, sha1Val);
      tail := None;
      var cur := head;
      while true
        invariant p <= i < |list| && list[i] == cur
        invariant tail == LastOf(Owned(s.metas, list[p..i], sha1Val))
        decreases |list| - i
      {
        OwnedNext(s.metas, list, p, i, sha1Val);
        if metaPool[cur].sha1 == sha1Val {
          tail := Some(cur);
        }
        if metaPool[cur].next == INVALID_CHUNKID {
          FileTailIs(s, list, p, sha1Val);
          return tail;
        }
        cur := metaPool[cur].next;
        i := i + 1;
      }
    }

    // ----- The steps of a write -----------------------------------------------------------------------

    /** Write buff[from..from + len] into a chunk, `skip` bytes after its start. */
    method WriteDisk(chunkid: nat, skip: nat, buff: array<byte>, from: nat, len: nat)
      requires Ready() && chunkid < chunkNum && Apart(buff)
      requires from + len <= buff.Length && skip + len <= chunkSize
      modifies disk.file
      ensures Ready()
      ensures Chunks(disk.file[..], chunkSize, chunkNum) ==
              old(Chunks(disk.file[..], chunkSize, chunkNum))[
                chunkid := Splice(old(Chunks(disk.file[..], chunkSize, chunkNum))[chunkid], skip,
                    buff[from..from + len])]
    {
      WriteInChunk(disk.file[..], chunkSize, chunkNum, chunkid, skip, buff[from..from + len]);
      disk.Write(buff, from, len, chunkid * chunkSize + skip);
    }

    /** Fill the tail chunk of a file with the front of the buffer. */
    method FillTailChunk(chunkid: nat, buff: array<byte>, firstWriteLen: nat)
      requires Ready() && chunkid < chunkNum && Apart(buff)
      requires firstWriteLen <= buff.Length && firstWriteLen <= metaPool[chunkid].idleLen
      modifies metaPool, disk.file
      ensures Ready() && Abs() == FillTail(old(Abs()), chunkid, buff[..firstWriteLen])
    {
      ghost var s, part := Abs(), buff[..firstWriteLen];
      var meta := metaPool[chunkid];
      assert buff[0..firstWriteLen] == part;
      WriteDisk(chunkid, chunkSize - meta.idleLen, buff, 0, firstWriteLen);
      metaPool[chunkid] := meta.(idleLen := meta.idleLen - firstWriteLen);
      assert metaPool[..] == s.metas[chunkid := meta.(idleLen := meta.idleLen - |part|)];
      assert bitmap.Have() == s.have;
      assert buff[..firstWriteLen] == part;
    }

    method LinkChunk(chunkid: nat, nextChunkid: nat)
      requires Ready() && chunkid < chunkNum
      modifies metaPool
      ensures Ready() && Abs() == SetNext(old(Abs()), chunkid, nextChunkid)
    {
      metaPool[chunkid] := metaPool[chunkid].(next := nextChunkid);
      assert bitmap.Have() == old(bitmap.Have());
      assert metaPool[..] == SetNext(old(Abs()), chunkid, nextChunkid).metas;
    }

    /** Write part of the buffer to a fresh chunk, then take the chunk into use. */
    method TakeChunk(chunkid: nat, sha1Val: Digest, buff: array<byte>, from: nat, writeLen: nat, idleLen: nat,
                     next: nat)
      requires Ready() && chunkid < chunkNum && Apart(buff)
      requires from + writeLen <= buff.Length && writeLen <= chunkSize && idleLen <= chunkSize
      modifies metaPool, bitmap, bitmap.ptr, disk.file
      ensures Ready()
      ensures Abs() == PutChunk(old(Abs()), sha1Val, chunkid, buff[from..from + writeLen], idleLen, next)
    {
      ghost var s, part := Abs(), buff[from..from + writeLen];
      WriteDisk(chunkid, 0, buff, from, writeLen);
      var inserted := bitmap.Insert(chunkid);
      metaPool[chunkid] := metaPool[chunkid].(isUsed := true);
      metaPool[chunkid] := metaPool[chunkid].(sha1 := sha1Val);
      metaPool[chunkid] := metaPool[chunkid].(next := next);
      metaPool[chunkid] := metaPool[chunkid].(idleLen := idleLen);
      assert bitmap.Have() == s.have + {chunkid};
      assert metaPool[..] == s.metas[chunkid := MetaInfo(true, sha1Val, idleLen, next)];
      assert buff[from..from + writeLen] == part;
      assert Chunks(disk.file[..], chunkSize, chunkNum) == s.data[chunkid := Splice(s.data[chunkid], 0, part)];
    }

    method CalcWriteVariable(tail: Option<nat>, writeLen: nat)
      returns (firstWriteLen: nat, needChunkNum: nat, lastChunkWriteLen: nat)
      requires Ready() && (tail.Some? ==> tail.value < chunkNum)
      ensures Plan(firstWriteLen, needChunkNum, lastChunkWriteLen) ==
              CalcWrite(chunkSize, TailMeta(Abs(), tail), writeLen)
    {
      if tail.Some? {
        if !metaPool[tail.value].isUsed {
          firstWriteLen := 0;
        } else {
          firstWriteLen := if writeLen >= metaPool[tail.value].idleLen then metaPool[tail.value].idleLen else writeLen;
        }
      } else {
        firstWriteLen := 0;
      }
      var remainLen := writeLen - firstWriteLen;
      needChunkNum := DivRoundUp(remainLen, chunkSize);
      lastChunkWriteLen := if remainLen % chunkSize == 0 then chunkSize else remainLen % chunkSize;
    }

    /** The write into the tail chunk, and the link from the end of the list to the first fresh chunk. */
    method AttachChunks(ghost sha1Val: Digest, tail: Option<nat>, chunkTail: nat, buff: array<byte>,
                        firstWriteLen: nat, ids: seq<nat>)
      requires Ready() && Apart(buff)
      requires tail == FileTail(Abs(), sha1Val) && chunkTail == ChunkTail(Abs(), sha1Val)
      requires firstWriteLen <= buff.Length
      requires firstWriteLen > 0 ==> tail.Some? && firstWriteLen <= metaPool[tail.value].idleLen
      modifies metaPool, disk.file
      ensures Ready() && Abs() == Attach(old(Abs()), sha1Val, buff[..firstWriteLen], ids)
    {
      if firstWriteLen != 0 {
        FillTailChunk(tail.value, buff, firstWriteLen);
        if metaPool[tail.value].idleLen == 0 {
          LinkChunk(chunkTail, if ids == [] then INVALID_CHUNKID else ids[0]);
        }
      } else if ids != [] {
        LinkChunk(chunkTail, ids[0]);
      }
    }

    /** Write the next piece of the buffer `buf`, of which `from` bytes are written, to fresh chunk number i. */
    method FillOneChunk(sha1Val: Digest, buff: array<byte>, from: nat, writeLen: nat, ids: seq<nat>, i: nat,
                        lastChunkWriteLen: nat, ghost buf: seq<byte>)
      requires Ready() && Apart(buff) && i < |ids| && InRange(ids, chunkNum) && lastChunkWriteLen <= chunkSize
      requires from <= |buf| <= buff.Length && buf == buff[..|buf|] && writeLen == Min(chunkSize, |buf| - from)
      modifies metaPool, bitmap, bitmap.ptr, disk.file
      ensures Ready() && Abs() == PutFirst(old(Abs()), sha1Val, ids, i, buf[from..], lastChunkWriteLen)
    {
      var idleLen := if i + 1 == |ids| then chunkSize - lastChunkWriteLen else 0;
      var next := if i + 1 == |ids| then INVALID_CHUNKID else ids[i + 1];
      hide PutFirst;
      assert buf[from..][..writeLen] == buf[from..from + writeLen] == buff[from..from + writeLen];
      TakeChunk(ids[i], sha1Val, buff, from, writeLen, idleLen, next);
    }

    /**
     `realWriteLen` bytes of `buf` are written, and fresh chunks i.. are to take the rest, which leads to `target`.
     */
    ghost predicate Filling(sha1Val: Digest, buf: seq<byte>, realWriteLen: nat, ids: seq<nat>, i: nat,
                            lastChunkWriteLen: nat, target: Fs)
      reads this, metaPool, bitmap, bitmap.ptr, disk, disk.file
    {
      && Ready()
      && i <= |ids| && InRange(ids, chunkNum) && lastChunkWriteLen <= chunkSize && realWriteLen <= |buf|
      && Covers(chunkSize, |ids| - i, |buf| - realWriteLen)
      && target == PutChunks(Abs(), sha1Val, ids, i, buf[realWriteLen..], lastChunkWriteLen)
    }

    /** One round of spreading the buffer over the fresh chunks. */
    method FillRound(sha1Val: Digest, buff: array<byte>, from: nat, remainLen: nat, ids: seq<nat>, i: nat,
                     lastChunkWriteLen: nat, ghost buf: seq<byte>, ghost target: Fs)
      returns (realWriteLen: nat)
      requires i < |ids| && Filling(sha1Val, buf, from, ids, i, lastChunkWriteLen, target)
      requires Apart(buff) && |buf| <= buff.Length && buf == buff[..|buf|] && from + remainLen == |buf|
      modifies metaPool, bitmap, bitmap.ptr, disk.file
      ensures from <= realWriteLen <= |buf|
              && Filling(sha1Val, buf, realWriteLen, ids, i + 1, lastChunkWriteLen, target)
    {
      var writeLen := if remainLen >= chunkSize then chunkSize else remainLen;
      CoversStep(chunkSize, |ids| - i, remainLen);
      PutChunksStep(Abs(), sha1Val, ids, i, buf, from, writeLen, lastChunkWriteLen);
      FillOneChunk(sha1Val, buff, from, writeLen, ids, i, lastChunkWriteLen, buf);
      realWriteLen := from + writeLen;
    }

    /** Spread the rest of the buffer over the fresh chunks. */
    method FillChunks(sha1Val: Digest, buff: array<byte>, len: nat, firstWriteLen: nat, ids: seq<nat>,
                      lastChunkWriteLen: nat, ghost target: Fs)
      returns (realWriteLen: nat)
      requires firstWriteLen <= len <= buff.Length && Apart(buff)
      requires Filling(sha1Val, buff[..len], firstWriteLen, ids, 0, lastChunkWriteLen, target)
      modifies metaPool, bitmap, bitmap.ptr, disk.file
      ensures Ready() && realWriteLen == len && Abs() == target
    {
      ghost var buf := buff[..len];
      realWriteLen := firstWriteLen;
      for i := 0 to |ids|
        invariant realWriteLen <= len && buf == buff[..len]
        invariant Filling(sha1Val, buf, realWriteLen, ids, i, lastChunkWriteLen, target)
      {
        var remainLen := len - realWriteLen;
        realWriteLen := FillRound(sha1Val, buff, realWriteLen, remainLen, ids, i, lastChunkWriteLen, buf, target);
      }
    }

    // ----- Writing --------------------------------------------------------------------------------------

    method CalcHashKey(sha1Val: Digest) returns (h: nat)
      requires Ready()
      ensures h == bucket(sha1Val)
    {
      assert HashesTo(bucket, chunkNum, sha1Val);
      h := GenerateHashKey(sha1Val, chunkNum);
    }

    method AllocateChunks(ghost sha1Val: Digest, ghost len: nat, fileTail: Option<nat>, needChunkNum: nat,
                          draw: nat -> nat)
      returns (ok: bool, ids: seq<nat>)
      requires Ready() && fileTail == FileTail(Abs(), sha1Val) && needChunkNum == PlanFor(Abs(), sha1Val, len).need
      ensures var g := Grant(Abs(), sha1Val, len, draw);
              ok == g.Some? && ids == if g.Some? then g.value else []
    {
      ok, ids := true, [];
      if needChunkNum != 0 {
        var tail := if fileTail.Some? then Some(metaPool[fileTail.value]) else None;
        var tailChunkid := if fileTail.Some? then fileTail.value else INVALID_CHUNKID;
        ok, ids := bitmap.GenerateIdleChunkids(tail, tailChunkid, needChunkNum, draw);
      }
    }

    /** Write the whole buffer, given the two tails and the fresh chunks. */
    method StoreBuffer(sha1Val: Digest, fileTail: Option<nat>, chunkTail: nat, buff: array<byte>, len: nat, plan: Plan,
                       ids: seq<nat>)
      returns (realWriteLen: nat)
      requires Ready() && Apart(buff) && len <= buff.Length && InRange(ids, chunkNum)
      requires fileTail == FileTail(Abs(), sha1Val) && chunkTail == ChunkTail(Abs(), sha1Val)
      requires plan == PlanFor(Abs(), sha1Val, len) && |ids| == plan.need
      modifies metaPool, bitmap, bitmap.ptr, disk.file
      ensures Ready() && realWriteLen == len && Abs() == WriteTo(old(Abs()), sha1Val, buff[..len], ids)
    {
      hide CalcWrite, PlanFor, Attach, PutChunks, FileTail, ChunkTail;
      ghost var buf := buff[..len];
      PlanBounds(Abs(), sha1Val, len);
      PlanCovers(Abs(), sha1Val, len);
      assert buf[..plan.first] == buff[..plan.first];
      AttachChunks(sha1Val, fileTail, chunkTail, buff, plan.first, ids);
      assert buff[..len] == buf;
      ghost var target := PutChunks(Abs(), sha1Val, ids, 0, buf[plan.first..], plan.last);
      realWriteLen := FillChunks(sha1Val, buff, len, plan.first, ids, plan.last, target);
      assert buff[..len] == buf;
    }

    /** What a write finds out before it changes anything: the two tails, the plan and the fresh chunks. */
    method PrepareWrite(sha1Val: Digest, len: nat, draw: nat -> nat)
      returns (ok: bool, fileTail: Option<nat>, chunkTail: nat, plan: Plan, ids: seq<nat>)
      requires Ready() && Valid(Abs())
      ensures fileTail == FileTail(Abs(), sha1Val) && chunkTail == ChunkTail(Abs(), sha1Val)
      ensures plan == PlanFor(Abs(), sha1Val, len)
      ensures var g := Grant(Abs(), sha1Val, len, draw);
              ok == g.Some? && ids == if g.Some? then g.value else []
    {
      hide CalcWrite, Content;
      ghost var s := Abs();
      var hashKey := CalcHashKey(sha1Val);
      fileTail := FindFileTailMetaInfo(sha1Val, hashKey, s);
      chunkTail := FindChunkTailMetaInfo(sha1Val, hashKey, s);
      var firstWriteLen, needChunkNum, lastChunkWriteLen := CalcWriteVariable(fileTail, len);
      plan := Plan(firstWriteLen, needChunkNum, lastChunkWriteLen);
      ok, ids := AllocateChunks(sha1Val, len, fileTail, needChunkNum, draw);
    }

    /** Append to the file with digest sha1Val; -1 stands for a refusal or a missing buffer. */
    method WriteFile(sha1Val: Digest, buff: array?<byte>, len: nat, draw: nat -> nat) returns (r: int)
      requires Ready() && Valid(Abs())
      requires buff != null ==> len <= buff.Length && Apart(buff)
      modifies metaPool, bitmap, bitmap.ptr, disk.file
      ensures Ready()
      ensures buff == null ==> r == -1 && Abs() == old(Abs())
      ensures buff != null ==> (Abs(), r) == WriteStep(old(Abs()), sha1Val, buff[..len], draw)
    {
      if buff == null {
        return -1;
      }
      ghost var s := Abs();
      GrantFits(s, sha1Val, len, draw);
      WriteStepIs(s, sha1Val, buff[..len], draw);
      hide *;
      var ok, fileTail, chunkTail, plan, idleChunkids := PrepareWrite(sha1Val, len, draw);
      if !ok || (plan.need != 0 && idleChunkids == []) {
        return -1;
      }
      r := StoreBuffer(sha1Val, fileTail, chunkTail, buff, len, plan, idleChunkids);
    }

    // ----- Reading --------------------------------------------------------------------------------------

    method GenerateReadChunkids(sha1Val: Digest, head: nat, ghost s: Fs)
      returns (writeChunkids: seq<nat>, writeTotalLen: nat, lastChunkWriteLen: nat)
      requires Valid(s) && metaPool[..] == s.metas && chunkSize == s.chunkSize && head == s.bucket(sha1Val)
      ensures writeChunkids == FileIds(s, sha1Val)
      ensures writeTotalLen == |Content(s, sha1Val)|
      ensures lastChunkWriteLen == LastLen(s, FileIds(s, sha1Val))
    {
      writeChunkids, writeTotalLen, lastChunkWriteLen := [], 0, 0;
      if !metaPool[head].isUsed {
        return;
      }
      ghost var list, p := ListOf(s, head);
      ghost var i := p;
      var cur := head;
      while true
        invariant p <= i < |list| && list[i] == cur
        invariant Collected(s, list[p..i], sha1Val, writeChunkids, writeTotalLen, lastChunkWriteLen)
        decreases |list| - i
      {
        assert LinkAt(s.metas, list, i);
        CollectNext(s, list, p, i, sha1Val, writeChunkids, writeTotalLen, lastChunkWriteLen);
        if metaPool[cur].sha1 == sha1Val {
          writeChunkids := writeChunkids + [cur];
          lastChunkWriteLen := chunkSize - metaPool[cur].idleLen;
          writeTotalLen := writeTotalLen + lastChunkWriteLen;
        }
        if metaPool[cur].next == INVALID_CHUNKID {
          assert list[p..i + 1] == list[p..];
          return;
        }
        cur := metaPool[cur].next;
        i := i + 1;
      }
    }

    method SplitOffset(offset: nat) returns (idx: nat, skip: nat)
      requires chunkSize > 0
      ensures idx == Quot(offset, chunkSize) && skip == Rem(offset, chunkSize)
    {
      QuotRem(offset, chunkSize);
      idx := offset / chunkSize;
      skip := offset % chunkSize;
    }

    method RoundUp32(remainLen: nat) returns (needChunkNum: nat)
      requires chunkSize > 0
      ensures needChunkNum == FurtherChunks(chunkSize, remainLen)
    {
      var sum := (remainLen + chunkSize - 1) % TWO32;
      QuotRem(sum, chunkSize);
      needChunkNum := sum / chunkSize;
    }

    /** The (offset, length) pairs of a read; the offsets count from the start of the data file. */
    method CalcReadVariable(writeChunkids: seq<nat>, lastChunkWriteLen: nat, readLen: nat, offset: nat)
      returns (readInfo: seq<(nat, nat)>)
      requires chunkSize > 0 && Quot(offset, chunkSize) < |writeChunkids| && readLen < TWO32
      requires Quot(offset, chunkSize) + 1 == |writeChunkids| ==> Rem(offset, chunkSize) <= lastChunkWriteLen
      ensures readInfo == OnDisk(chunkSize, PlanFrom(chunkSize, writeChunkids, lastChunkWriteLen, readLen,
                                                     Quot(offset, chunkSize), Rem(offset, chunkSize)))
    {
      hide Quot, Rem, FurtherChunks, CalcOffset, PlanFrom, MorePieces, OnDisk;
      var firstReadIdx, firstChunkSkipLen := SplitOffset(offset);
      PlanOnDisk(chunkSize, writeChunkids, lastChunkWriteLen, readLen, firstReadIdx, firstChunkSkipLen);
      var at := CalcOffset(chunkSize, writeChunkids[firstReadIdx]) + firstChunkSkipLen;
      if firstReadIdx + 1 == |writeChunkids| {
        return [(at, Min(lastChunkWriteLen - firstChunkSkipLen, readLen))];
      }
      var firstChunkReadLen := Min(chunkSize - firstChunkSkipLen, readLen);
      readInfo := [(at, firstChunkReadLen)];
      var remainLen := readLen - firstChunkReadLen;
      var needChunkNum := RoundUp32(remainLen);
      ghost var goal := readInfo + MoreOnDisk(chunkSize, writeChunkids, firstReadIdx + 1, needChunkNum, remainLen);
      for i := 0 to needChunkNum
        invariant 0 <= remainLen
        invariant goal ==
                  readInfo + MoreOnDisk(chunkSize, writeChunkids, firstReadIdx + 1 + i, needChunkNum - i, remainLen)
      {
        var idx := firstReadIdx + 1 + i;
        MoreStep(chunkSize, writeChunkids, idx, needChunkNum - i, remainLen, readInfo);
        if idx >= |writeChunkids| {
          break;
        }
        var chunkReadLen := Min(chunkSize, remainLen);
        readInfo := readInfo + [(CalcOffset(chunkSize, writeChunkids[idx]), chunkReadLen)];
        remainLen := remainLen - chunkReadLen;
      }
    }

    /** Read one planned piece into the buffer; `chunks` is the data file seen as chunks. */
    method ReadPiece(at: nat, len: nat, ghost p: Piece, ghost chunks: seq<seq<byte>>, buff: array<byte>, to: nat)
      requires buff != disk.file && disk.file.Length == chunkNum * chunkSize
      requires chunks == Chunks(disk.file[..], chunkSize, chunkNum)
      requires p.chunk < chunkNum && p.skip + p.len <= chunkSize
      requires at == CalcOffset(chunkSize, p.chunk) + p.skip && len == p.len && to + len <= buff.Length
      modifies buff
      ensures p.skip + p.len <= |chunks[p.chunk]|
      ensures buff[..] == Splice(old(buff[..]), to, chunks[p.chunk][p.skip..p.skip + p.len])
    {
      PieceOnDisk(disk.file[..], chunkSize, chunkNum, p);
      disk.Read(buff, to, len, at);
    }

    /** Read planned piece number i after the pieces before it, whose bytes are `done`. */
    method ReadNext(at: nat, len: nat, ghost plan: seq<Piece>, ghost i: nat, ghost s: Fs, buff: array<byte>, to: nat,
                    ghost was: seq<byte>, ghost done: seq<byte>)
      returns (ghost more: seq<byte>)
      requires buff != disk.file && disk.file.Length == chunkNum * chunkSize
      requires s.data == Chunks(disk.file[..], chunkSize, chunkNum) && s.chunkSize == chunkSize
      requires i < |plan| && (forall k | 0 <= k < |plan| :: Inside(s, plan[k]))
               && (at, len) == OnDisk(chunkSize, plan)[i]
      requires done + Collect(s, plan[i..]) == Collect(s, plan) && |Collect(s, plan)| <= buff.Length == |was|
      requires to == |done| && buff[..] == Splice(was, 0, done)
      modifies buff
      ensures more + Collect(s, plan[i + 1..]) == Collect(s, plan) && to + len == |more|
      ensures buff[..] == Splice(was, 0, more)
    {
      hide Splice, Collect, Chunks, OnDisk, CalcOffset;
      ghost var p := plan[i];
      assert Inside(s, p);
      OnDiskAt(chunkSize, plan, i);
      CollectStep(s, plan, i, done);
      ghost var part := s.data[p.chunk][p.skip..p.skip + p.len];
      ReadPiece(at, len, p, s.data, buff, to);
      SpliceTwice(was, done, part);
      more := done + part;
    }

    /** Collect the planned pieces in the buffer. */
    method ReadPieces(readInfo: seq<(nat, nat)>, ghost plan: seq<Piece>, ghost s: Fs, buff: array<byte>)
      returns (realReadLen: nat)
      requires buff != disk.file && disk.file.Length == chunkNum * chunkSize
      requires s.data == Chunks(disk.file[..], chunkSize, chunkNum) && s.chunkSize == chunkSize
      requires readInfo == OnDisk(chunkSize, plan)
      requires forall i | 0 <= i < |plan| :: Inside(s, plan[i])
      requires |Collect(s, plan)| <= buff.Length
      modifies buff
      ensures realReadLen == |Collect(s, plan)|
      ensures buff[..] == Splice(old(buff[..]), 0, Collect(s, plan))
    {
      assert Splice(buff[..], 0, []) == buff[..];
      assert Collect(s, plan[|plan|..]) == [];
      hide Splice, Collect, Chunks, OnDisk, CalcOffset;
      ghost var was, done := buff[..], [];
      realReadLen := 0;
      assert plan[0..] == plan && [] + Collect(s, plan) == Collect(s, plan);
      for i := 0 to |readInfo|
        invariant disk.file[..] == old(disk.file[..])
        invariant done + Collect(s, plan[i..]) == Collect(s, plan) && realReadLen == |done|
        invariant buff[..] == Splice(was, 0, done)
      {
        var (at, len) := readInfo[i];
        done := ReadNext(at, len, plan, i, s, buff, realReadLen, was, done);
        realReadLen := realReadLen + len;
      }
      assert done + [] == done == Collect(s, plan);
    }

    /**
     Read up to `len` bytes of a file into the buffer: -1 for a missing buffer, a missing file or an offset beyond its
     end; None where the code would index past the chunk list.
     */
    method ReadFile(sha1Val: Digest, buff: array?<byte>, len: nat, offset: nat) returns (r: Option<int>)
      requires Ready() && Valid(Abs()) && len < TWO32
      requires buff != null ==> len <= buff.Length && Apart(buff)
      modifies buff
      ensures buff == null ==> r == Some(-1)
      ensures r.None? <==> buff != null && !StartExists(Abs(), sha1Val, offset)
      ensures r.None? ==> buff[..] == old(buff[..])
      ensures buff != null && r.Some? ==>
                match ReadStep(Abs(), sha1Val, len, offset)
                case Failed => r == Some(-1) && buff[..] == old(buff[..])
                case Bytes(b) => r == Some(|b|) && |b| <= len && buff[..] == b + old(buff[|b|..])
    {
      if buff == null {
        return Some(-1);
      }
      ghost var s, before := Abs(), buff[..];
      assert metaPool[..] == s.metas && bucket == s.bucket && disk.file.Length == chunkNum * chunkSize
             && s.data == Chunks(disk.file[..], chunkSize, chunkNum) && buff != disk.file && chunkSize > 0;
      ReadCases(s, sha1Val, len, offset);
      hide *;
      var hashKey := CalcHashKey(sha1Val);
      var writeChunkids, writeTotalLen, lastChunkWriteLen := GenerateReadChunkids(sha1Val, hashKey, s);
      if writeChunkids == [] {
        return Some(-1);
      }
      if offset > writeTotalLen {
        return Some(-1);
      }
      var firstReadIdx, skip := SplitOffset(offset);
      if firstReadIdx >= |writeChunkids| {
        return None;
      }
      var realReadLen := ReadPlanned(s, sha1Val, writeChunkids, lastChunkWriteLen, buff, len, offset);
      r := Some(realReadLen);
      ghost var b := ReadStep(s, sha1Val, len, offset).data;
      SpliceFront(before, b);
      assert before[|b|..] == old(buff[|b|..]);
    }

    method ReadPlanned(ghost s: Fs, ghost sha1Val: Digest, ids: seq<nat>, lastChunkWriteLen: nat, buff: array<byte>,
                       len: nat, offset: nat)
      returns (realReadLen: nat)
      requires buff != disk.file && disk.file.Length == chunkNum * chunkSize
      requires s.data == Chunks(disk.file[..], chunkSize, chunkNum) && s.chunkSize == chunkSize && len < TWO32
      requires Valid(s) && StartExists(s, sha1Val, offset) && offset <= |Content(s, sha1Val)|
      requires ids == FileIds(s, sha1Val) != [] && lastChunkWriteLen == LastLen(s, ids)
      requires ReadStep(s, sha1Val, len, offset).Bytes? && |ReadStep(s, sha1Val, len, offset).data| <= buff.Length
      modifies buff
      ensures realReadLen == |ReadStep(s, sha1Val, len, offset).data|
      ensures buff[..] == Splice(old(buff[..]), 0, ReadStep(s, sha1Val, len, offset).data)
    {
      StartInside(s, sha1Val, offset);
      ghost var first, skip := Quot(offset, chunkSize), Rem(offset, chunkSize);
      PlanInside(s, ids, len, first, skip);
      var readInfo := CalcReadVariable(ids, lastChunkWriteLen, len, offset);
      realReadLen := ReadPieces(readInfo, PlanFrom(chunkSize, ids, lastChunkWriteLen, len, first, skip), s, buff);
    }

    // ----- The interface, by file name ------------------------------------------------------------------

    /**
     Append to a file. Whatever the allocator hands out, every other file stays as it is. When it repeats no chunk, the
     call either appends exactly the buffer to this file or, when the chunks it needs are not left, changes nothing and
     returns -1.
     */
    method Write(fileName: seq<byte>, buff: array?<byte>, len: nat, draw: nat -> nat) returns (r: int)
      requires Ready() && Valid(Abs()) && |fileName| < 0x8000_0000
      requires buff != null ==> len <= buff.Length && Apart(buff)
      modifies metaPool, bitmap, bitmap.ptr, disk.file
      ensures Ready() && Valid(Abs())
      ensures buff == null ==> r == -1 && Abs() == old(Abs())
      ensures buff != null ==> (Abs(), r) == WriteStep(old(Abs()), Sha1(fileName), buff[..len], draw)
      ensures forall e :: e != Sha1(fileName) ==> Content(Abs(), e) == Content(old(Abs()), e)
      ensures buff != null && DistinctGrant(old(Abs()), Sha1(fileName), len, draw) ==>
                && WriteOutcome(old(Abs()), Abs(), r, Sha1(fileName), buff[..len])
                && (Counted(old(Abs())) ==> Counted(Abs())) && (Tidy(old(Abs())) ==> Tidy(Abs()))
    {
      hide WriteStep, WriteOutcome, Sha1Spec.Sha1, Counted, Valid, DistinctGrant, Content, Tidy;
      ghost var s := Abs();
      var sha1Val := CalcSha(fileName);
      r := WriteFile(sha1Val, buff, len, draw);
      if buff != null {
        WriteStepKeeps(s, Sha1(fileName), buff[..len], draw);
        WriteStepLeaves(s, Sha1(fileName), buff[..len], draw);
        if DistinctGrant(s, Sha1(fileName), len, draw) {
          WriteIsAppend(s, Sha1(fileName), buff[..len], draw);
        }
      }
    }

    /**
     Read from a file: exactly the requested slice, cut at the file's end, whenever the request is a faithful one; None
     exactly at the length of a file whose last chunk is full, where the code would index past the chunk list.
     */
    method Read(fileName: seq<byte>, buff: array?<byte>, len: nat, offset: nat) returns (r: Option<int>)
      requires Ready() && Valid(Abs()) && len < TWO32 && |fileName| < 0x8000_0000
      requires buff != null ==> len <= buff.Length && Apart(buff)
      modifies buff
      ensures r == Some(-1) <==>
                || buff == null || Content(Abs(), Sha1(fileName)) == []
                || offset > |Content(Abs(), Sha1(fileName))|
      ensures r == None <==>
                && buff != null && Content(Abs(), Sha1(fileName)) != []
                && offset == |Content(Abs(), Sha1(fileName))| && offset % chunkSize == 0
      ensures r in {None, Some(-1)} && buff != null ==> buff[..] == old(buff[..])
      ensures r !in {None, Some(-1)} && ReadIsFaithful(chunkSize, |Content(Abs(), Sha1(fileName))|, len, offset) ==>
                var b := Slice(Content(Abs(), Sha1(fileName)), len, offset);
                r == Some(|b|) && |b| <= buff.Length && buff[..] == b + old(buff[|b|..])
    {
      hide ReadStep, Slice, Sha1Spec.Sha1, Valid, StartExists, Content, ReadIsFaithful;
      ghost var s := Abs();
      var sha1Val := CalcSha(fileName);
      r := ReadFile(sha1Val, buff, len, offset);
      ReadOutcome(s, sha1Val, len, offset);
    }

    /** Opening an existing index again. */
    method Reload()
      requires Ready()
      modifies bitmap
      ensures Ready() && Abs() == old(Abs()).(count := 0)
    {
      bitmap.InitBitmap();
    }
  }

  /** A store none of whose records is in use, whatever its data file holds. */
  lemma UnusedIsValid(s: Fs)
    requires Shape(s) && s.have == {} && s.count == 0 && forall c | 0 <= c < |s.metas| :: !s.metas[c].isUsed
    ensures Valid(s) && Tidy(s) && Counted(s) && forall d :: Content(s, d) == []
  {
  }

  /** A write touches no file but its own, whatever is drawn. */
  lemma WriteStepLeaves(s: Fs, d: Digest, buf: seq<byte>, draw: nat -> nat)
    requires Valid(s)
    ensures Shape(WriteStep(s, d, buf, draw).0)
    ensures forall e :: e != d ==> Content(WriteStep(s, d, buf, draw).0, e) == Content(s, e)
  {
    assert Shape(s);
    hide Content, WriteTo, Valid, Granted;
    GrantIsUsable(s, d, |buf|, draw);
    forall e | e != d && Grant(s, d, |buf|, draw).Some?
      ensures Content(WriteStep(s, d, buf, draw).0, e) == Content(s, e)
    {
      WriteKeepsOthers(s, d, buf, Grant(s, d, |buf|, draw).value, e);
    }
  }

  /** The three outcomes of a read, told by the file's content. */
  lemma ReadOutcome(s: Fs, d: Digest, len: nat, offset: nat)
    requires Valid(s) && len < TWO32 && s.chunkSize <= TWO32
    ensures StartExists(s, d, offset) <==>
              Content(s, d) == [] || offset > |Content(s, d)| || offset < |Content(s, d)| || offset % s.chunkSize != 0
    ensures StartExists(s, d, offset) ==>
              (ReadStep(s, d, len, offset).Failed? <==> Content(s, d) == [] || offset > |Content(s, d)|)
    ensures StartExists(s, d, offset) && ReadStep(s, d, len, offset).Bytes? &&
            ReadIsFaithful(s.chunkSize, |Content(s, d)|, len, offset) ==>
              offset <= |Content(s, d)| && ReadStep(s, d, len, offset).data == Slice(Content(s, d), len, offset)
  {
    hide ReadStep, Slice, ReadIsFaithful, Content;
    FileLength(s, d);
    if FileIds(s, d) != [] {
      FileIsPackedFile(s, d);
      FileIsNotEmpty(s, d);
      if offset <= |Content(s, d)| {
        StartExactly(s, d, offset);
      }
    }
    if StartExists(s, d, offset) {
      ReadFails(s, d, len, offset);
      if ReadStep(s, d, len, offset).Bytes? {
        ReadExact(s, d, len, offset);
      }
    }
  }

  lemma FileIsNotEmpty(s: Fs, d: Digest)
    requires Valid(s) && FileIds(s, d) != []
    ensures Content(s, d) != []
  {
    FileIsPackedFile(s, d);
    RestNotEmpty(s, FileIds(s, d), 0);
    assert FileIds(s, d)[0..] == FileIds(s, d);
  }

  /** Where a chunk starts in the data file. */
  function CalcOffset(chunkSize: nat, chunkid: nat): nat {
    chunkid * chunkSize
  }

  /** The further pieces as pairs. */
  ghost function MoreOnDisk(chunkSize: nat, ids: seq<nat>, idx: nat, need: nat, remain: nat): (pairs: seq<(nat, nat)>)
    ensures need == 0 ==> pairs == []
  {
    OnDisk(chunkSize, MorePieces(chunkSize, ids, idx, need, remain))
  }

  /** The pair of the first chunk, and those of the further ones. */
  lemma PlanOnDisk(chunkSize: nat, ids: seq<nat>, lastLen: nat, len: nat, first: nat, skip: nat)
    requires chunkSize > 0 && first < |ids| && skip < chunkSize && (first + 1 == |ids| ==> skip <= lastLen)
    ensures var at, len1 := CalcOffset(chunkSize, ids[first]) + skip, Min(chunkSize - skip, len);
            OnDisk(chunkSize, PlanFrom(chunkSize, ids, lastLen, len, first, skip)) ==
            if first + 1 == |ids| then [(at, Min(lastLen - skip, len))]
            else [(at, len1)] + MoreOnDisk(chunkSize, ids, first + 1, FurtherChunks(chunkSize, len - len1), len - len1)
  {
    hide CalcOffset, FurtherChunks, MorePieces;
    var plan := PlanFrom(chunkSize, ids, lastLen, len, first, skip);
    var len1 := Min(chunkSize - skip, len);
    if first + 1 == |ids| {
      assert plan[1..] == [];
    } else {
      assert plan[1..] == MorePieces(chunkSize, ids, first + 1, FurtherChunks(chunkSize, len - len1), len - len1);
    }
  }

  lemma MoreStep(chunkSize: nat, ids: seq<nat>, idx: nat, need: nat, remain: nat, done: seq<(nat, nat)>)
    requires need > 0
    ensures var len := Min(chunkSize, remain);
            done + MoreOnDisk(chunkSize, ids, idx, need, remain) ==
            if idx >= |ids| then done
            else done + [(CalcOffset(chunkSize, ids[idx]), len)]
                 + MoreOnDisk(chunkSize, ids, idx + 1, need - 1, remain - len)
  {
    hide CalcOffset;
    if idx < |ids| {
      var len := Min(chunkSize, remain);
      assert MorePieces(chunkSize, ids, idx, need, remain)[1..] ==
             MorePieces(chunkSize, ids, idx + 1, need - 1, remain - len);
    }
  }

  lemma CollectStep(s: Fs, plan: seq<Piece>, i: nat, done: seq<byte>)
    requires i < |plan| && forall k | 0 <= k < |plan| :: Inside(s, plan[k])
    ensures Inside(s, plan[i])
    ensures var part := s.data[plan[i].chunk][plan[i].skip..plan[i].skip + plan[i].len];
            done + Collect(s, plan[i..]) == done + part + Collect(s, plan[i + 1..])
  {
    assert plan[i..][1..] == plan[i + 1..];
    var part := s.data[plan[i].chunk][plan[i].skip..plan[i].skip + plan[i].len];
    assert done + (part + Collect(s, plan[i + 1..])) == done + part + Collect(s, plan[i + 1..]);
  }

  lemma SpliceTwice(was: seq<byte>, a: seq<byte>, b: seq<byte>)
    requires |a| + |b| <= |was|
    ensures Splice(Splice(was, 0, a), |a|, b) == Splice(was, 0, a + b)
  {
  }

  /** The list that a used chunk lies on, and where. */
  lemma ListOf(s: Fs, c: nat) returns (list: seq<nat>, p: nat)
    requires Valid(s) && c < |s.metas| && s.metas[c].isUsed
    ensures Linked(s.metas, list) && p < |list| && list[p] == c
    ensures Chain(s.metas, c, |s.metas|) == list[p..]
  {
    list, p := Chain(s.metas, c, |s.metas|), 0;
    assert Ends(s.metas, c);
  }

  /** What the walk over `walked` has gathered: the file's chunks, its length, the fill of its last chunk. */
  ghost predicate Collected(s: Fs, walked: seq<nat>, d: Digest, ids: seq<nat>, total: nat, last: nat)
    requires Shape(s)
  {
    InRange(walked, |s.metas|) && ids == Owned(s.metas, walked, d) && total == |Gather(s, ids)|
        && last == LastLen(s, ids)
  }

  lemma CollectNext(s: Fs, list: seq<nat>, p: nat, i: nat, d: Digest, ids: seq<nat>, total: nat, last: nat)
    requires Shape(s) && InRange(list, |s.metas|) && p <= i < |list| && Collected(s, list[p..i], d, ids, total, last)
    ensures var c := list[i];
            var len := s.chunkSize - s.metas[c].idleLen;
            if s.metas[c].sha1 == d then Collected(s, list[p..i + 1], d, ids + [c], total + len, len)
            else Collected(s, list[p..i + 1], d, ids, total, last)
  {
    OwnedSnoc(s.metas, list, p, i, d);
    GatherSnoc(s, ids, list[i]);
  }

  /** The pieces as (offset, length) pairs in the data file. */
  function OnDisk(chunkSize: nat, plan: seq<Piece>): (pairs: seq<(nat, nat)>)
    ensures |pairs| == |plan|
  {
    if plan == [] then []
    else [(CalcOffset(chunkSize, plan[0].chunk) + plan[0].skip, plan[0].len)] + OnDisk(chunkSize, plan[1..])
  }

  lemma {:induction false} OnDiskAt(chunkSize: nat, plan: seq<Piece>, i: nat)
    requires i < |plan|
    ensures OnDisk(chunkSize, plan)[i] == (CalcOffset(chunkSize, plan[i].chunk) + plan[i].skip, plan[i].len)
  {
    if |plan| > 1 {
      OnDiskAt(chunkSize, plan[1..], if i > 0 then i - 1 else 0);
    }
  }

  lemma PieceOnDisk(d: seq<byte>, chunkSize: nat, n: nat, p: Piece)
    requires |d| == n * chunkSize && p.chunk < n && p.skip + p.len <= chunkSize
    ensures CalcOffset(chunkSize, p.chunk) + p.skip + p.len <= |d|
    ensures d[CalcOffset(chunkSize, p.chunk) + p.skip..CalcOffset(chunkSize, p.chunk) + p.skip + p.len] ==
            Chunks(d, chunkSize, n)[p.chunk][p.skip..p.skip + p.len]
  {
    hide Chunks, Shape, Inside;
    ChunkAt(d, chunkSize, n, p.chunk);
    SliceOfSlice(d, p.chunk * chunkSize, chunkSize, p.skip, p.len);
  }

  lemma SliceOfSlice<T>(d: seq<T>, at: nat, size: nat, skip: nat, len: nat)
    requires at + size <= |d| && skip + len <= size
    ensures d[at..at + size][skip..skip + len] == d[at + skip..at + skip + len]
  {
    var whole, part := d[at..at + size], d[at + skip..at + skip + len];
    forall k | 0 <= k < len
      ensures whole[skip..skip + len][k] == part[k]
    {
      assert whole[skip..skip + len][k] == whole[skip + k] == d[at + skip + k];
    }
  }

  lemma {:induction false} GatherSnoc(s: Fs, ids: seq<nat>, c: nat)
    requires Shape(s) && InRange(ids, |s.metas|) && c < |s.metas|
    ensures |Gather(s, ids + [c])| == |Gather(s, ids)| + |Written(s, c)|
  {
    GatherConcat(s, ids, [c]);
    assert [c][1..] == [];
  }

  lemma PlanCovers(s: Fs, d: Digest, len: nat)
    requires Shape(s)
    ensures var p := PlanFor(s, d, len);
            p.first <= len && Covers(s.chunkSize, p.need, len - p.first)
  {
    PlanBounds(s, d, len);
    var remain := len - PlanFor(s, d, len).first;
    RoundUpCovers(s.chunkSize, remain);
    PiecesIsDivRoundUp(remain, s.chunkSize);
  }

  lemma GrantFits(s: Fs, d: Digest, len: nat, draw: nat -> nat)
    requires Valid(s)
    ensures var g := Grant(s, d, len, draw);
            g.Some? ==> InRange(g.value, |s.metas|) && |g.value| == PlanFor(s, d, len).need
  {
    GrantIsUsable(s, d, len, draw);
  }

  lemma WriteStepIs(s: Fs, d: Digest, buf: seq<byte>, draw: nat -> nat)
    requires Valid(s)
    ensures var g := Grant(s, d, |buf|, draw);
            WriteStep(s, d, buf, draw) ==
            if g.Some? && InRange(g.value, |s.metas|) then (WriteTo(s, d, buf, g.value), |buf|) else (s, -1)
  {
    hide WriteTo;
    GrantInRange(s, d, |buf|, draw);
  }

  /** The cases that a read tells apart. */
  lemma ReadCases(s: Fs, d: Digest, len: nat, offset: nat)
    requires Valid(s)
    ensures StartExists(s, d, offset) <==>
            FileIds(s, d) == [] || offset > |Content(s, d)| || Quot(offset, s.chunkSize) < |FileIds(s, d)|
    ensures StartExists(s, d, offset) ==>
              var r := ReadStep(s, d, len, offset);
              && (r.Failed? <==> FileIds(s, d) == [] || offset > |Content(s, d)|)
              && (r.Bytes? ==> |r.data| <= len)
  {
    hide Content, FileIds, ReadFrom;
    if StartExists(s, d, offset) {
      ReadAtMost(s, d, len, offset);
    }
  }

  lemma SpliceFront(chunk: seq<byte>, part: seq<byte>)
    requires |part| <= |chunk|
    ensures Splice(chunk, 0, part) == part + chunk[|part|..]
  {
  }

  function LastOf(ids: seq<nat>): Option<nat> {
    if ids == [] then None else Some(ids[|ids| - 1])
  }

  lemma OwnedNothing(m: seq<MetaInfo>, list: seq<nat>, p: nat, d: Digest)
    requires InRange(list, |m|) && p <= |list|
    ensures LastOf(Owned(m, list[p..p], d)) == None
  {
    assert list[p..p] == [];
  }

  /** One step of the search along a list: the last of the file so far, and where the step leads. */
  lemma OwnedNext(m: seq<MetaInfo>, list: seq<nat>, p: nat, i: nat, d: Digest)
    requires Linked(m, list) && |m| <= INVALID_CHUNKID && p <= i < |list|
    ensures InRange(list, |m|) && m[list[i]].isUsed
    ensures LastOf(Owned(m, list[p..i + 1], d)) ==
            if m[list[i]].sha1 == d then Some(list[i]) else LastOf(Owned(m, list[p..i], d))
    ensures if i + 1 < |list| then m[list[i]].next == list[i + 1] != INVALID_CHUNKID
            else m[list[i]].next == INVALID_CHUNKID && list[p..i + 1] == list[p..]
  {
    hide Owned;
    assert LinkAt(m, list, i);
    OwnedSnoc(m, list, p, i, d);
  }

  lemma FileTailIs(s: Fs, list: seq<nat>, p: nat, d: Digest)
    requires Shape(s) && s.metas[s.bucket(d)].isUsed && p <= |list| && InRange(list, |s.metas|)
    requires Chain(s.metas, s.bucket(d), |s.metas|) == list[p..]
    ensures LastOf(Owned(s.metas, list[p..], d)) == FileTail(s, d)
  {
  }

  lemma OwnedSnoc(m: seq<MetaInfo>, list: seq<nat>, p: nat, i: nat, d: Digest)
    requires InRange(list, |m|) && p <= i < |list|
    ensures Owned(m, list[p..i + 1], d) == Owned(m, list[p..i], d) + if m[list[i]].sha1 == d then [list[i]] else []
  {
    assert list[p..i + 1] == list[p..i] + [list[i]];
    OwnedConcat(m, list[p..i], [list[i]], d);
    assert [list[i]][1..] == [];
  }

  lemma PutChunksStep(s: Fs, d: Digest, ids: seq<nat>, k: nat, buf: seq<byte>, from: nat, len: nat, last: nat)
    requires Shape(s) && InRange(ids, |s.metas|) && k < |ids| && last <= s.chunkSize
    requires from <= |buf| && len == Min(s.chunkSize, |buf| - from)
    ensures PutChunks(s, d, ids, k, buf[from..], last) ==
            PutChunks(PutFirst(s, d, ids, k, buf[from..], last), d, ids, k + 1, buf[from + len..], last)
  {
    assert buf[from..][len..] == buf[from + len..];
  }
}
