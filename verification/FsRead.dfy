/**
 Reading: the plan of (chunk, skip, length) pieces, and exactly when the bytes it collects are the
 requested slice of the file.
 */
module FsRead {
  import opened Common
  import opened FsModel
  import opened FsRefine

  // ----- The plan -------------------------------------------------------------------------------

  /** `len` bytes of a chunk, from `skip` on; on disk they start at chunk * chunkSize + skip. */
  datatype Piece = Piece(chunk: nat, skip: nat, len: nat)

  /** The pieces after the first one: whole chunks, the last one cut by what remains. */
  function MorePieces(chunkSize: nat, ids: seq<nat>, idx: nat, need: nat, remain: nat): seq<Piece>
    decreases need
  {
    if need == 0 || idx >= |ids| then []
    else
      var len := Min(chunkSize, remain);
      [Piece(ids[idx], 0, len)] + MorePieces(chunkSize, ids, idx + 1, need - 1, remain - len)
  }

  /** The number of further chunks, rounded up in 32 bits. */
  function FurtherChunks(chunkSize: nat, remain: nat): nat
    requires chunkSize > 0
  {
    Quot((remain + chunkSize - 1) % TWO32, chunkSize)
  }

  /** The plan of a read that begins `skip` bytes into the file's chunk number `first`. */
  function PlanFrom(chunkSize: nat, ids: seq<nat>, lastLen: nat, len: nat, first: nat, skip: nat): seq<Piece>
    requires chunkSize > 0 && first < |ids| && skip < chunkSize && (first + 1 == |ids| ==> skip <= lastLen)
  {
    if first + 1 == |ids| then [Piece(ids[first], skip, Min(lastLen - skip, len))]
    else
      var len1 := Min(chunkSize - skip, len);
      [Piece(ids[first], skip, len1)]
      + MorePieces(chunkSize, ids, first + 1, FurtherChunks(chunkSize, len - len1), len - len1)
  }

  /** A piece stays inside its chunk. */
  predicate Inside(s: Fs, p: Piece) {
    p.chunk < |s.data| && p.skip + p.len <= s.chunkSize == |s.data[p.chunk]|
  }

  function Collect(s: Fs, plan: seq<Piece>): seq<byte>
    requires forall i | 0 <= i < |plan| :: Inside(s, plan[i])
  {
    if plan == [] then []
    else
      assert Inside(s, plan[0]);
      s.data[plan[0].chunk][plan[0].skip..plan[0].skip + plan[0].len] + Collect(s, plan[1..])
  }

  lemma CollectOne(s: Fs, p: Piece)
    requires Inside(s, p)
    ensures Collect(s, [p]) == s.data[p.chunk][p.skip..p.skip + p.len]
  {
  }

  lemma {:induction false} MoreInside(s: Fs, ids: seq<nat>, idx: nat, need: nat, remain: nat)
    requires Shape(s) && InRange(ids, |s.metas|)
    ensures forall i | 0 <= i < |MorePieces(s.chunkSize, ids, idx, need, remain)| ::
              Inside(s, MorePieces(s.chunkSize, ids, idx, need, remain)[i])
    decreases need
  {
    if need > 0 && idx < |ids| {
      MoreInside(s, ids, idx + 1, need - 1, remain - Min(s.chunkSize, remain));
    }
  }

  /** `need` chunks are just enough for `remain` bytes. */
  predicate Covers(chunkSize: nat, need: nat, remain: nat) {
    if need == 0 then remain == 0
    else if need == 1 then 0 < remain <= chunkSize
    else remain > chunkSize && Covers(chunkSize, need - 1, remain - chunkSize)
  }

  lemma CoversStep(chunkSize: nat, need: nat, remain: nat)
    requires need > 0 && Covers(chunkSize, need, remain)
    ensures Covers(chunkSize, need - 1, remain - Min(chunkSize, remain))
  {
  }

  lemma {:induction false} RoundUpCovers(chunkSize: nat, remain: nat)
    requires chunkSize > 0
    ensures Covers(chunkSize, Quot(remain + chunkSize - 1, chunkSize), remain)
    decreases remain
  {
    if remain > chunkSize {
      RoundUpCovers(chunkSize, remain - chunkSize);
      assert Quot(remain - 1, chunkSize) == 1 + Quot(remain - 1 - chunkSize, chunkSize);
    } else if remain > 0 {
      assert Quot(remain - 1, chunkSize) == 0;
    }
  }

  // ----- The pieces after the first ---------------------------------------------------------------

  /** Every chunk of the file but the last one is full, and the last one is not empty. */
  ghost predicate PackedFile(s: Fs, ids: seq<nat>) {
    && Shape(s) && InRange(ids, |s.metas|) && ids != []
    && (forall i | 0 <= i < |ids| - 1 :: s.metas[ids[i]].idleLen == 0)
    && s.metas[ids[|ids| - 1]].idleLen < s.chunkSize
  }

  ghost function CollectMore(s: Fs, ids: seq<nat>, idx: nat, need: nat, remain: nat): seq<byte>
    requires Shape(s) && InRange(ids, |s.metas|)
  {
    MoreInside(s, ids, idx, need, remain);
    Collect(s, MorePieces(s.chunkSize, ids, idx, need, remain))
  }

  lemma CollectMoreStep(s: Fs, ids: seq<nat>, idx: nat, need: nat, remain: nat)
    requires Shape(s) && InRange(ids, |s.metas|) && need > 0 && idx < |ids|
    ensures var len := Min(s.chunkSize, remain);
            CollectMore(s, ids, idx, need, remain) ==
            s.data[ids[idx]][..len] + CollectMore(s, ids, idx + 1, need - 1, remain - len)
  {
    var len := Min(s.chunkSize, remain);
    MoreInside(s, ids, idx, need, remain);
    var plan := MorePieces(s.chunkSize, ids, idx, need, remain);
    assert plan[1..] == MorePieces(s.chunkSize, ids, idx + 1, need - 1, remain - len);
  }

  /** Inside the file the further pieces are the next `remain` bytes of it. */
  lemma {:induction false} MoreIsPrefix(s: Fs, ids: seq<nat>, idx: nat, need: nat, remain: nat)
    requires PackedFile(s, ids) && idx < |ids|
    requires remain <= |Gather(s, ids[idx..])| && Covers(s.chunkSize, need, remain)
    ensures CollectMore(s, ids, idx, need, remain) == Gather(s, ids[idx..])[..remain]
    decreases need
  {
    if need > 0 {
      CollectMoreStep(s, ids, idx, need, remain);
      assert ids[idx..][1..] == ids[idx + 1..];
      if need == 1 {
        assert CollectMore(s, ids, idx + 1, 0, 0) == [];
      } else {
        assert idx < |ids| - 1;
        MoreIsPrefix(s, ids, idx + 1, need - 1, remain - s.chunkSize);
      }
    }
  }

  /** Past the end the last chunk is read to its own end, written or not. */
  lemma {:induction false} MoreOverruns(s: Fs, ids: seq<nat>, idx: nat, need: nat, remain: nat)
    requires PackedFile(s, ids) && idx < |ids|
    requires remain > |Gather(s, ids[idx..])| && Covers(s.chunkSize, need, remain)
    ensures s.metas[ids[|ids| - 1]].idleLen == 0 ==> CollectMore(s, ids, idx, need, remain) == Gather(s, ids[idx..])
    ensures s.metas[ids[|ids| - 1]].idleLen > 0 ==> |CollectMore(s, ids, idx, need, remain)| > |Gather(s, ids[idx..])|
    decreases need
  {
    CollectMoreStep(s, ids, idx, need, remain);
    assert ids[idx..][1..] == ids[idx + 1..];
    if idx == |ids| - 1 {
      assert CollectMore(s, ids, idx + 1, need - 1, remain - Min(s.chunkSize, remain)) == [];
    } else {
      assert Written(s, ids[idx]) == s.data[ids[idx]];
      MoreOverruns(s, ids, idx + 1, need - 1, remain - s.chunkSize);
    }
  }

  // ----- A whole read -------------------------------------------------------------------------------

  datatype ReadResult = Failed | Bytes(data: seq<byte>)

  ghost function LastLen(s: Fs, ids: seq<nat>): nat
    requires Shape(s) && InRange(ids, |s.metas|)
  {
    if ids == [] then 0 else |Written(s, ids[|ids| - 1])|
  }

  /**
   The chunk that a read starts in exists.  The one accepted offset for which it does not is the
   length of a file whose last chunk is full; the chunk list is then indexed past its end.
   */
  ghost predicate StartExists(s: Fs, d: Digest, offset: nat)
    requires Shape(s)
  {
    FileIds(s, d) != [] && offset <= |Content(s, d)| ==> Quot(offset, s.chunkSize) < |FileIds(s, d)|
  }

  ghost function ReadFrom(s: Fs, ids: seq<nat>, len: nat, first: nat, skip: nat): seq<byte>
    requires Shape(s) && InRange(ids, |s.metas|) && first < |ids| && skip < s.chunkSize
    requires first + 1 == |ids| ==> skip <= LastLen(s, ids)
  {
    PlanInside(s, ids, len, first, skip);
    Collect(s, PlanFrom(s.chunkSize, ids, LastLen(s, ids), len, first, skip))
  }

  lemma PlanInside(s: Fs, ids: seq<nat>, len: nat, first: nat, skip: nat)
    requires Shape(s) && InRange(ids, |s.metas|) && first < |ids| && skip < s.chunkSize
    requires first + 1 == |ids| ==> skip <= LastLen(s, ids)
    ensures forall i | 0 <= i < |PlanFrom(s.chunkSize, ids, LastLen(s, ids), len, first, skip)| ::
              Inside(s, PlanFrom(s.chunkSize, ids, LastLen(s, ids), len, first, skip)[i])
  {
    var remain := len - Min(s.chunkSize - skip, len);
    MoreInside(s, ids, first + 1, FurtherChunks(s.chunkSize, remain), remain);
  }

  lemma FileIsPackedFile(s: Fs, d: Digest)
    requires Valid(s) && FileIds(s, d) != []
    ensures PackedFile(s, FileIds(s, d))
  {
    FileLength(s, d);
    assert Packed(s, d);
  }

  /** The file from `offset` on lies in the chunk that the offset falls in and the ones after it. */
  lemma {:induction false} GatherFromOffset(s: Fs, ids: seq<nat>, offset: nat)
    requires PackedFile(s, ids) && offset <= |Gather(s, ids)| && Quot(offset, s.chunkSize) < |ids|
    ensures var rest := Gather(s, ids[Quot(offset, s.chunkSize)..]);
            Rem(offset, s.chunkSize) <= |rest| && Gather(s, ids)[offset..] == rest[Rem(offset, s.chunkSize)..]
    decreases offset
  {
    if offset < s.chunkSize {
      assert ids[0..] == ids;
    } else {
      assert |ids| > 1;
      GatherFromOffset(s, ids[1..], offset - s.chunkSize);
      assert InRange(ids, |s.metas|) && Shape(s) && InRange(ids[1..], |s.metas|);
      hide PackedFile, Written, Shape, InRange;
      assert ids[1..][Quot(offset, s.chunkSize) - 1..] == ids[Quot(offset, s.chunkSize)..];
      assert Gather(s, ids) == Written(s, ids[0]) + Gather(s, ids[1..]);
      DropTwice(Gather(s, ids), s.chunkSize, offset - s.chunkSize);
    }
  }

  lemma DropTwice<T>(s: seq<T>, a: nat, b: nat)
    requires a + b <= |s|
    ensures s[a + b..] == s[a..][b..]
  {
  }

  ghost function ReadStep(s: Fs, d: Digest, len: nat, offset: nat): ReadResult
    requires Valid(s) && StartExists(s, d, offset)
  {
    var ids := FileIds(s, d);
    if ids == [] || offset > |Content(s, d)| then Failed
    else
      StartInside(s, d, offset);
      Bytes(ReadFrom(s, ids, len, Quot(offset, s.chunkSize), Rem(offset, s.chunkSize)))
  }

  lemma StartInside(s: Fs, d: Digest, offset: nat)
    requires Valid(s) && StartExists(s, d, offset) && FileIds(s, d) != [] && offset <= |Content(s, d)|
    ensures Quot(offset, s.chunkSize) + 1 == |FileIds(s, d)| ==> Rem(offset, s.chunkSize) <= LastLen(s, FileIds(s, d))
  {
    FileIsPackedFile(s, d);
    GatherFromOffset(s, FileIds(s, d), offset);
    LastOnly(s, FileIds(s, d));
  }

  lemma LastOnly(s: Fs, ids: seq<nat>)
    requires Shape(s) && InRange(ids, |s.metas|) && ids != []
    ensures Gather(s, ids[|ids| - 1..]) == Written(s, ids[|ids| - 1])
  {
    assert ids[|ids| - 1..] == [ids[|ids| - 1]];
    assert ids[|ids| - 1..][1..] == [];
  }

  /** What was asked for, cut at the end of the file. */
  function Slice(content: seq<byte>, len: nat, offset: nat): seq<byte>
    requires offset <= |content|
  {
    content[offset..Min(offset + len, |content|)]
  }

  lemma SliceIsTake(content: seq<byte>, len: nat, offset: nat)
    requires offset <= |content|
    ensures Slice(content, len, offset) == content[offset..][..Min(len, |content| - offset)]
  {
  }

  lemma WrittenPart(s: Fs, c: nat, skip: nat, got: nat)
    requires Shape(s) && c < |s.metas| && skip + got <= |Written(s, c)|
    ensures skip + got <= |s.data[c]| && s.data[c][skip..skip + got] == Written(s, c)[skip..][..got]
  {
    var w := Written(s, c);
    forall k | 0 <= k < got
      ensures s.data[c][skip..skip + got][k] == w[skip..][..got][k]
    {
      assert w[skip..][..got][k] == w[skip + k] == s.data[c][skip + k];
    }
  }

  // ----- What the plan covers -----------------------------------------------------------------------

  /** A piece stays inside what has been written of its chunk. */
  predicate Within(s: Fs, p: Piece) {
    && p.chunk < |s.metas| == |s.data| && s.metas[p.chunk].idleLen <= s.chunkSize == |s.data[p.chunk]|
    && p.skip + p.len <= |Written(s, p.chunk)|
  }

  function TotalLen(plan: seq<Piece>): nat {
    if plan == [] then 0 else plan[0].len + TotalLen(plan[1..])
  }

  /** The pieces of `plan` take one chunk of the file each, from number `first` on in order, and `len` written bytes. */
  ghost predicate CoversRange(s: Fs, ids: seq<nat>, plan: seq<Piece>, first: nat, len: nat) {
    && first + |plan| <= |ids|
    && (forall i | 0 <= i < |plan| :: Within(s, plan[i]) && plan[i].chunk == ids[first + i])
    && TotalLen(plan) == len
  }

  lemma CoversCons(s: Fs, ids: seq<nat>, p: Piece, rest: seq<Piece>, first: nat, len: nat)
    requires first < |ids| && Within(s, p) && p.chunk == ids[first] && CoversRange(s, ids, rest, first + 1, len)
    ensures CoversRange(s, ids, [p] + rest, first, p.len + len)
  {
    assert ([p] + rest)[1..] == rest;
  }

  lemma {:induction false} MoreCovers(s: Fs, ids: seq<nat>, idx: nat, need: nat, remain: nat)
    requires PackedFile(s, ids) && idx <= |ids|
    requires remain <= |Gather(s, ids[idx..])| && Covers(s.chunkSize, need, remain)
    ensures CoversRange(s, ids, MorePieces(s.chunkSize, ids, idx, need, remain), idx, remain)
    decreases need
  {
    if need == 0 {
      assert MorePieces(s.chunkSize, ids, idx, need, remain) == [];
    } else {
      var len := Min(s.chunkSize, remain);
      var p, rest := Piece(ids[idx], 0, len), MorePieces(s.chunkSize, ids, idx + 1, need - 1, remain - len);
      MoreFirst(s, ids, idx, need, remain);
      assert MorePieces(s.chunkSize, ids, idx, need, remain) == [p] + rest;
      hide Gather, CoversRange, Covers, Within, MorePieces, PackedFile;
      MoreCovers(s, ids, idx + 1, need - 1, remain - len);
      CoversCons(s, ids, p, rest, idx, remain - len);
    }
  }

  /** The first of the further pieces is written, and the rest of the file holds what remains. */
  lemma MoreFirst(s: Fs, ids: seq<nat>, idx: nat, need: nat, remain: nat)
    requires PackedFile(s, ids) && idx <= |ids| && need > 0
    requires remain <= |Gather(s, ids[idx..])| && Covers(s.chunkSize, need, remain)
    ensures idx < |ids|
    ensures var len := Min(s.chunkSize, remain);
            && Within(s, Piece(ids[idx], 0, len))
            && remain - len <= |Gather(s, ids[idx + 1..])| && Covers(s.chunkSize, need - 1, remain - len)
  {
    CoversStep(s.chunkSize, need, remain);
    assert idx < |ids|;
    assert ids[idx..][1..] == ids[idx + 1..];
    if idx == |ids| - 1 {
      assert Gather(s, ids[idx + 1..]) == [];
    }
  }

  lemma LastCovers(s: Fs, ids: seq<nat>, len: nat, skip: nat)
    requires PackedFile(s, ids) && skip < s.chunkSize && skip + len <= |Gather(s, ids[|ids| - 1..])|
    ensures skip <= LastLen(s, ids)
    ensures CoversRange(s, ids, PlanFrom(s.chunkSize, ids, LastLen(s, ids), len, |ids| - 1, skip), |ids| - 1, len)
  {
    LastOnly(s, ids);
    var p := Piece(ids[|ids| - 1], skip, len);
    assert Within(s, p) && CoversRange(s, ids, [], |ids|, 0);
    hide Gather, PackedFile, CoversRange, Within;
    CoversCons(s, ids, p, [], |ids| - 1, 0);
    assert [p] + [] == [p];
  }

  lemma FirstCovers(s: Fs, ids: seq<nat>, len: nat, first: nat, skip: nat)
    requires PackedFile(s, ids) && first + 1 < |ids| && skip < s.chunkSize
    requires skip + len <= |Gather(s, ids[first..])|
    requires len - Min(s.chunkSize - skip, len) + s.chunkSize - 1 < TWO32
    ensures CoversRange(s, ids, PlanFrom(s.chunkSize, ids, LastLen(s, ids), len, first, skip), first, len)
  {
    var len1 := Min(s.chunkSize - skip, len);
    var remain := len - len1;
    var need := FurtherChunks(s.chunkSize, remain);
    assert ids[first..][1..] == ids[first + 1..];
    assert Gather(s, ids[first..]) == Written(s, ids[first]) + Gather(s, ids[first + 1..]);
    assert Within(s, Piece(ids[first], skip, len1));
    hide Gather, CoversRange, Covers, Within, MorePieces, PackedFile;
    FurtherIsNeeded(s.chunkSize, remain);
    RoundUpCovers(s.chunkSize, remain);
    MoreCovers(s, ids, first + 1, need, remain);
    CoversCons(s, ids, Piece(ids[first], skip, len1), MorePieces(s.chunkSize, ids, first + 1, need, remain), first,
        remain);
  }

  /** For a request inside the file whose round-up does not wrap, the plan is exactly the requested range. */
  lemma PlanIsRange(s: Fs, ids: seq<nat>, len: nat, offset: nat)
    requires PackedFile(s, ids) && offset + len <= |Gather(s, ids)| && Quot(offset, s.chunkSize) < |ids|
    requires len - Min(s.chunkSize - Rem(offset, s.chunkSize), len) + s.chunkSize - 1 < TWO32
    ensures var first, skip := Quot(offset, s.chunkSize), Rem(offset, s.chunkSize);
            && (first + 1 == |ids| ==> skip <= LastLen(s, ids))
            && CoversRange(s, ids, PlanFrom(s.chunkSize, ids, LastLen(s, ids), len, first, skip), first, len)
  {
    hide CoversRange, PlanFrom, LastLen;
    GatherFromOffset(s, ids, offset);
    if Quot(offset, s.chunkSize) + 1 == |ids| {
      LastCovers(s, ids, len, Rem(offset, s.chunkSize));
    } else {
      FirstCovers(s, ids, len, Quot(offset, s.chunkSize), Rem(offset, s.chunkSize));
    }
  }

  /** A read that begins in the last chunk is cut at the end of the file. */
  lemma LastChunkRead(s: Fs, ids: seq<nat>, len: nat, offset: nat)
    requires PackedFile(s, ids) && offset <= |Gather(s, ids)| && Quot(offset, s.chunkSize) == |ids| - 1
    ensures Rem(offset, s.chunkSize) <= LastLen(s, ids)
    ensures ReadFrom(s, ids, len, |ids| - 1, Rem(offset, s.chunkSize)) == Slice(Gather(s, ids), len, offset)
  {
    hide Gather, PackedFile, Slice, Written, ReadFrom, LastLen, Shape, Rem, Quot;
    LastLenOf(s, ids);
    QuotRem(offset, s.chunkSize);
    GatherFromOffset(s, ids, offset);
    LastOnly(s, ids);
    var last, skip := ids[|ids| - 1], Rem(offset, s.chunkSize);
    SliceIsTake(Gather(s, ids), len, offset);
    assert |Gather(s, ids)[offset..]| == LastLen(s, ids) - skip;
    LastPiece(s, ids, len, skip);
    WrittenPart(s, last, skip, Min(LastLen(s, ids) - skip, len));
  }

  lemma LastLenOf(s: Fs, ids: seq<nat>)
    requires PackedFile(s, ids)
    ensures Shape(s) && s.chunkSize > 0 && InRange(ids, |s.metas|) && ids != []
    ensures LastLen(s, ids) == |Written(s, ids[|ids| - 1])|
  {
  }

  /** The plan of a read that begins in the last chunk is one piece. */
  lemma LastPiece(s: Fs, ids: seq<nat>, len: nat, skip: nat)
    requires PackedFile(s, ids) && skip < s.chunkSize && skip <= LastLen(s, ids)
    ensures var got, last := Min(LastLen(s, ids) - skip, len), ids[|ids| - 1];
            skip + got <= |s.data[last]| && ReadFrom(s, ids, len, |ids| - 1, skip) == s.data[last][skip..skip + got]
  {
    CollectOne(s, Piece(ids[|ids| - 1], skip, Min(LastLen(s, ids) - skip, len)));
  }

  lemma DropAcross<T>(a: seq<T>, b: seq<T>, k: nat)
    requires k <= |a|
    ensures (a + b)[k..] == a[k..] + b
  {
  }

  /** A read that begins in a full chunk: the rest of it, then the further chunks. */
  lemma FullChunkRead(s: Fs, ids: seq<nat>, offset: nat, first: nat)
    requires PackedFile(s, ids) && offset <= |Gather(s, ids)| && first == Quot(offset, s.chunkSize) < |ids| - 1
    ensures Gather(s, ids)[offset..] == s.data[ids[first]][Rem(offset, s.chunkSize)..] + Gather(s, ids[first + 1..])
  {
    GatherFromOffset(s, ids, offset);
    var chunk, rest := s.data[ids[first]], Gather(s, ids[first + 1..]);
    assert ids[first..][1..] == ids[first + 1..];
    assert Written(s, ids[first]) == chunk;
    assert Gather(s, ids[first..]) == chunk + rest;
    QuotRem(offset, s.chunkSize);
    assert Rem(offset, s.chunkSize) <= |chunk|;
    hide *;
    DropAcross(chunk, rest, Rem(offset, s.chunkSize));
  }

  /** The further pieces are the wanted bytes of the further chunks. */
  lemma FurtherBytes(s: Fs, ids: seq<nat>, idx: nat, remain: nat)
    requires PackedFile(s, ids) && idx < |ids| && remain < TWO32 && s.chunkSize <= TWO32
    ensures var rest := Gather(s, ids[idx..]);
            CollectMore(s, ids, idx, FurtherChunks(s.chunkSize, remain), remain) == rest[..Min(remain, |rest|)] <==>
            remain + s.chunkSize - 1 < TWO32 && (remain <= |rest| || s.metas[ids[|ids| - 1]].idleLen == 0)
  {
    var need, rest := FurtherChunks(s.chunkSize, remain), Gather(s, ids[idx..]);
    FurtherIsNeeded(s.chunkSize, remain);
    RoundUpCovers(s.chunkSize, remain);
    if remain + s.chunkSize - 1 >= TWO32 {
      RestNotEmpty(s, ids, idx);
      assert CollectMore(s, ids, idx, 0, remain) == [];
    } else if remain <= |rest| {
      MoreIsPrefix(s, ids, idx, need, remain);
    } else {
      MoreOverruns(s, ids, idx, need, remain);
    }
  }

  /** Bytes taken from a + rest: the front ones from a, the others from rest. */
  lemma TakeAcross<T>(a: seq<T>, rest: seq<T>, len: nat, more: seq<T>)
    ensures var len1 := Min(|a|, len);
            var remain := len - len1;
            a[..len1] + more == (a + rest)[..Min(len, |a| + |rest|)] <==> more == rest[..Min(remain, |rest|)]
  {
    var len1 := Min(|a|, len);
    var remain := len - len1;
    assert (a + rest)[..Min(len, |a| + |rest|)] == a[..len1] + rest[..Min(remain, |rest|)];
    if a[..len1] + more == a[..len1] + rest[..Min(remain, |rest|)] {
      assert more == (a[..len1] + more)[len1..];
    }
  }

  /** A slice that starts in `a` and runs on into `rest`. */
  lemma SliceAcross(content: seq<byte>, len: nat, offset: nat, a: seq<byte>, rest: seq<byte>, more: seq<byte>)
    requires offset <= |content| && content[offset..] == a + rest
    ensures var remain := len - Min(|a|, len);
            && (remain <= |rest| <==> offset + len <= |content|)
            && (a[..Min(|a|, len)] + more == Slice(content, len, offset) <==> more == rest[..Min(remain, |rest|)])
  {
    SliceIsTake(content, len, offset);
    TakeAcross(a, rest, len, more);
    assert |content[offset..]| == |a| + |rest|;
  }

  lemma ReadFromParts(s: Fs, ids: seq<nat>, len: nat, first: nat, skip: nat)
    requires Shape(s) && InRange(ids, |s.metas|) && first + 1 < |ids| && skip < s.chunkSize
    ensures var len1 := Min(s.chunkSize - skip, len);
            ReadFrom(s, ids, len, first, skip) ==
            s.data[ids[first]][skip..][..len1]
            + CollectMore(s, ids, first + 1, FurtherChunks(s.chunkSize, len - len1), len - len1)
  {
    PlanInside(s, ids, len, first, skip);
    var plan := PlanFrom(s.chunkSize, ids, LastLen(s, ids), len, first, skip);
    var len1 := Min(s.chunkSize - skip, len);
    assert plan[1..] == MorePieces(s.chunkSize, ids, first + 1, FurtherChunks(s.chunkSize, len - len1), len - len1);
    assert s.data[ids[first]][skip..][..len1] == s.data[ids[first]][skip..skip + len1];
  }

  lemma {:induction false} MoreAtMost(s: Fs, ids: seq<nat>, idx: nat, need: nat, remain: nat)
    requires Shape(s) && InRange(ids, |s.metas|)
    ensures |CollectMore(s, ids, idx, need, remain)| <= remain
    decreases need
  {
    if need > 0 && idx < |ids| {
      CollectMoreStep(s, ids, idx, need, remain);
      MoreAtMost(s, ids, idx + 1, need - 1, remain - Min(s.chunkSize, remain));
    }
  }

  lemma ReadStepIs(s: Fs, d: Digest, len: nat, offset: nat)
    requires Valid(s) && StartExists(s, d, offset)
    requires ReadStep(s, d, len, offset).Bytes?
    ensures Shape(s) && s.chunkSize > 0
    ensures var ids, first, skip := FileIds(s, d), Quot(offset, s.chunkSize), Rem(offset, s.chunkSize);
            && offset <= |Content(s, d)| && Content(s, d) == Gather(s, ids)
            && PackedFile(s, ids) && first < |ids| && skip < s.chunkSize
            && (first + 1 == |ids| ==> skip <= LastLen(s, ids))
            && ReadStep(s, d, len, offset) == Bytes(ReadFrom(s, ids, len, first, skip))
  {
    hide PackedFile, FileIds, Quot, Rem, Gather, ReadFrom, LastLen;
    FileIsPackedFile(s, d);
    StartInside(s, d, offset);
    QuotRem(offset, s.chunkSize);
  }

  lemma ReadFromAtMost(s: Fs, ids: seq<nat>, len: nat, first: nat, skip: nat)
    requires PackedFile(s, ids) && first < |ids| && skip < s.chunkSize
    requires first + 1 == |ids| ==> skip <= LastLen(s, ids)
    ensures |ReadFrom(s, ids, len, first, skip)| <= len
  {
    hide ReadFrom, CollectMore, LastLen, FurtherChunks;
    if first + 1 == |ids| {
      LastPiece(s, ids, len, skip);
    } else {
      var len1 := Min(s.chunkSize - skip, len);
      ReadFromParts(s, ids, len, first, skip);
      MoreAtMost(s, ids, first + 1, FurtherChunks(s.chunkSize, len - len1), len - len1);
    }
  }

  /** A read never yields more than was asked for, so it stays inside the caller's buffer. */
  lemma ReadAtMost(s: Fs, d: Digest, len: nat, offset: nat)
    requires Valid(s) && StartExists(s, d, offset)
    ensures ReadStep(s, d, len, offset).Bytes? ==> |ReadStep(s, d, len, offset).data| <= len
  {
    hide *;
    if ReadStep(s, d, len, offset).Bytes? {
      ReadStepIs(s, d, len, offset);
      ReadFromAtMost(s, FileIds(s, d), len, Quot(offset, s.chunkSize), Rem(offset, s.chunkSize));
    }
  }

  lemma {:induction false} QuotBelow(x: nat, n: nat, k: nat)
    requires n > 0
    ensures Quot(x, n) < k <==> x < k * n
    decreases k
  {
    if k > 0 {
      assert k * n == (k - 1) * n + n;
      if x >= n {
        QuotBelow(x - n, n, k - 1);
      } else {
        MulPositive(k, n);
      }
    }
  }

  /** The chunk list is indexed past its end exactly at the length of a file whose last chunk is full. */
  lemma StartExactly(s: Fs, d: Digest, offset: nat)
    requires Valid(s) && FileIds(s, d) != [] && offset <= |Content(s, d)|
    ensures StartExists(s, d, offset) <==> offset < |Content(s, d)| || |Content(s, d)| % s.chunkSize != 0
  {
    var ids, n, length := FileIds(s, d), s.chunkSize, |Content(s, d)|;
    FileIsPackedFile(s, d);
    PackedSize(s, ids);
    FileLength(s, d);
    QuotRem(length, n);
    QuotBelow(offset, n, |ids|);
    assert |ids| * n == (|ids| - 1) * n + n;
  }

  lemma RestNotEmpty(s: Fs, ids: seq<nat>, idx: nat)
    requires PackedFile(s, ids) && idx < |ids|
    ensures Gather(s, ids[idx..]) != []
  {
    assert Gather(s, ids[idx..]) == Written(s, ids[idx]) + Gather(s, ids[idx..][1..]);
  }

  /** A remainder too long for the 32-bit round-up is taken for none at all. */
  lemma FurtherIsNeeded(chunkSize: nat, remain: nat)
    requires 0 < chunkSize && remain < TWO32 && chunkSize <= TWO32
    ensures FurtherChunks(chunkSize, remain) ==
            if remain + chunkSize - 1 < TWO32 then Quot(remain + chunkSize - 1, chunkSize) else 0
  {
  }

  /** The size of a packed file tells how many chunks it has and whether its last one is full. */
  lemma {:induction false} PackedSize(s: Fs, ids: seq<nat>)
    requires PackedFile(s, ids)
    ensures |ids| == Quot(|Gather(s, ids)| + s.chunkSize - 1, s.chunkSize)
    ensures s.metas[ids[|ids| - 1]].idleLen == 0 <==> Rem(|Gather(s, ids)|, s.chunkSize) == 0
  {
    if |ids| == 1 {
      assert Gather(s, ids[1..]) == [];
    } else {
      PackedSize(s, ids[1..]);
    }
  }

  /** Exactly when the bytes read from a full chunk on are the requested ones. */
  lemma FullStartExact(s: Fs, ids: seq<nat>, len: nat, offset: nat, first: nat, skip: nat)
    requires PackedFile(s, ids) && first + 1 < |ids| && offset <= |Gather(s, ids)| && len < TWO32
    requires skip < s.chunkSize <= TWO32
    requires Gather(s, ids)[offset..] == s.data[ids[first]][skip..] + Gather(s, ids[first + 1..])
    ensures ReadFrom(s, ids, len, first, skip) == Slice(Gather(s, ids), len, offset) <==>
            && len - Min(s.chunkSize - skip, len) + s.chunkSize - 1 < TWO32
            && (offset + len <= |Gather(s, ids)| || s.metas[ids[|ids| - 1]].idleLen == 0)
  {
    hide Gather, ReadFrom, Slice, CollectMore, FurtherChunks;
    var remain := len - Min(s.chunkSize - skip, len);
    var more := CollectMore(s, ids, first + 1, FurtherChunks(s.chunkSize, remain), remain);
    ReadFromParts(s, ids, len, first, skip);
    SliceAcross(Gather(s, ids), len, offset, s.data[ids[first]][skip..], Gather(s, ids[first + 1..]), more);
    FurtherBytes(s, ids, first + 1, remain);
  }

  /** A read fails exactly when the file is not there or the offset lies beyond its end. */
  lemma ReadFails(s: Fs, d: Digest, len: nat, offset: nat)
    requires Valid(s) && StartExists(s, d, offset)
    ensures ReadStep(s, d, len, offset).Failed? <==> Content(s, d) == [] || offset > |Content(s, d)|
  {
    if FileIds(s, d) != [] {
      FileIsPackedFile(s, d);
      RestNotEmpty(s, FileIds(s, d), 0);
      assert FileIds(s, d)[0..] == FileIds(s, d);
    }
  }

  /**
   When the returned bytes are the requested slice, cut at the end of the file: the read begins in
   the last chunk, or the 32-bit round-up of what is left does not wrap and the read either ends
   inside the file or the file ends with a full chunk.
   */
  predicate ReadIsFaithful(chunkSize: nat, fileLen: nat, len: nat, offset: nat)
    requires chunkSize > 0
  {
    var len1 := Min(chunkSize - offset % chunkSize, len);
    || offset / chunkSize + 1 == DivRoundUp(fileLen, chunkSize)
    || (len - len1 + chunkSize - 1 < TWO32 && (offset + len <= fileLen || fileLen % chunkSize == 0))
  }

  /** Exactly when the bytes read at `offset` are the requested ones. */
  lemma ReadFromExact(s: Fs, ids: seq<nat>, len: nat, offset: nat, first: nat, skip: nat)
    requires PackedFile(s, ids) && offset <= |Gather(s, ids)| && len < TWO32 && s.chunkSize <= TWO32
    requires first == Quot(offset, s.chunkSize) < |ids| && skip == Rem(offset, s.chunkSize)
    ensures first + 1 == |ids| ==> skip <= LastLen(s, ids)
    ensures ReadFrom(s, ids, len, first, skip) == Slice(Gather(s, ids), len, offset) <==>
            || first + 1 == Quot(|Gather(s, ids)| + s.chunkSize - 1, s.chunkSize)
            || (len - Min(s.chunkSize - skip, len) + s.chunkSize - 1 < TWO32
                && (offset + len <= |Gather(s, ids)| || Rem(|Gather(s, ids)|, s.chunkSize) == 0))
  {
    PackedSize(s, ids);
    if first + 1 == |ids| {
      LastChunkRead(s, ids, len, offset);
    } else {
      FullChunkRead(s, ids, offset, first);
      FullStartExact(s, ids, len, offset, first, skip);
    }
  }

  /** The condition with quotients and remainders by repeated subtraction. */
  lemma FaithfulIs(chunkSize: nat, fileLen: nat, len: nat, offset: nat)
    requires chunkSize > 0
    ensures ReadIsFaithful(chunkSize, fileLen, len, offset) <==>
            || Quot(offset, chunkSize) + 1 == Quot(fileLen + chunkSize - 1, chunkSize)
            || (len - Min(chunkSize - Rem(offset, chunkSize), len) + chunkSize - 1 < TWO32
                && (offset + len <= fileLen || Rem(fileLen, chunkSize) == 0))
  {
    hide Quot, Rem, Min;
    QuotRem(offset, chunkSize);
    QuotRem(fileLen + chunkSize - 1, chunkSize);
    QuotRem(fileLen, chunkSize);
  }

  /** Exactly when a read returns the requested bytes. */
  lemma ReadExact(s: Fs, d: Digest, len: nat, offset: nat)
    requires Valid(s) && StartExists(s, d, offset) && len < TWO32 && s.chunkSize <= TWO32
    requires ReadStep(s, d, len, offset).Bytes?
    ensures offset <= |Content(s, d)|
    ensures ReadStep(s, d, len, offset).data == Slice(Content(s, d), len, offset) <==>
            ReadIsFaithful(s.chunkSize, |Content(s, d)|, len, offset)
  {
    hide *;
    ReadStepIs(s, d, len, offset);
    FaithfulIs(s.chunkSize, |Content(s, d)|, len, offset);
    ReadFromExact(s, FileIds(s, d), len, offset, Quot(offset, s.chunkSize), Rem(offset, s.chunkSize));
  }
}
