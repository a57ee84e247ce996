/**
 Appending keeps the coalesced lists, adds exactly the written bytes to the file, and leaves every other file alone;
 also when the allocator hands out a chunk twice, except that the file written then lacks bytes.
 */
module FsAppend {
  import opened Common
  import opened FsModel
  import opened FsWrite

  // ----- Where the file ends ------------------------------------------------------------------

  /**
   What the two tail searches find once the bucket is in use: the end of its list, and the file's last chunk on it.
   */
  lemma FindTails(s: Fs, d: Digest)
    requires Valid(s) && s.metas[s.bucket(d)].isUsed
    ensures var walk, tail := Chain(s.metas, s.bucket(d), |s.metas|), ChunkTail(s, d);
            && Linked(s.metas, walk) && tail == walk[|walk| - 1]
            && s.metas[tail].isUsed && s.metas[tail].next == INVALID_CHUNKID
    ensures var ids, tail := FileIds(s, d), FileTail(s, d);
            && (tail.None? <==> ids == [])
            && (tail.Some? ==>
                  tail.value == ids[|ids| - 1] && s.metas[tail.value].isUsed && s.metas[tail.value].sha1 == d)
  {
    var walk := Chain(s.metas, s.bucket(d), |s.metas|);
    assert Ends(s.metas, s.bucket(d));
    assert LinkAt(s.metas, walk, |walk| - 1);
    FileIdsOwned(s, d);
  }

  // ----- The effect of a write, chunk by chunk --------------------------------------------------

  /** A usable allocation for a write: as many idle chunks as needed, led by an idle bucket. */
  ghost predicate Granted(s: Fs, d: Digest, len: nat, ids: seq<nat>)
    requires Shape(s)
  {
    && |ids| == PlanFor(s, d, len).need
    && InRange(ids, |s.metas|)
    && (forall i | 0 <= i < |ids| :: !s.metas[ids[i]].isUsed)
    && (ids != [] && !s.metas[s.bucket(d)].isUsed ==> ids[0] == s.bucket(d))
  }

  /** The bytes of this write that go into chunk c as the old tail of the file. */
  ghost function TailPart(s: Fs, d: Digest, buf: seq<byte>, c: nat): seq<byte>
    requires Shape(s) && c < |s.metas|
  {
    PlanBounds(s, d, |buf|);
    if FileTail(s, d) == Some(c) then buf[..PlanFor(s, d, |buf|).first] else []
  }

  /** A chunk that is not handed out keeps its owner; only the two tails change at all. */
  ghost predicate KeptAt(s: Fs, s': Fs, d: Digest, buf: seq<byte>, ids: seq<nat>, c: nat)
    requires Shape(s) && Shape(s') && |s'.metas| == |s.metas| && c < |s.metas| && s'.chunkSize == s.chunkSize
  {
    var m, m' := s.metas[c], s'.metas[c];
    && m'.isUsed == m.isUsed
    && (m.isUsed ==>
          && m'.sha1 == m.sha1
          && m'.idleLen == m.idleLen - |TailPart(s, d, buf, c)|
          && m'.next == (if c == ChunkTail(s, d) && ids != [] then ids[0] else m.next)
          && Written(s', c) == Written(s, c) + TailPart(s, d, buf, c))
  }

  lemma AttachKeeps(s: Fs, d: Digest, buf: seq<byte>, ids: seq<nat>, c: nat)
    requires Shape(s) && Granted(s, d, |buf|, ids) && c < |s.metas| && c !in ids
    requires s.metas[s.bucket(d)].isUsed ==>
               && s.metas[ChunkTail(s, d)].next == INVALID_CHUNKID
               && (FileTail(s, d).Some? ==> s.metas[FileTail(s, d).value].isUsed)
    ensures PlanFor(s, d, |buf|).first <= |buf|
    ensures PlanFor(s, d, |buf|).first > 0 ==>
              FileTail(s, d).Some? && PlanFor(s, d, |buf|).first <= s.metas[FileTail(s, d).value].idleLen
    ensures KeptAt(s, Attach(s, d, buf[..PlanFor(s, d, |buf|).first], ids), d, buf, ids, c)
  {
    hide Owned, Chain, ChunkTail, FileIds;
    PlanBounds(s, d, |buf|);
    var p, t := PlanFor(s, d, |buf|), FileTail(s, d);
    CalcWriteSplits(s.chunkSize, if t.Some? then Some(s.metas[t.value]) else None, |buf|);
    assert p.first > 0 && p.first < s.metas[t.value].idleLen ==> ids == [];
    assert p.first > 0 ==> s.metas[s.bucket(d)].isUsed && s.metas[t.value].isUsed;
    hide PlanFor, CalcWrite, FileTail, Granted;
    var part := buf[..p.first];
    if p.first == 0 {
      assert part == [] && TailPart(s, d, buf, c) == [];
    } else {
      hide Attach, KeptAt;
      assert TailPart(s, d, buf, c) == if c == t.value then part else [];
      FilledKeeps(s, d, buf, ids, c, t.value, part);
    }
  }

  /** The filled tail, and the link that is set when nothing is left of it. */
  lemma FilledKeeps(s: Fs, d: Digest, buf: seq<byte>, ids: seq<nat>, c: nat, t: nat, part: seq<byte>)
    requires Shape(s) && c < |s.metas| && t < |s.metas| && FileTail(s, d) == Some(t)
    requires 0 < |part| <= s.metas[t].idleLen && (|part| < s.metas[t].idleLen ==> ids == [])
    requires s.metas[ChunkTail(s, d)].next == INVALID_CHUNKID
    requires TailPart(s, d, buf, c) == if c == t then part else []
    ensures KeptAt(s, Attach(s, d, part, ids), d, buf, ids, c)
  {
    hide Splice, Written, TailPart, PlanFor, FileTail, ChunkTail, FileIds;
    var s1 := FillTail(s, t, part);
    var s2 := SetNext(s1, ChunkTail(s, d), if ids == [] then INVALID_CHUNKID else ids[0]);
    FillTailWrites(s, t, part, c);
    assert Attach(s, d, part, ids) == s1 || Attach(s, d, part, ids) == s2;
    SetNextWrites(s1, ChunkTail(s, d), if ids == [] then INVALID_CHUNKID else ids[0], c);
  }

  lemma SetNextWrites(s: Fs, t: nat, next: nat, c: nat)
    requires Shape(s) && t < |s.metas| && c < |s.metas|
    ensures Written(SetNext(s, t, next), c) == Written(s, c)
  {
  }

  /** Filling the tail chunk appends to what is written of it, and leaves the other chunks. */
  lemma FillTailWrites(s: Fs, t: nat, part: seq<byte>, c: nat)
    requires Shape(s) && t < |s.metas| && c < |s.metas| && |part| <= s.metas[t].idleLen
    ensures Written(FillTail(s, t, part), c) == Written(s, c) + if c == t then part else []
  {
  }

  lemma WriteKeeps(s: Fs, d: Digest, buf: seq<byte>, ids: seq<nat>, c: nat)
    requires Valid(s) && Granted(s, d, |buf|, ids) && c < |s.metas| && c !in ids
    ensures KeptAt(s, WriteTo(s, d, buf, ids), d, buf, ids, c)
  {
    hide Owned, Chain, PutChunks, CalcWrite;
    if s.metas[s.bucket(d)].isUsed {
      FindTails(s, d);
    }
    AttachKeeps(s, d, buf, ids, c);
    var p := PlanFor(s, d, |buf|);
    PlanBounds(s, d, |buf|);
    PutChunksFrame(Attach(s, d, buf[..p.first], ids), d, ids, 0, buf[p.first..], p.last, c);
  }

  lemma WriteRecords(s: Fs, d: Digest, buf: seq<byte>, ids: seq<nat>, j: nat)
    requires Shape(s) && InRange(ids, |s.metas|) && j < |ids| && ids[j] !in ids[j + 1..]
    ensures PlanFor(s, d, |buf|).last <= s.chunkSize
    ensures WriteTo(s, d, buf, ids).metas[ids[j]] == RecordOf(d, ids, j, s.chunkSize, PlanFor(s, d, |buf|).last)
  {
    PlanBounds(s, d, |buf|);
    var p := PlanFor(s, d, |buf|);
    PutChunksRecord(Attach(s, d, buf[..p.first], ids), d, ids, 0, buf[p.first..], p.last, j);
  }

  ghost predicate RecordAt(s: Fs, s': Fs, d: Digest, buf: seq<byte>, ids: seq<nat>, j: nat)
    requires Shape(s) && Shape(s') && |s'.metas| == |s.metas| && InRange(ids, |s.metas|) && j < |ids|
  {
    && PlanFor(s, d, |buf|).last <= s.chunkSize
    && s'.metas[ids[j]] == RecordOf(d, ids, j, s.chunkSize, PlanFor(s, d, |buf|).last)
  }

  /** Everything the proofs below need to know about a write that took the chunks `ids`, whether or not they repeat. */
  ghost predicate Kept(s: Fs, s': Fs, d: Digest, buf: seq<byte>, ids: seq<nat>) {
    && Valid(s) && Shape(s') && |s'.metas| == |s.metas| && s'.chunkSize == s.chunkSize && s'.bucket == s.bucket
    && Granted(s, d, |buf|, ids)
    && (forall c {:trigger KeptAt(s, s', d, buf, ids, c)} |
          0 <= c < |s.metas| && c !in ids :: KeptAt(s, s', d, buf, ids, c))
    && (forall j {:trigger RecordAt(s, s', d, buf, ids, j)} | 0 <= j < |ids| && ids[j] !in ids[j + 1..] ::
          RecordAt(s, s', d, buf, ids, j))
  }

  lemma WriteLeaves(s: Fs, d: Digest, buf: seq<byte>, ids: seq<nat>)
    requires Valid(s) && Granted(s, d, |buf|, ids)
    ensures Kept(s, WriteTo(s, d, buf, ids), d, buf, ids)
  {
    assert Shape(s);
    hide WriteTo, KeptAt, Valid, PlanFor;
    var s' := WriteTo(s, d, buf, ids);
    forall c | 0 <= c < |s.metas| && c !in ids
      ensures KeptAt(s, s', d, buf, ids, c)
    {
      WriteKeeps(s, d, buf, ids, c);
    }
    forall j | 0 <= j < |ids| && ids[j] !in ids[j + 1..]
      ensures RecordAt(s, s', d, buf, ids, j)
    {
      WriteRecords(s, d, buf, ids, j);
    }
  }

  // ----- The walk over the fresh chunks -----------------------------------------------------------

  /** The last place at which the chunk ids[j] is named. */
  lemma {:induction false} FindLast(ids: seq<nat>, j: nat) returns (l: nat)
    requires j < |ids|
    ensures j <= l < |ids| && ids[l] == ids[j] && ids[l] !in ids[l + 1..]
    decreases |ids| - j
  {
    if ids[j] in ids[j + 1..] {
      var i :| 0 <= i < |ids[j + 1..]| && ids[j + 1..][i] == ids[j];
      l := FindLast(ids, j + 1 + i);
    } else {
      l := j;
    }
  }

  lemma ConsDistinct<T>(s: seq<T>)
    requires s != [] && s[0] !in s[1..] && NoRepeat(s[1..])
    ensures NoRepeat(s)
  {
    forall i, j | 0 <= i < j < |s|
      ensures s[i] != s[j]
    {
      assert s[j] == s[1..][j - 1];
      assert i > 0 ==> s[i] == s[1..][i - 1];
    }
  }

  /** A list of fresh chunks as the walk from ids[j] meets them: all of ids[j..] exactly if none of these repeats. */
  ghost predicate FreshPath(s': Fs, d: Digest, ids: seq<nat>, j: nat, path: seq<nat>)
    requires j < |ids|
  {
    && Linked(s'.metas, path) && NoRepeat(path) && path[0] == ids[j]
    && |path| <= |ids| - j && (if NoRepeat(ids[j..]) then path == ids[j..] else |path| < |ids| - j)
    && (forall i | 0 <= i < |path| :: path[i] in ids[j..] && s'.metas[path[i]].sha1 == d)
    && (forall i | 0 <= i < |path| - 1 :: s'.metas[path[i]].idleLen == 0)
  }

  /** The links go on from the last mention of each chunk. */
  lemma {:induction false} FreshWalk(s: Fs, s': Fs, d: Digest, buf: seq<byte>, ids: seq<nat>, j: nat)
    returns (path: seq<nat>)
    requires Kept(s, s', d, buf, ids) && j < |ids|
    ensures FreshPath(s', d, ids, j, path)
    decreases |ids| - j
  {
    var l := FindLast(ids, j);
    assert RecordAt(s, s', d, buf, ids, l);
    path := [ids[j]];
    if l + 1 < |ids| {
      var rest := FreshWalk(s, s', d, buf, ids, l + 1);
      path := path + rest;
      FreshCons(s', d, ids, j, l, rest);
    } else {
      assert LinkAt(s'.metas, path, 0);
      assert ids[l..] == [ids[l]];
    }
  }

  lemma FreshCons(s': Fs, d: Digest, ids: seq<nat>, j: nat, l: nat, rest: seq<nat>)
    requires j <= l && l + 1 < |ids| && ids[l] == ids[j] && ids[l] !in ids[l + 1..]
             && FreshPath(s', d, ids, l + 1, rest)
    requires ids[j] < |s'.metas| && s'.metas[ids[j]] == MetaInfo(true, d, 0, ids[l + 1])
    ensures FreshPath(s', d, ids, j, [ids[j]] + rest)
  {
    var path := [ids[j]] + rest;
    forall i | 0 <= i < |path|
      ensures LinkAt(s'.metas, path, i)
    {
      assert i > 0 ==> LinkAt(s'.metas, rest, i - 1);
    }
    assert ids[l + 1..] == ids[j..][l + 1 - j..];
    assert path[1..] == rest;
    ConsDistinct(path);
    if l == j {
      assert ids[j..] == [ids[j]] + ids[j + 1..];
      if NoRepeat(ids[j + 1..]) {
        ConsDistinct(ids[j..]);
      }
    } else {
      assert ids[j..][0] == ids[j..][l - j];
    }
  }

  /** The fresh chunks that can be reached. */
  function FreshIds(s': Fs, ids: seq<nat>): (r: seq<nat>)
    ensures InRange(r, |s'.metas|)
  {
    if ids == [] then [] else Chain(s'.metas, ids[0], |s'.metas|)
  }

  lemma FreshIdsAre(s: Fs, s': Fs, d: Digest, buf: seq<byte>, ids: seq<nat>)
    requires Kept(s, s', d, buf, ids)
    ensures ids != [] ==> FreshPath(s', d, ids, 0, FreshIds(s', ids))
    ensures if NoRepeat(ids) then FreshIds(s', ids) == ids else |FreshIds(s', ids)| < |ids|
  {
    if ids != [] {
      var path := FreshWalk(s, s', d, buf, ids, 0);
      assert ids[0..] == ids;
      PathIsChain(s'.metas, path);
    }
  }

  // ----- The walks over the old ones ----------------------------------------------------------------

  /** The walk from c ends where the fresh chunks are hung on. */
  ghost predicate MeetsTail(s: Fs, d: Digest, c: nat)
    requires Shape(s)
  {
    var walk := Chain(s.metas, c, |s.metas|);
    s.metas[s.bucket(d)].isUsed && walk != [] && walk[|walk| - 1] == ChunkTail(s, d)
  }

  /** Every old chunk links as before, but for the one that the fresh chunks are hung on. */
  lemma OldLink(s: Fs, s': Fs, d: Digest, buf: seq<byte>, ids: seq<nat>, c: nat, i: nat)
    requires Kept(s, s', d, buf, ids) && c < |s.metas| && s.metas[c].isUsed && i < |Chain(s.metas, c, |s.metas|)|
    ensures var walk := Chain(s.metas, c, |s.metas|);
            && s'.metas[walk[i]].isUsed && s'.metas[walk[i]].sha1 == s.metas[walk[i]].sha1 && walk[i] !in ids
            && s'.metas[walk[i]].next ==
               if i + 1 < |walk| then walk[i + 1]
               else if MeetsTail(s, d, c) && ids != [] then ids[0]
               else INVALID_CHUNKID
  {
    var walk := Chain(s.metas, c, |s.metas|);
    assert Ends(s.metas, c) && LinkAt(s.metas, walk, i);
    assert KeptAt(s, s', d, buf, ids, walk[i]);
    if s.metas[s.bucket(d)].isUsed {
      FindTails(s, d);
    }
  }

  /** The fresh chunks that the walk from c goes on into. */
  ghost function More(s: Fs, s': Fs, d: Digest, ids: seq<nat>, c: nat): (more: seq<nat>)
    requires Shape(s)
    ensures InRange(more, |s'.metas|)
  {
    if MeetsTail(s, d, c) then FreshIds(s', ids) else []
  }

  lemma MoreIs(s: Fs, s': Fs, d: Digest, buf: seq<byte>, ids: seq<nat>, c: nat)
    requires Kept(s, s', d, buf, ids)
    ensures var more := More(s, s', d, ids, c);
            && NoRepeat(more) && (forall i | 0 <= i < |more| :: more[i] in ids)
            && (more != [] ==> ids != [] && MeetsTail(s, d, c) && Linked(s'.metas, more) && more[0] == ids[0])
            && (more == [] ==> !MeetsTail(s, d, c) || ids == [])
  {
    FreshIdsAre(s, s', d, buf, ids);
    KeptShape(s, s', d, buf, ids);
    assert ids[0..] == ids;
    hide Kept, Valid, Chain, MeetsTail;
  }

  /** Every entry of the walk from c, and of the walk with the fresh chunks behind it, links to the next one. */
  lemma OldLinks(s: Fs, s': Fs, d: Digest, buf: seq<byte>, ids: seq<nat>, c: nat, i: nat)
    requires Kept(s, s', d, buf, ids) && c < |s.metas| && s.metas[c].isUsed && i < |Chain(s.metas, c, |s.metas|)|
    ensures var walk := Chain(s.metas, c, |s.metas|);
            LinkAt(s'.metas, walk + More(s, s', d, ids, c), i) && walk[i] !in ids
  {
    KeptShape(s, s', d, buf, ids);
    OldLink(s, s', d, buf, ids, c, i);
    MoreIs(s, s', d, buf, ids, c);
    hide Kept, Valid, Chain, MeetsTail, More, Linked, NoRepeat;
  }

  /** After a write the walk from a chunk that was in use goes on into the fresh chunks, or is the same. */
  lemma WalkAfter(s: Fs, s': Fs, d: Digest, buf: seq<byte>, ids: seq<nat>, c: nat)
    requires Kept(s, s', d, buf, ids) && c < |s.metas| && s.metas[c].isUsed
    ensures Chain(s'.metas, c, |s.metas|) ==
            Chain(s.metas, c, |s.metas|) + More(s, s', d, ids, c)
    ensures Ends(s'.metas, c)
  {
    KeptShape(s, s', d, buf, ids);
    var walk, more := Chain(s.metas, c, |s.metas|), More(s, s', d, ids, c);
    assert Ends(s.metas, c);
    assert walk != [] && walk[0] == c && NoRepeat(walk);
    MoreIs(s, s', d, buf, ids, c);
    assert |s'.metas| == |s.metas| <= INVALID_CHUNKID;
    hide Kept, Valid, Ends, Chain, FreshIds, MeetsTail, Linked, LinkAt;
    forall i | 0 <= i < |walk|
      ensures LinkAt(s'.metas, walk + more, i) && walk[i] !in ids
    {
      OldLinks(s, s', d, buf, ids, c, i);
    }
    PathJoin(s'.metas, walk, more);
    PathIsChain(s'.metas, walk + more);
  }

  lemma PathJoin(m: seq<MetaInfo>, walk: seq<nat>, more: seq<nat>)
    requires InRange(walk, |m|) && walk != [] && NoRepeat(walk) && NoRepeat(more) && (more != [] ==> Linked(m, more))
    requires forall i | 0 <= i < |walk| :: LinkAt(m, walk + more, i) && walk[i] !in more
    ensures Linked(m, walk + more) && NoRepeat(walk + more)
  {
    var path := walk + more;
    forall i | |walk| <= i < |path|
      ensures LinkAt(m, path, i)
    {
      assert LinkAt(m, more, i - |walk|);
    }
  }

  // ----- The chunks of a file afterwards --------------------------------------------------------------

  /** Of the fresh chunks on the walk from a bucket, those of the written file are all and those of another none. */
  lemma MoreOwned(s: Fs, s': Fs, d: Digest, buf: seq<byte>, ids: seq<nat>, e: Digest)
    requires Kept(s, s', d, buf, ids) && s.metas[s.bucket(e)].isUsed
    ensures Owned(s'.metas, More(s, s', d, ids, s.bucket(e)), e) == if e == d then FreshIds(s', ids) else []
  {
    KeptShape(s, s', d, buf, ids);
    FreshIdsAre(s, s', d, buf, ids);
    var more := More(s, s', d, ids, s.bucket(e));
    if e == d {
      FindTails(s, d);
      assert more == FreshIds(s', ids);
    }
    assert forall i | 0 <= i < |more| :: s'.metas[more[i]].sha1 == d;
    hide Kept, Valid, Chain, MeetsTail, FreshIds, FreshPath, More;
    if e == d {
      OwnedAll(s'.metas, more, e);
    } else {
      OwnedNone(s'.metas, more, e);
    }
  }

  /** The chunks on a walk that belong to e: the old ones, and of the fresh ones all if e is written. */
  lemma OwnedAfter(s: Fs, s': Fs, d: Digest, buf: seq<byte>, ids: seq<nat>, e: Digest)
    requires Kept(s, s', d, buf, ids) && s.metas[s.bucket(e)].isUsed
    ensures FileIds(s', e) == FileIds(s, e) + if e == d then FreshIds(s', ids) else []
  {
    KeptShape(s, s', d, buf, ids);
    var h := s.bucket(e);
    var walk, more := Chain(s.metas, h, |s.metas|), More(s, s', d, ids, h);
    assert FileIds(s, e) == Owned(s.metas, walk, e);
    UsedAfter(s, s', d, buf, ids, h);
    WalkAfter(s, s', d, buf, ids, h);
    assert FileIds(s', e) == Owned(s'.metas, walk + more, e);
    MoreOwned(s, s', d, buf, ids, e);
    hide Kept, Valid, Chain, FileIds, FreshIds, More, Ends;
    forall i | 0 <= i < |walk|
      ensures s'.metas[walk[i]].sha1 == s.metas[walk[i]].sha1
    {
      OldLink(s, s', d, buf, ids, h, i);
    }
    OwnedSame(s.metas, s'.metas, walk, e);
    OwnedConcat(s'.metas, walk, more, e);
  }

  /** A bucket that was idle: the file has the fresh chunks if it is the one written, and none otherwise. */
  lemma OwnedFresh(s: Fs, s': Fs, d: Digest, buf: seq<byte>, ids: seq<nat>, e: Digest)
    requires Kept(s, s', d, buf, ids) && !s.metas[s.bucket(e)].isUsed
    ensures FileIds(s', e) == if e == d then FreshIds(s', ids) else []
  {
    var h := s.bucket(e);
    if h in ids {
      var j :| 0 <= j < |ids| && ids[j] == h;
      j := if e == d then 0 else j;
      var path := FreshWalk(s, s', d, buf, ids, j);
      PathIsChain(s'.metas, path);
      assert LinkAt(s'.metas, path, 0);
      if e == d {
        OwnedAll(s'.metas, path, e);
      } else {
        OwnedNone(s'.metas, path, e);
      }
    } else {
      assert KeptAt(s, s', d, buf, ids, h);
    }
  }

  /** A write to d adds the fresh chunks that can be reached to the chunks of d, and changes no other file's. */
  lemma FileIdsAfter(s: Fs, s': Fs, d: Digest, buf: seq<byte>, ids: seq<nat>, e: Digest)
    requires Kept(s, s', d, buf, ids)
    ensures FileIds(s', e) == FileIds(s, e) + if e == d then FreshIds(s', ids) else []
  {
    hide Kept, FreshIds, Owned, Chain;
    assert Shape(s) by { KeptShape(s, s', d, buf, ids); }
    if s.metas[s.bucket(e)].isUsed {
      OwnedAfter(s, s', d, buf, ids, e);
    } else {
      OwnedFresh(s, s', d, buf, ids, e);
    }
  }

  lemma KeptShape(s: Fs, s': Fs, d: Digest, buf: seq<byte>, ids: seq<nat>)
    requires Kept(s, s', d, buf, ids)
    ensures Valid(s) && Shape(s) && Shape(s') && |s'.metas| == |s.metas| && s'.chunkSize == s.chunkSize
            && s'.bucket == s.bucket
  {}

  // ----- What writes keep ------------------------------------------------------------------------------

  lemma EndsAfter(s: Fs, s': Fs, d: Digest, buf: seq<byte>, ids: seq<nat>, c: nat)
    requires Kept(s, s', d, buf, ids) && c < |s.metas| && s'.metas[c].isUsed
    ensures Ends(s'.metas, c) && s'.metas[c].idleLen < s'.chunkSize
  {
    if c in ids {
      var j :| 0 <= j < |ids| && ids[j] == c;
      var path := FreshWalk(s, s', d, buf, ids, j);
      PathIsChain(s'.metas, path);
      var l := FindLast(ids, j);
      assert RecordAt(s, s', d, buf, ids, l);
      PlanBounds(s, d, |buf|);
    } else {
      assert KeptAt(s, s', d, buf, ids, c);
      WalkAfter(s, s', d, buf, ids, c);
    }
  }

  /** Where the file ended, the chunk is full before fresh ones are hung on. */
  lemma OldIdle(s: Fs, s': Fs, d: Digest, buf: seq<byte>, ids: seq<nat>, e: Digest, i: nat)
    requires Kept(s, s', d, buf, ids) && i < |FileIds(s, e)|
    requires i + 1 < |FileIds(s, e)| || (e == d && ids != [])
    ensures s'.metas[FileIds(s, e)[i]].idleLen == 0
  {
    var c, t := FileIds(s, e)[i], FileTail(s, d);
    FileIdsOwned(s, e);
    assert KeptAt(s, s', d, buf, ids, c);
    if i + 1 < |FileIds(s, e)| {
      assert Packed(s, e);
    } else {
      FindTails(s, d);
      CalcWriteSplits(s.chunkSize, Some(s.metas[c]), |buf|);
    }
  }

  lemma PackedAfter(s: Fs, s': Fs, d: Digest, buf: seq<byte>, ids: seq<nat>, e: Digest)
    requires Kept(s, s', d, buf, ids)
    ensures Packed(s', e)
  {
    KeptShape(s, s', d, buf, ids);
    FileIdsAfter(s, s', d, buf, ids, e);
    FreshIdsAre(s, s', d, buf, ids);
    var before, now := FileIds(s, e), FileIds(s', e);
    forall i | 0 <= i < |now| - 1
      ensures s'.metas[now[i]].idleLen == 0
    {
      if i < |before| {
        OldIdle(s, s', d, buf, ids, e, i);
      } else {
        assert now[i] == FreshIds(s', ids)[i - |before|];
      }
    }
  }

  lemma HaveAfter(s: Fs, d: Digest, buf: seq<byte>, ids: seq<nat>)
    requires Shape(s) && InRange(ids, |s.metas|)
    ensures WriteTo(s, d, buf, ids).have == s.have + Elements(ids)
    ensures s.count + |ids| < TWO32 ==> WriteTo(s, d, buf, ids).count == s.count + |ids|
  {
    PlanBounds(s, d, |buf|);
    var p := PlanFor(s, d, |buf|);
    PutChunksCounts(Attach(s, d, buf[..p.first], ids), d, ids, 0, buf[p.first..], p.last);
    assert ids[0..] == ids;
  }

  /** A write that was given idle chunks, whether or not they repeat, leaves a well-formed store. */
  lemma WriteKeepsValid(s: Fs, d: Digest, buf: seq<byte>, ids: seq<nat>)
    requires Valid(s) && Granted(s, d, |buf|, ids)
    ensures Kept(s, WriteTo(s, d, buf, ids), d, buf, ids) && Valid(WriteTo(s, d, buf, ids))
  {
    var s' := WriteTo(s, d, buf, ids);
    WriteLeaves(s, d, buf, ids);
    HaveAfter(s, d, buf, ids);
    hide WriteTo, Ends, Packed, PlanFor, Granted;
    forall c | 0 <= c < |s'.metas| && s'.metas[c].isUsed
      ensures Ends(s'.metas, c) && s'.metas[c].idleLen < s'.chunkSize
    {
      EndsAfter(s, s', d, buf, ids, c);
    }
    forall e
      ensures Packed(s', e)
    {
      PackedAfter(s, s', d, buf, ids, e);
    }
    forall c: nat
      ensures c in s'.have <==> c < |s'.metas| && s'.metas[c].isUsed
    {
      UsedAfter(s, s', d, buf, ids, c);
    }
  }

  lemma UsedAfter(s: Fs, s': Fs, d: Digest, buf: seq<byte>, ids: seq<nat>, c: nat)
    requires Kept(s, s', d, buf, ids)
    ensures c < |s.metas| && s'.metas[c].isUsed <==> (c < |s.metas| && s.metas[c].isUsed) || c in ids
    ensures c in ids ==> s'.metas[c].sha1 == d
  {
    if c in ids {
      var j :| 0 <= j < |ids| && ids[j] == c;
      var l := FindLast(ids, j);
      assert RecordAt(s, s', d, buf, ids, l);
    } else if c < |s.metas| {
      assert KeptAt(s, s', d, buf, ids, c);
    }
  }

  // ----- What the files hold afterwards -----------------------------------------------------------

  lemma {:induction false} GatherConcat(s: Fs, a: seq<nat>, b: seq<nat>)
    requires Shape(s) && InRange(a, |s.metas|) && InRange(b, |s.metas|)
    ensures Gather(s, a + b) == Gather(s, a) + Gather(s, b)
  {
    if a == [] {
      assert a + b == b;
    } else {
      assert (a + b)[1..] == a[1..] + b;
      GatherConcat(s, a[1..], b);
    }
  }

  lemma {:induction false} GatherSame(s: Fs, s': Fs, ids: seq<nat>)
    requires Shape(s) && Shape(s') && InRange(ids, |s.metas|) && |s'.metas| == |s.metas|
    requires forall i | 0 <= i < |ids| :: Written(s', ids[i]) == Written(s, ids[i])
    ensures Gather(s', ids) == Gather(s, ids)
  {
    if ids != [] {
      GatherSame(s, s', ids[1..]);
    }
  }

  lemma {:induction false} GatherGrownLast(s: Fs, s': Fs, ids: seq<nat>, part: seq<byte>)
    requires Shape(s) && Shape(s') && InRange(ids, |s.metas|) && |s'.metas| == |s.metas| && ids != []
    requires forall i | 0 <= i < |ids| - 1 :: Written(s', ids[i]) == Written(s, ids[i])
    requires Written(s', ids[|ids| - 1]) == Written(s, ids[|ids| - 1]) + part
    ensures Gather(s', ids) == Gather(s, ids) + part
  {
    if |ids| == 1 {
      assert ids[1..] == [];
    } else {
      GatherGrownLast(s, s', ids[1..], part);
      var w, rest := Written(s, ids[0]), Gather(s, ids[1..]);
      assert w + (rest + part) == (w + rest) + part;
    }
  }

  /** The file tail of a digest is the last chunk of its file and no other chunk of any file. */
  lemma OnlyLastIsTail(s: Fs, d: Digest, e: Digest, i: nat)
    requires Valid(s) && i < |FileIds(s, e)|
    ensures FileTail(s, d) == Some(FileIds(s, e)[i]) <==> e == d && i == |FileIds(s, e)| - 1
  {
    FileIdsOwned(s, e);
    FileIdsOwned(s, d);
    if s.metas[s.bucket(d)].isUsed {
      FindTails(s, d);
      hide Valid, FileIds, FileTail;
    } else {
      hide Valid;
    }
  }

  /** Only the last chunk of the written file takes a part of the buffer. */
  lemma TailPartIs(s: Fs, d: Digest, buf: seq<byte>, e: Digest, i: nat)
    requires Valid(s) && i < |FileIds(s, e)|
    ensures PlanFor(s, d, |buf|).first <= |buf|
    ensures TailPart(s, d, buf, FileIds(s, e)[i]) ==
            if e == d && i == |FileIds(s, e)| - 1 then buf[..PlanFor(s, d, |buf|).first] else []
  {
    PlanBounds(s, d, |buf|);
    OnlyLastIsTail(s, d, e, i);
    hide PlanFor, Valid, FileIds, FileTail;
  }

  lemma UsedWritten(s: Fs, s': Fs, d: Digest, buf: seq<byte>, ids: seq<nat>, c: nat)
    requires Kept(s, s', d, buf, ids) && c < |s.metas| && s.metas[c].isUsed
    ensures Written(s', c) == Written(s, c) + TailPart(s, d, buf, c)
  {
    assert c !in ids;
    assert KeptAt(s, s', d, buf, ids, c);
    KeptShape(s, s', d, buf, ids);
    hide Valid, PlanFor, TailPart, ChunkTail;
  }

  lemma OldWritten(s: Fs, s': Fs, d: Digest, buf: seq<byte>, ids: seq<nat>, e: Digest, i: nat)
    requires Kept(s, s', d, buf, ids) && i < |FileIds(s, e)|
    ensures e != d || i < |FileIds(s, e)| - 1 ==> Written(s', FileIds(s, e)[i]) == Written(s, FileIds(s, e)[i])
    ensures PlanFor(s, d, |buf|).first <= |buf|
    ensures e == d && i == |FileIds(s, e)| - 1 ==>
              Written(s', FileIds(s, e)[i]) == Written(s, FileIds(s, e)[i]) + buf[..PlanFor(s, d, |buf|).first]
  {
    KeptShape(s, s', d, buf, ids);
    FileIdsOwned(s, e);
    TailPartIs(s, d, buf, e, i);
    UsedWritten(s, s', d, buf, ids, FileIds(s, e)[i]);
    assert Shape(s) && Shape(s') && |s'.metas| == |s.metas|;
    hide *;
    var w := Written(s, FileIds(s, e)[i]);
    assert w + [] == w;
  }

  lemma OthersBytesAfter(s: Fs, s': Fs, d: Digest, buf: seq<byte>, ids: seq<nat>, e: Digest)
    requires Kept(s, s', d, buf, ids) && e != d
    ensures Gather(s', FileIds(s, e)) == Content(s, e)
  {
    KeptShape(s, s', d, buf, ids);
    var own := FileIds(s, e);
    assert Content(s, e) == Gather(s, own);
    hide *;
    forall i | 0 <= i < |own|
      ensures Written(s', own[i]) == Written(s, own[i])
    {
      OldWritten(s, s', d, buf, ids, e, i);
    }
    GatherSame(s, s', own);
  }

  lemma OwnWritten(s: Fs, s': Fs, d: Digest, buf: seq<byte>, ids: seq<nat>, own: seq<nat>, part: seq<byte>)
    requires Kept(s, s', d, buf, ids) && own == FileIds(s, d) != []
    requires PlanFor(s, d, |buf|).first <= |buf| && part == buf[..PlanFor(s, d, |buf|).first]
    ensures forall i | 0 <= i < |own| - 1 :: Written(s', own[i]) == Written(s, own[i])
    ensures Written(s', own[|own| - 1]) == Written(s, own[|own| - 1]) + part
  {
    KeptShape(s, s', d, buf, ids);
    hide *;
    forall i | 0 <= i < |own| - 1
      ensures Written(s', own[i]) == Written(s, own[i])
    {
      OldWritten(s, s', d, buf, ids, d, i);
    }
    OldWritten(s, s', d, buf, ids, d, |own| - 1);
  }

  lemma OwnBytesAfter(s: Fs, s': Fs, d: Digest, buf: seq<byte>, ids: seq<nat>)
    requires Kept(s, s', d, buf, ids) && FileIds(s, d) != []
    ensures PlanFor(s, d, |buf|).first <= |buf|
    ensures Gather(s', FileIds(s, d)) == Content(s, d) + buf[..PlanFor(s, d, |buf|).first]
  {
    KeptShape(s, s', d, buf, ids);
    PlanBounds(s, d, |buf|);
    var own, part := FileIds(s, d), buf[..PlanFor(s, d, |buf|).first];
    assert Content(s, d) == Gather(s, own);
    hide *;
    OwnWritten(s, s', d, buf, ids, own, part);
    GatherGrownLast(s, s', own, part);
  }

  /**
   The old chunks of d read back as before, followed by what was put into the tail chunk; those of others as before.
   */
  lemma OldBytesAfter(s: Fs, s': Fs, d: Digest, buf: seq<byte>, ids: seq<nat>, e: Digest)
    requires Kept(s, s', d, buf, ids)
    ensures PlanFor(s, d, |buf|).first <= |buf|
    ensures Gather(s', FileIds(s, e)) ==
            if e == d then Content(s, d) + buf[..PlanFor(s, d, |buf|).first] else Content(s, e)
  {
    KeptShape(s, s', d, buf, ids);
    PlanBounds(s, d, |buf|);
    if e != d {
      hide *;
      OthersBytesAfter(s, s', d, buf, ids, e);
    } else if FileIds(s, d) != [] {
      hide *;
      OwnBytesAfter(s, s', d, buf, ids);
    } else {
      hide Valid, Kept;
      NothingFilled(s, d, |buf|);
    }
  }

  /** Without a chunk of its own a file has no tail to fill. */
  lemma NothingFilled(s: Fs, d: Digest, len: nat)
    requires Valid(s) && FileIds(s, d) == []
    ensures PlanFor(s, d, len).first == 0
  {
    if s.metas[s.bucket(d)].isUsed {
      FindTails(s, d);
    }
  }

  lemma FreshBytesAfter(s: Fs, d: Digest, buf: seq<byte>, ids: seq<nat>)
    requires Shape(s) && Granted(s, d, |buf|, ids) && NoRepeat(ids)
    ensures PlanFor(s, d, |buf|).first <= |buf|
    ensures Gather(WriteTo(s, d, buf, ids), ids) == buf[PlanFor(s, d, |buf|).first..]
  {
    PlanBounds(s, d, |buf|);
    var p, t := PlanFor(s, d, |buf|), FileTail(s, d);
    CalcWriteSplits(s.chunkSize, if t.Some? then Some(s.metas[t.value]) else None, |buf|);
    PutChunksGather(Attach(s, d, buf[..p.first], ids), d, ids, 0, buf[p.first..], p.last);
    assert ids[0..] == ids;
  }

  lemma JoinAt<T>(a: seq<T>, b: seq<T>, k: nat)
    requires k <= |b|
    ensures (a + b[..k]) + b[k..] == a + b
  {
  }

  /** A write leaves every other file as it is, whatever chunks it is given. */
  lemma WriteKeepsOthers(s: Fs, d: Digest, buf: seq<byte>, ids: seq<nat>, e: Digest)
    requires Valid(s) && Granted(s, d, |buf|, ids) && e != d
    ensures Content(WriteTo(s, d, buf, ids), e) == Content(s, e)
  {
    var s' := WriteTo(s, d, buf, ids);
    hide Gather, PlanFor, WriteTo, Granted, Valid, FreshIds, FileIds, Kept;
    WriteLeaves(s, d, buf, ids);
    FileIdsAfter(s, s', d, buf, ids, e);
    OldBytesAfter(s, s', d, buf, ids, e);
    assert FileIds(s, e) + [] == FileIds(s, e);
  }

  /** What the written file holds: what it held, the filled tail, and the fresh chunks that can be reached. */
  lemma WrittenFile(s: Fs, s': Fs, d: Digest, buf: seq<byte>, ids: seq<nat>)
    requires Kept(s, s', d, buf, ids)
    ensures PlanFor(s, d, |buf|).first <= |buf|
    ensures Content(s', d) == Content(s, d) + buf[..PlanFor(s, d, |buf|).first] + Gather(s', FreshIds(s', ids))
  {
    KeptShape(s, s', d, buf, ids);
    hide Kept, FreshIds, FileIds, PlanFor, Gather;
    OldBytesAfter(s, s', d, buf, ids, d);
    FileIdsAfter(s, s', d, buf, ids, d);
    GatherConcat(s', FileIds(s, d), FreshIds(s', ids));
  }

  /** A write that was given distinct chunks appends exactly its buffer to its file. */
  lemma WriteAppends(s: Fs, d: Digest, buf: seq<byte>, ids: seq<nat>)
    requires Valid(s) && Granted(s, d, |buf|, ids) && NoRepeat(ids)
    ensures Content(WriteTo(s, d, buf, ids), d) == Content(s, d) + buf
  {
    var s' := WriteTo(s, d, buf, ids);
    hide Content, Gather, PlanFor, WriteTo, Granted, Valid, FreshIds;
    WriteLeaves(s, d, buf, ids);
    WrittenFile(s, s', d, buf, ids);
    FreshIdsAre(s, s', d, buf, ids);
    FreshBytesAfter(s, d, buf, ids);
    JoinAt(Content(s, d), buf, PlanFor(s, d, |buf|).first);
  }

  // ----- What writes without repetition keep ------------------------------------------------------------

  /** A used chunk links to a used chunk or to none. */
  lemma LinksToUsed(s: Fs, c: nat)
    requires Valid(s) && c < |s.metas| && s.metas[c].isUsed
    ensures var next := s.metas[c].next;
            next == INVALID_CHUNKID || (next < |s.metas| && s.metas[next].isUsed)
  {
    var walk := Chain(s.metas, c, |s.metas|);
    assert Ends(s.metas, c) && LinkAt(s.metas, walk, 0);
    assert |walk| > 1 ==> LinkAt(s.metas, walk, 1);
  }

  /**
   Where a chunk links after the write: fresh ones to the next fresh one, old ones as before or to the first fresh one.
   */
  lemma NextAfter(s: Fs, s': Fs, d: Digest, buf: seq<byte>, ids: seq<nat>, c: nat) returns (j: nat)
    requires Kept(s, s', d, buf, ids) && NoRepeat(ids) && c < |s.metas| && s'.metas[c].isUsed
    ensures c in ids ==>
              j < |ids| && ids[j] == c && s'.metas[c].next == if j + 1 < |ids| then ids[j + 1] else INVALID_CHUNKID
    ensures c !in ids ==>
              && s.metas[c].isUsed
              && s'.metas[c].next == if c == ChunkTail(s, d) && ids != [] then ids[0] else s.metas[c].next
  {
    j := 0;
    if c in ids {
      j :| 0 <= j < |ids| && ids[j] == c;
      assert RecordAt(s, s', d, buf, ids, j);
    } else {
      assert KeptAt(s, s', d, buf, ids, c);
    }
  }

  lemma IdleGrant(s: Fs, s': Fs, d: Digest, buf: seq<byte>, ids: seq<nat>)
    requires Kept(s, s', d, buf, ids)
    ensures |s.metas| <= INVALID_CHUNKID
    ensures forall i | 0 <= i < |ids| :: ids[i] < |s.metas| && !s.metas[ids[i]].isUsed
  {}

  lemma TidyLinks(s: Fs, a: nat, b: nat)
    requires Shape(s) && Tidy(s) && a < |s.metas| && b < |s.metas|
    ensures LinkApart(s.metas, a, b)
  {}

  lemma LinksApartAfter(s: Fs, s': Fs, d: Digest, buf: seq<byte>, ids: seq<nat>, a: nat, b: nat)
    requires Kept(s, s', d, buf, ids) && NoRepeat(ids) && Tidy(s) && a < |s.metas| && b < |s.metas|
    ensures LinkApart(s'.metas, a, b)
  {
    hide Kept, Valid, Tidy, Granted, ChunkTail;
    KeptShape(s, s', d, buf, ids);
    if a != b && s'.metas[a].isUsed && s'.metas[b].isUsed {
      var j := NextAfter(s, s', d, buf, ids, a);
      var k := NextAfter(s, s', d, buf, ids, b);
      IdleGrant(s, s', d, buf, ids);
      TidyLinks(s, a, b);
      if a !in ids {
        LinksToUsed(s, a);
      }
      if b !in ids {
        LinksToUsed(s, b);
      }
    }
  }

  /** Distinct chunks leave the lists disjoint and every chunk with its file. */
  lemma WriteKeepsTidy(s: Fs, d: Digest, buf: seq<byte>, ids: seq<nat>)
    requires Valid(s) && Tidy(s) && Granted(s, d, |buf|, ids) && NoRepeat(ids)
    ensures Tidy(WriteTo(s, d, buf, ids))
  {
    var s' := WriteTo(s, d, buf, ids);
    WriteLeaves(s, d, buf, ids);
    assert Shape(s);
    hide WriteTo, Valid, Granted, LinkApart, Kept, FileIds;
    forall a, b | 0 <= a < |s'.metas| && 0 <= b < |s'.metas|
      ensures LinkApart(s'.metas, a, b)
    {
      LinksApartAfter(s, s', d, buf, ids, a, b);
    }
    forall c | 0 <= c < |s'.metas|
      ensures OwnedAt(s', c)
    {
      OwnedAtAfter(s, s', d, buf, ids, c);
    }
  }

  lemma OwnedAtAfter(s: Fs, s': Fs, d: Digest, buf: seq<byte>, ids: seq<nat>, c: nat)
    requires Kept(s, s', d, buf, ids) && NoRepeat(ids) && Tidy(s) && c < |s.metas|
    ensures OwnedAt(s', c)
  {
    if s'.metas[c].isUsed {
      UsedAfter(s, s', d, buf, ids, c);
      FileIdsAfter(s, s', d, buf, ids, s'.metas[c].sha1);
      FreshIdsAre(s, s', d, buf, ids);
      if c !in ids {
        assert OwnedAt(s, c) && KeptAt(s, s', d, buf, ids, c);
      }
    }
  }
}
