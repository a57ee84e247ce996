/**
 What a repeated chunk costs: a write whose allocation names a chunk twice loses bytes of its own file, and of no other.
 Together with FsAppend this says exactly when a granted write appends its buffer.
 */
module FsRepeat {
  import opened Common
  import opened FsModel
  import opened FsWrite
  import opened FsBitmap
  import opened FsAppend
  import opened FsRefine

  lemma {:induction false} GatherBound(s: Fs, ids: seq<nat>)
    requires Shape(s) && InRange(ids, |s.metas|)
    ensures |Gather(s, ids)| <= |ids| * s.chunkSize
  {
    if ids != [] {
      GatherBound(s, ids[1..]);
      assert |ids| * s.chunkSize == (|ids| - 1) * s.chunkSize + s.chunkSize;
    }
  }

  lemma FewerChunksFewerBytes(s: Fs, s': Fs, d: Digest, len: nat, added: seq<nat>)
    requires Shape(s) && Shape(s') && s'.chunkSize == s.chunkSize && InRange(added, |s'.metas|)
    requires |added| < PlanFor(s, d, len).need
    ensures PlanFor(s, d, len).first <= len && |Gather(s', added)| < len - PlanFor(s, d, len).first
  {
    hide Gather, CalcWrite;
    CalcWriteSplits(s.chunkSize, TailMeta(s, FileTail(s, d)), len);
    GatherBound(s', added);
    FewerIsLess(|added|, PlanFor(s, d, len).need, s.chunkSize, PlanFor(s, d, len).last);
  }

  lemma FewerIsLess(a: nat, b: nat, n: nat, last: nat)
    requires a < b && last > 0
    ensures a * n < (b - 1) * n + last
  {
    var spare := b - 1 - a;
    assert (b - 1) * n == a * n + spare * n;
  }

  /** A write whose allocation repeats a chunk leaves the file shorter than it should be. */
  lemma RepeatLosesBytes(s: Fs, d: Digest, buf: seq<byte>, ids: seq<nat>)
    requires Valid(s) && Granted(s, d, |buf|, ids) && !NoRepeat(ids)
    ensures |Content(WriteTo(s, d, buf, ids), d)| < |Content(s, d)| + |buf|
  {
    var s' := WriteTo(s, d, buf, ids);
    WriteLeaves(s, d, buf, ids);
    WrittenFile(s, s', d, buf, ids);
    FreshIdsAre(s, s', d, buf, ids);
    assert Shape(s);
    hide Valid, Kept, Content, WriteTo, FreshIds;
    FewerChunksFewerBytes(s, s', d, |buf|, FreshIds(s', ids));
  }

  /** A granted write appends its buffer to its file if and only if its allocation repeats no chunk. */
  lemma AppendsExactlyWhenDistinct(s: Fs, d: Digest, buf: seq<byte>, ids: seq<nat>)
    requires Valid(s) && Granted(s, d, |buf|, ids)
    ensures Content(WriteTo(s, d, buf, ids), d) == Content(s, d) + buf <==> NoRepeat(ids)
  {
    if NoRepeat(ids) {
      WriteAppends(s, d, buf, ids);
    } else {
      RepeatLosesBytes(s, d, buf, ids);
    }
  }

  // ----- In terms of the state and the draws ----------------------------------------------------------

  /** The chunk that a write to a new file takes without drawing. */
  ghost function WriteLead(s: Fs, d: Digest): seq<nat>
    requires Shape(s)
  {
    LeadOf(TailMeta(s, FileTail(s, d)), ChunkidOf(FileTail(s, d)))
  }

  /** At least half of the chunks are counted as used, nothing needs to be drawn, or the draws are apart. */
  ghost predicate SafeDraws(s: Fs, d: Digest, len: nat, draw: nat -> nat)
    requires Shape(s)
  {
    var need, missing := PlanFor(s, d, len).need, PlanFor(s, d, len).need - |WriteLead(s, d)|;
    || 2 * s.count % TWO32 >= |s.metas|
    || missing <= 0
    || DrawsApart(s.have, ChunkidOf(FileTail(s, d)), |s.metas|, draw, need, missing)
  }

  /** Below half full, with chunks to take: the grant is the result of the drawing variant. */
  lemma FastGrantExactly(s: Fs, d: Digest, len: nat, draw: nat -> nat)
    requires Valid(s) && Grant(s, d, len, draw).Some?
    requires 2 * s.count % TWO32 < |s.metas| && PlanFor(s, d, len).need > 0
    ensures NoRepeat(Grant(s, d, len, draw).value) <==> SafeDraws(s, d, len, draw)
  {
    hide *;
    FastGrantIs(s, d, len, draw);
    var lead, tail, need := WriteLead(s, d), ChunkidOf(FileTail(s, d)), PlanFor(s, d, len).need;
    FastDistinctExactly(s.have, s.count, |s.metas|, lead, tail, need, draw);
  }

  lemma FastGrantIs(s: Fs, d: Digest, len: nat, draw: nat -> nat)
    requires Valid(s) && 2 * s.count % TWO32 < |s.metas| && PlanFor(s, d, len).need > 0
    ensures Shape(s) && |s.metas| > 0
    ensures var lead, tail, need := WriteLead(s, d), ChunkidOf(FileTail(s, d)), PlanFor(s, d, len).need;
            && Grant(s, d, len, draw) == Allocate(s.have, s.count, |s.metas|, lead, tail, need, draw)
            && ProperLead(s.have, |s.metas|, lead, tail)
            && (SafeDraws(s, d, len, draw) <==>
                need <= |lead| || DrawsApart(s.have, tail, |s.metas|, draw, need, need - |lead|))
  {
    hide FileTail, PlanFor, Allocate, DrawsApart, ProperLead;
    TailIsProper(s, d);
  }

  lemma GrantDistinctExactly(s: Fs, d: Digest, len: nat, draw: nat -> nat)
    requires Valid(s) && Grant(s, d, len, draw).Some?
    ensures NoRepeat(Grant(s, d, len, draw).value) <==> SafeDraws(s, d, len, draw)
  {
    assert Shape(s) && |s.metas| > 0;
    if 2 * s.count % TWO32 >= |s.metas| {
      assert SafeDraws(s, d, len, draw);
      hide *;
      SteadyGrantIsDistinct(s, d, len, draw);
    } else if PlanFor(s, d, len).need > 0 {
      hide *;
      FastGrantExactly(s, d, len, draw);
    } else {
      hide Valid, FileTail, Allocate;
      PlanBounds(s, d, len);
    }
  }

  /**
   Exactly when a write appends its buffer, told from the store and the draws before it: it is refused, and changes
   nothing, only for want of chunks; it is granted and the draws are safe; or it is granted and loses bytes.
   */
  lemma WriteAppendsExactly(s: Fs, d: Digest, buf: seq<byte>, draw: nat -> nat)
    requires Valid(s)
    ensures var (s', n) := WriteStep(s, d, buf, draw);
            if n == -1 then s' == s && |s.metas| - |s.have| < PlanFor(s, d, |buf|).need
            else
              && n == |buf|
              && (Content(s', d) == Content(s, d) + buf <==> SafeDraws(s, d, |buf|, draw))
              && (!SafeDraws(s, d, |buf|, draw) ==> |Content(s', d)| < |Content(s, d)| + |buf|)
  {
    assert Shape(s);
    hide Content, WriteTo, SafeDraws, PlanFor, Ends, Packed;
    GrantIsUsable(s, d, |buf|, draw);
    if Grant(s, d, |buf|, draw).Some? {
      var ids := Grant(s, d, |buf|, draw).value;
      GrantDistinctExactly(s, d, |buf|, draw);
      AppendsExactlyWhenDistinct(s, d, buf, ids);
      if !NoRepeat(ids) {
        RepeatLosesBytes(s, d, buf, ids);
      }
    }
  }

  /** A write to a store that is half full or fuller is refused for want of chunks or appends its buffer, always. */
  lemma HalfFullWriteAppends(s: Fs, d: Digest, buf: seq<byte>, draw: nat -> nat)
    requires Valid(s) && s.count < 0x8000_0000 && |s.metas| <= 2 * s.count
    ensures var (s', n) := WriteStep(s, d, buf, draw);
            if n == -1 then s' == s && |s.metas| - |s.have| < PlanFor(s, d, |buf|).need
            else n == |buf| && Content(s', d) == Content(s, d) + buf
  {
    assert Shape(s);
    hide *;
    WriteAppendsExactly(s, d, buf, draw);
    HalfFullIsSafe(s, d, |buf|, draw);
  }

  lemma HalfFullIsSafe(s: Fs, d: Digest, len: nat, draw: nat -> nat)
    requires Shape(s) && s.count < 0x8000_0000 && |s.metas| <= 2 * s.count
    ensures SafeDraws(s, d, len, draw)
  {
  }
}
