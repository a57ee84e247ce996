/**
 Whole runs. The reference is a map from digests to byte strings with a budget of chunks; every run of the store from a
 fresh index whose allocations are distinct gives the same answers and ends with the same files. And whatever the
 allocator hands out, a file keeps its bytes as long as its own allocations are distinct.
 */
module FsRuns {
  import opened Common
  import opened FsModel
  import opened FsWrite
  import opened FsBitmap
  import opened FsAppend
  import opened FsRefine
  import opened FsRead

  /** `Reload` maps an existing index file again: everything stays but the allocation counter. */
  datatype Op =
    | Write(d: Digest, buf: seq<byte>, draw: nat -> nat)
    | Read(d: Digest, len: nat, offset: nat)
    | Reload

  datatype Answer = Wrote(n: int) | Got(r: ReadResult) | Reloaded

  // ----- The reference ----------------------------------------------------------------------------

  datatype Files = Files(content: map<Digest, seq<byte>>, used: nat)

  function Get(f: Files, d: Digest): seq<byte> {
    if d in f.content then f.content[d] else []
  }

  /** An append is refused exactly when the chunks it would add are not left. */
  function FilesStep(f: Files, chunkSize: nat, chunkNum: nat, op: Op): (Files, Answer)
    requires chunkSize > 0
  {
    match op
    case Write(d, buf, _) =>
      var grow := Growth(|Get(f, d)|, |buf|, chunkSize);
      if grow < 0 || f.used + grow > chunkNum then (f, Wrote(-1))
      else (Files(f.content[d := Get(f, d) + buf], f.used + grow), Wrote(|buf|))
    case Read(d, len, offset) =>
      if Get(f, d) == [] || offset > |Get(f, d)| then (f, Got(Failed))
      else (f, Got(Bytes(Slice(Get(f, d), len, offset))))
    case Reload => (f, Reloaded)
  }

  // ----- The store ----------------------------------------------------------------------------------

  /** The index and data file as they are created: all zero. */
  ghost function Fresh(chunkSize: nat, chunkNum: nat, bucket: Digest -> nat): (s: Fs)
    requires 0 < chunkSize && 0 < chunkNum <= INVALID_CHUNKID && forall d :: bucket(d) < chunkNum
    ensures Valid(s) && Tidy(s) && Counted(s) && forall d :: Content(s, d) == []
  {
    Fs(chunkSize, bucket,
       seq(chunkNum, _ => MetaInfo(false, seq(20, _ => 0), 0, 0)),
       seq(chunkNum, _ => seq(chunkSize, _ => 0)), {}, 0)
  }

  /** Sizes are 32 bits wide, and a read does not index past the chunk list. */
  ghost predicate Possible(s: Fs, op: Op)
    requires Shape(s)
  {
    match op
    case Write(_, buf, _) => |buf| < TWO32
    case Read(d, len, offset) => len < TWO32 && StartExists(s, d, offset)
    case Reload => true
  }

  ghost function Step(s: Fs, op: Op): (Fs, Answer)
    requires Valid(s) && Possible(s, op)
  {
    match op
    case Write(d, buf, draw) => (WriteStep(s, d, buf, draw).0, Wrote(WriteStep(s, d, buf, draw).1))
    case Read(d, len, offset) => (s, Got(ReadStep(s, d, len, offset)))
    case Reload => (s.(count := 0), Reloaded)
  }

  /** What the refinement asks besides: distinct draws for a write, a faithful request for a read. */
  ghost predicate Admissible(s: Fs, op: Op)
    requires Shape(s) && Possible(s, op)
  {
    match op
    case Write(d, buf, draw) => DistinctGrant(s, d, |buf|, draw)
    case Read(d, len, offset) =>
      offset <= |Content(s, d)| ==> ReadIsFaithful(s.chunkSize, |Content(s, d)|, len, offset)
    case Reload => true
  }

  lemma WriteStepKeeps(s: Fs, d: Digest, buf: seq<byte>, draw: nat -> nat)
    requires Valid(s)
    ensures var s' := WriteStep(s, d, buf, draw).0;
            Valid(s') && s'.chunkSize == s.chunkSize && |s'.metas| == |s.metas| && s'.bucket == s.bucket
  {
    assert Shape(s);
    hide WriteTo, PlanFor, Valid, Granted;
    GrantIsUsable(s, d, |buf|, draw);
    if Grant(s, d, |buf|, draw).Some? {
      WriteKeepsValid(s, d, buf, Grant(s, d, |buf|, draw).value);
    }
  }

  /** Every step leaves a well-formed store of the same size, whatever is drawn. */
  lemma StepKeeps(s: Fs, op: Op)
    requires Valid(s) && Possible(s, op)
    ensures var s' := Step(s, op).0;
            Valid(s') && s'.chunkSize == s.chunkSize && |s'.metas| == |s.metas| && s'.bucket == s.bucket
  {
    match op
    case Write(d, buf, draw) => WriteStepKeeps(s, d, buf, draw);
    case Read(_, _, _) =>
    case Reload => ReloadKeeps(s);
  }

  /** A reload keeps every file; the counter then agrees with the bitmap only if the store is empty. */
  lemma ReloadKeeps(s: Fs)
    requires Valid(s)
    ensures Valid(s.(count := 0)) && (Tidy(s) ==> Tidy(s.(count := 0)))
    ensures forall d :: Content(s.(count := 0), d) == Content(s, d)
    ensures Counted(s.(count := 0)) <==> s.have == {}
  {
    var s' := s.(count := 0);
    forall d
      ensures FileIds(s', d) == FileIds(s, d) && Content(s', d) == Content(s, d)
    {
      GatherSame(s, s', FileIds(s, d));
    }
    forall d
      ensures Packed(s', d)
    {
      assert Packed(s, d);
    }
    if Tidy(s) {
      forall c | 0 <= c < |s.metas|
        ensures OwnedAt(s', c)
      {
        assert OwnedAt(s, c);
      }
    }
  }

  // ----- One step of both -----------------------------------------------------------------------------

  /** The store holds exactly the reference's files, in as many chunks. */
  ghost predicate Matches(s: Fs, f: Files)
    requires Shape(s)
  {
    (forall d :: Content(s, d) == Get(f, d)) && |s.have| == f.used
  }

  /** A granted write, stated without its allocation: one file grows, and so does the chunk count. */
  ghost predicate Appended(s: Fs, s': Fs, d: Digest, buf: seq<byte>)
    requires Shape(s) && Shape(s')
  {
    && s'.chunkSize == s.chunkSize && |s'.metas| == |s.metas|
    && (forall e :: Content(s', e) == if e == d then Content(s, d) + buf else Content(s, e))
    && |s'.have| == |s.have| + Growth(|Content(s, d)|, |buf|, s.chunkSize)
    && |s'.have| <= |s.metas|
  }

  lemma HaveGrows(s: Fs, d: Digest, buf: seq<byte>, ids: seq<nat>)
    requires Valid(s) && Granted(s, d, |buf|, ids) && NoRepeat(ids)
    ensures |WriteTo(s, d, buf, ids).have| == |s.have| + |ids|
    ensures Counted(s) ==> Counted(WriteTo(s, d, buf, ids))
  {
    HaveAfter(s, d, buf, ids);
    SetOfSeqSize(ids);
    assert s.have !! Elements(ids);
    DistinctFit(ids, s.have, |s.metas|);
  }

  lemma GrantedIsAppend(s: Fs, d: Digest, buf: seq<byte>, ids: seq<nat>)
    requires Valid(s) && Granted(s, d, |buf|, ids) && NoRepeat(ids)
    requires |ids| <= |s.metas| - |s.have|
    ensures Appended(s, WriteTo(s, d, buf, ids), d, buf)
  {
    hide WriteTo, Content, PlanFor, Pieces;
    HaveGrows(s, d, buf, ids);
    NeedIsGrowth(s, d, |buf|);
    forall e
      ensures Content(WriteTo(s, d, buf, ids), e) == if e == d then Content(s, d) + buf else Content(s, e)
    {
      if e == d {
        WriteAppends(s, d, buf, ids);
      } else {
        WriteKeepsOthers(s, d, buf, ids, e);
      }
    }
  }

  /** An append, or a refusal for which the chunks are not left. */
  ghost predicate WriteOutcome(s: Fs, s': Fs, n: int, d: Digest, buf: seq<byte>)
    requires Shape(s) && Shape(s')
  {
    var used := |s.have| + Growth(|Content(s, d)|, |buf|, s.chunkSize);
    && Growth(|Content(s, d)|, |buf|, s.chunkSize) >= 0
    && (used > |s.metas| ==> s' == s && n == -1)
    && (used <= |s.metas| ==> Appended(s, s', d, buf) && n == |buf|)
  }

  lemma GrantedOutcome(s: Fs, d: Digest, buf: seq<byte>, ids: seq<nat>)
    requires Valid(s) && Granted(s, d, |buf|, ids) && NoRepeat(ids)
    requires |ids| <= |s.metas| - |s.have|
    ensures InRange(ids, |s.metas|)
    ensures var s' := WriteTo(s, d, buf, ids);
            Valid(s') && WriteOutcome(s, s', |buf|, d, buf) && (Counted(s) ==> Counted(s')) && (Tidy(s) ==> Tidy(s'))
  {
    WriteKeepsValid(s, d, buf, ids);
    HaveGrows(s, d, buf, ids);
    GrantedIsAppend(s, d, buf, ids);
    NeedIsGrowth(s, d, |buf|);
    if Tidy(s) {
      WriteKeepsTidy(s, d, buf, ids);
    }
    assert |ids| == PlanFor(s, d, |buf|).need;
    hide Content, FileIds, PlanFor, Pieces, WriteTo, Tidy, Valid, Growth;
  }

  lemma WriteIsAppend(s: Fs, d: Digest, buf: seq<byte>, draw: nat -> nat)
    requires Valid(s) && DistinctGrant(s, d, |buf|, draw)
    ensures Valid(WriteStep(s, d, buf, draw).0)
    ensures WriteOutcome(s, WriteStep(s, d, buf, draw).0, WriteStep(s, d, buf, draw).1, d, buf)
    ensures Counted(s) ==> Counted(WriteStep(s, d, buf, draw).0)
    ensures Tidy(s) ==> Tidy(WriteStep(s, d, buf, draw).0)
  {
    assert Shape(s);
    GrantIsUsable(s, d, |buf|, draw);
    NeedIsGrowth(s, d, |buf|);
    hide Content, FileIds, PlanFor, Pieces, WriteTo, Tidy, Valid, Growth, Grant, Granted;
    if Grant(s, d, |buf|, draw).Some? {
      GrantedOutcome(s, d, buf, Grant(s, d, |buf|, draw).value);
    }
  }

  /** The reference after an append that fits. */
  function Grown(f: Files, d: Digest, buf: seq<byte>, used: nat): Files {
    Files(f.content[d := Get(f, d) + buf], used)
  }

  lemma GrownGet(f: Files, d: Digest, buf: seq<byte>, used: nat, e: Digest)
    ensures Get(Grown(f, d, buf, used), e) == if e == d then Get(f, d) + buf else Get(f, e)
  {
  }

  lemma AppendMatches(s: Fs, s': Fs, f: Files, d: Digest, buf: seq<byte>)
    requires Shape(s) && Shape(s') && Matches(s, f) && Appended(s, s', d, buf)
    ensures Matches(s', Grown(f, d, buf, |s'.have|))
  {
    forall e
      ensures Content(s', e) == Get(Grown(f, d, buf, |s'.have|), e)
    {
      assert Content(s, e) == Get(f, e) && Content(s, d) == Get(f, d);
      GrownGet(f, d, buf, |s'.have|, e);
    }
  }

  lemma OutcomeRefines(s: Fs, s': Fs, n: int, f: Files, d: Digest, buf: seq<byte>, draw: nat -> nat)
    requires Shape(s) && Shape(s') && Matches(s, f) && WriteOutcome(s, s', n, d, buf)
    ensures var (f', a) := FilesStep(f, s.chunkSize, |s.metas|, Write(d, buf, draw));
            Matches(s', f') && Wrote(n) == a && s'.chunkSize == s.chunkSize && |s'.metas| == |s.metas|
  {
    hide Content, Pieces, Get;
    assert Content(s, d) == Get(f, d);
    if |s.have| + Growth(|Content(s, d)|, |buf|, s.chunkSize) <= |s.metas| {
      AppendMatches(s, s', f, d, buf);
    }
  }

  lemma StepRefines(s: Fs, f: Files, op: Op)
    requires Valid(s) && Matches(s, f) && Possible(s, op) && Admissible(s, op) && s.chunkSize <= TWO32
    ensures Valid(Step(s, op).0)
    ensures Matches(Step(s, op).0, FilesStep(f, s.chunkSize, |s.metas|, op).0)
    ensures Step(s, op).1 == FilesStep(f, s.chunkSize, |s.metas|, op).1
  {
    StepKeeps(s, op);
    match op
    case Write(d, buf, draw) =>
      WriteIsAppend(s, d, buf, draw);
      var (s', n) := WriteStep(s, d, buf, draw);
      OutcomeRefines(s, s', n, f, d, buf, draw);
    case Read(d, len, offset) => ReadMatches(s, f, d, len, offset);
    case Reload => ReloadKeeps(s);
  }

  lemma ReadMatches(s: Fs, f: Files, d: Digest, len: nat, offset: nat)
    requires Valid(s) && Matches(s, f) && s.chunkSize <= TWO32
    requires Possible(s, Read(d, len, offset)) && Admissible(s, Read(d, len, offset))
    ensures FilesStep(f, s.chunkSize, |s.metas|, Read(d, len, offset)) == (f, Got(ReadStep(s, d, len, offset)))
  {
    assert Content(s, d) == Get(f, d);
    ReadFails(s, d, len, offset);
    if ReadStep(s, d, len, offset).Bytes? {
      ReadExact(s, d, len, offset);
    }
  }

  // ----- Whole runs -----------------------------------------------------------------------------------

  ghost predicate PossibleRun(s: Fs, ops: seq<Op>)
    requires Valid(s)
    decreases ops
  {
    ops != [] ==> Possible(s, ops[0]) && (StepKeeps(s, ops[0]); PossibleRun(Step(s, ops[0]).0, ops[1..]))
  }

  /** Every state of a run is well-formed, whatever is drawn. */
  ghost function Run(s: Fs, ops: seq<Op>): (r: (Fs, seq<Answer>))
    requires Valid(s) && PossibleRun(s, ops)
    ensures Valid(r.0) && r.0.chunkSize == s.chunkSize && |r.0.metas| == |s.metas| && r.0.bucket == s.bucket
    ensures |r.1| == |ops|
    decreases ops
  {
    if ops == [] then (s, [])
    else
      StepKeeps(s, ops[0]);
      var (s1, a) := Step(s, ops[0]);
      var (s2, rest) := Run(s1, ops[1..]);
      (s2, [a] + rest)
  }

  ghost predicate AdmissibleRun(s: Fs, ops: seq<Op>)
    requires Valid(s)
    decreases ops
  {
    ops != [] ==>
      && Possible(s, ops[0]) && Admissible(s, ops[0])
      && (StepKeeps(s, ops[0]); AdmissibleRun(Step(s, ops[0]).0, ops[1..]))
  }

  lemma {:induction false} AdmissibleIsPossible(s: Fs, ops: seq<Op>)
    requires Valid(s) && AdmissibleRun(s, ops)
    ensures PossibleRun(s, ops)
    decreases ops
  {
    if ops != [] {
      StepKeeps(s, ops[0]);
      AdmissibleIsPossible(Step(s, ops[0]).0, ops[1..]);
    }
  }

  function FilesRun(f: Files, chunkSize: nat, chunkNum: nat, ops: seq<Op>): (Files, seq<Answer>)
    requires chunkSize > 0
    decreases ops
  {
    if ops == [] then (f, [])
    else
      var (f1, a) := FilesStep(f, chunkSize, chunkNum, ops[0]);
      var (f2, rest) := FilesRun(f1, chunkSize, chunkNum, ops[1..]);
      (f2, [a] + rest)
  }

  lemma {:induction false} RunRefines(s: Fs, f: Files, ops: seq<Op>)
    requires Valid(s) && Matches(s, f) && PossibleRun(s, ops) && AdmissibleRun(s, ops) && s.chunkSize <= TWO32
    ensures Matches(Run(s, ops).0, FilesRun(f, s.chunkSize, |s.metas|, ops).0)
    ensures Run(s, ops).1 == FilesRun(f, s.chunkSize, |s.metas|, ops).1
    decreases ops
  {
    if ops != [] {
      hide Valid, Matches, FilesStep, Step, Possible, Admissible;
      StepKeeps(s, ops[0]);
      StepRefines(s, f, ops[0]);
      RunRefines(Step(s, ops[0]).0, FilesStep(f, s.chunkSize, |s.metas|, ops[0]).0, ops[1..]);
    }
  }

  /** From a fresh index every admissible run answers as the map does and ends with the map's files. */
  lemma FreshRunRefines(chunkSize: nat, chunkNum: nat, bucket: Digest -> nat, ops: seq<Op>)
    requires 0 < chunkSize <= TWO32 && 0 < chunkNum <= INVALID_CHUNKID && forall d :: bucket(d) < chunkNum
    requires AdmissibleRun(Fresh(chunkSize, chunkNum, bucket), ops)
    ensures PossibleRun(Fresh(chunkSize, chunkNum, bucket), ops)
    ensures var (s, answers) := Run(Fresh(chunkSize, chunkNum, bucket), ops);
            var (f, expected) := FilesRun(Files(map[], 0), chunkSize, chunkNum, ops);
            Valid(s) && Matches(s, f) && answers == expected
  {
    var s := Fresh(chunkSize, chunkNum, bucket);
    AdmissibleIsPossible(s, ops);
    RunRefines(s, Files(map[], 0), ops);
  }

  // ----- Whatever is drawn ---------------------------------------------------------------------------------

  /** The allocations of the writes to d repeat no chunk; those of other writes may. */
  ghost predicate OwnDistinct(s: Fs, ops: seq<Op>, d: Digest)
    requires Valid(s) && PossibleRun(s, ops)
    decreases ops
  {
    ops != [] ==>
      && (ops[0].Write? && ops[0].d == d ==> DistinctGrant(s, d, |ops[0].buf|, ops[0].draw))
      && (StepKeeps(s, ops[0]); OwnDistinct(Step(s, ops[0]).0, ops[1..], d))
  }

  /** File d after an operation that got this answer: the buffer is added if the write was not refused. */
  function ContentAfter(content: seq<byte>, d: Digest, op: Op, a: Answer): seq<byte> {
    if op.Write? && op.d == d && a != Wrote(-1) then content + op.buf else content
  }

  /** The answer that an operation on file d must get when the file holds `content`. */
  predicate AnswerFits(chunkSize: nat, content: seq<byte>, d: Digest, op: Op, a: Answer)
    requires chunkSize > 0
  {
    match op
    case Write(e, buf, _) => a == Wrote(-1) || a == Wrote(|buf|)
    case Read(e, len, offset) =>
      e == d ==>
        if content == [] || offset > |content| then a == Got(Failed)
        else ReadIsFaithful(chunkSize, |content|, len, offset) ==> a == Got(Bytes(Slice(content, len, offset)))
    case Reload => a == Reloaded
  }

  /** The answers of a run fit a file that starts with `content` and ends with `end`. */
  predicate FileRun(chunkSize: nat, content: seq<byte>, d: Digest, ops: seq<Op>, answers: seq<Answer>, end: seq<byte>)
    requires chunkSize > 0 && |answers| == |ops|
    decreases ops
  {
    if ops == [] then end == content
    else
      && AnswerFits(chunkSize, content, d, ops[0], answers[0])
      && FileRun(chunkSize, ContentAfter(content, d, ops[0], answers[0]), d, ops[1..], answers[1..], end)
  }

  lemma WriteFits(s: Fs, d: Digest, op: Op)
    requires Valid(s) && Possible(s, op) && op.Write?
    requires op.d == d ==> DistinctGrant(s, d, |op.buf|, op.draw)
    ensures AnswerFits(s.chunkSize, Content(s, d), d, op, Step(s, op).1)
    ensures Shape(Step(s, op).0)
    ensures Content(Step(s, op).0, d) == ContentAfter(Content(s, d), d, op, Step(s, op).1)
  {
    var e, buf, draw := op.d, op.buf, op.draw;
    StepKeeps(s, op);
    hide Content, WriteTo, Valid, Granted;
    GrantIsUsable(s, e, |buf|, draw);
    if Grant(s, e, |buf|, draw).Some? {
      var ids := Grant(s, e, |buf|, draw).value;
      if e == d {
        WriteAppends(s, d, buf, ids);
      } else {
        WriteKeepsOthers(s, e, buf, ids, d);
      }
    }
  }

  lemma StepFits(s: Fs, d: Digest, op: Op)
    requires Valid(s) && Possible(s, op) && s.chunkSize <= TWO32
    requires op.Write? && op.d == d ==> DistinctGrant(s, d, |op.buf|, op.draw)
    ensures AnswerFits(s.chunkSize, Content(s, d), d, op, Step(s, op).1)
    ensures Shape(Step(s, op).0)
    ensures Content(Step(s, op).0, d) == ContentAfter(Content(s, d), d, op, Step(s, op).1)
  {
    if op.Write? {
      WriteFits(s, d, op);
    } else if op.Reload? {
      ReloadKeeps(s);
    } else {
      ReadFails(s, op.d, op.len, op.offset);
      if op.d == d && ReadStep(s, d, op.len, op.offset).Bytes? {
        ReadExact(s, d, op.len, op.offset);
      }
    }
  }

  /**
   In any run, whatever the allocator hands out: a file whose own allocations are distinct holds exactly what was
   written to it and reads back exactly, also when other files lose chunks, share its list or hang their chunks on a
   lost one.
   */
  lemma {:induction false} FileSurvives(s: Fs, ops: seq<Op>, d: Digest)
    requires Valid(s) && PossibleRun(s, ops) && OwnDistinct(s, ops, d) && s.chunkSize <= TWO32
    ensures FileRun(s.chunkSize, Content(s, d), d, ops, Run(s, ops).1, Content(Run(s, ops).0, d))
    decreases ops
  {
    if ops != [] {
      hide Valid, Content, AnswerFits, ContentAfter, Step, Possible;
      StepKeeps(s, ops[0]);
      StepFits(s, d, ops[0]);
      FileSurvives(Step(s, ops[0]).0, ops[1..], d);
    }
  }

  // ----- What every reachable state looks like ---------------------------------------------------------------

  /** No allocation of the run repeats a chunk; its reads are any. */
  ghost predicate AllDistinct(s: Fs, ops: seq<Op>)
    requires Valid(s) && PossibleRun(s, ops)
  {
    forall d :: OwnDistinct(s, ops, d)
  }

  lemma AllDistinctStep(s: Fs, ops: seq<Op>)
    requires Valid(s) && PossibleRun(s, ops) && AllDistinct(s, ops) && ops != []
    ensures Valid(Step(s, ops[0]).0) && PossibleRun(Step(s, ops[0]).0, ops[1..])
    ensures ops[0].Write? ==> DistinctGrant(s, ops[0].d, |ops[0].buf|, ops[0].draw)
    ensures AllDistinct(Step(s, ops[0]).0, ops[1..])
  {
    StepKeeps(s, ops[0]);
    hide Valid, Step, DistinctGrant;
    forall d
      ensures OwnDistinct(Step(s, ops[0]).0, ops[1..], d)
    {
      assert OwnDistinct(s, ops, d);
    }
    if ops[0].Write? {
      assert OwnDistinct(s, ops, ops[0].d);
    }
  }

  lemma StepKeepsTidy(s: Fs, op: Op)
    requires Valid(s) && Tidy(s) && Possible(s, op)
    requires op.Write? ==> DistinctGrant(s, op.d, |op.buf|, op.draw)
    ensures Shape(Step(s, op).0) && Tidy(Step(s, op).0)
    ensures Counted(s) && op != Reload ==> Counted(Step(s, op).0)
  {
    hide Tidy;
    if op.Write? {
      WriteIsAppend(s, op.d, op.buf, op.draw);
    } else if op.Reload? {
      ReloadKeeps(s);
    }
  }

  /**
   Over every run whose allocations are distinct, whatever it reads and however often it reloads, the lists stay
   disjoint and every used chunk is one of its file's; and the counter stays right if the run never reloads.
   */
  lemma {:induction false} RunCounts(s: Fs, ops: seq<Op>)
    requires Valid(s) && Tidy(s) && PossibleRun(s, ops) && AllDistinct(s, ops)
    ensures Tidy(Run(s, ops).0)
    ensures Counted(s) && Reload !in ops ==> Counted(Run(s, ops).0)
    decreases ops
  {
    if ops != [] {
      AllDistinctStep(s, ops);
      StepKeepsTidy(s, ops[0]);
      hide Valid, Step, DistinctGrant, Tidy, AllDistinct, Counted;
      RunCounts(Step(s, ops[0]).0, ops[1..]);
    }
  }

  /**
   From any used chunk the walk over the links ends, at a chunk without a successor, within as many steps as chunks.
   */
  lemma WalkEnds(s: Fs, c: nat)
    requires Valid(s) && c < |s.metas| && s.metas[c].isUsed
    ensures var walk := Chain(s.metas, c, |s.metas|);
            && walk != [] && walk[0] == c && |walk| <= |s.metas| && NoRepeat(walk)
            && s.metas[walk[|walk| - 1]].next == INVALID_CHUNKID
  {
    var walk := Chain(s.metas, c, |s.metas|);
    assert Ends(s.metas, c) && LinkAt(s.metas, walk, |walk| - 1);
    Pigeonhole(walk, |s.metas|);
  }

  /** The walk over the links from c repeats no chunk and stops where there is no link. */
  ghost predicate WalkStops(m: seq<MetaInfo>, c: nat) {
    var walk := Chain(m, c, |m|);
    walk != [] && NoRepeat(walk) && m[walk[|walk| - 1]].next == INVALID_CHUNKID
  }

  /**
   In every state that a run with distinct allocations reaches from a fresh index: a bit is set exactly when its record
   is in use, no used chunk is empty, only the last chunk of a file has room, the links are disjoint lists that end,
   every used chunk is found as one of its file, and the counter is the number of bits unless the run reloads.
   */
  lemma ReachableState(chunkSize: nat, chunkNum: nat, bucket: Digest -> nat, ops: seq<Op>)
    requires 0 < chunkSize && 0 < chunkNum <= INVALID_CHUNKID && forall d :: bucket(d) < chunkNum
    requires PossibleRun(Fresh(chunkSize, chunkNum, bucket), ops)
    requires AllDistinct(Fresh(chunkSize, chunkNum, bucket), ops)
    ensures var s := Run(Fresh(chunkSize, chunkNum, bucket), ops).0;
            && (forall c: nat :: c in s.have <==> c < |s.metas| && s.metas[c].isUsed)
            && (Reload !in ops ==> s.count == |s.have|)
            && (forall c | 0 <= c < |s.metas| && s.metas[c].isUsed :: s.metas[c].idleLen < s.chunkSize)
            && (forall d, i {:trigger FileIds(s, d)[i]} |
                  0 <= i < |FileIds(s, d)| - 1 :: s.metas[FileIds(s, d)[i]].idleLen == 0)
            && (forall a, b {:trigger s.metas[a], s.metas[b]} |
                  && 0 <= a < b < |s.metas| && s.metas[a].isUsed && s.metas[b].isUsed
                  && s.metas[a].next == s.metas[b].next ::
                  s.metas[a].next == INVALID_CHUNKID)
            && (forall c {:trigger WalkStops(s.metas, c)} |
                  0 <= c < |s.metas| && s.metas[c].isUsed :: WalkStops(s.metas, c))
            && (forall c {:trigger FileIds(s, s.metas[c].sha1)} |
                  0 <= c < |s.metas| && s.metas[c].isUsed :: c in FileIds(s, s.metas[c].sha1))
  {
    var s0 := Fresh(chunkSize, chunkNum, bucket);
    RunCounts(s0, ops);
    var s := Run(s0, ops).0;
    hide Step, AllDistinct, PossibleRun, FileIds, Fresh, Run;
    forall d, i | 0 <= i < |FileIds(s, d)| - 1
      ensures s.metas[FileIds(s, d)[i]].idleLen == 0
    {
      assert Packed(s, d);
    }
    forall a, b | 0 <= a < b < |s.metas| && s.metas[a].isUsed && s.metas[b].isUsed && s.metas[a].next == s.metas[b].next
      ensures s.metas[a].next == INVALID_CHUNKID
    {
      assert LinkApart(s.metas, a, b);
    }
    forall c | 0 <= c < |s.metas| && s.metas[c].isUsed
      ensures WalkStops(s.metas, c) && c in FileIds(s, s.metas[c].sha1)
    {
      WalkEnds(s, c);
      assert OwnedAt(s, c);
    }
  }
}
