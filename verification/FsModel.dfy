/**
 The chunk store as a value: the pool of per-chunk records, the bytes of every chunk, the set
 of bits that are set in the bitmap and the allocation counter.  The class in FsStore.dfy keeps
 the same state in arrays and is proved to move from one of these values to the next.
 */
module FsModel {
  import opened Common

  const INVALID_CHUNKID: nat := 0xFFFF_FFFF

  type Digest = d: seq<byte> | |d| == 20 witness seq(20, _ => 0)

  datatype MetaInfo = MetaInfo(isUsed: bool, sha1: Digest, idleLen: nat, next: nat)

  /** `bucket` is the hash of a file name's digest to a chunk id; every property holds for any such map. */
  datatype Fs = Fs(
    chunkSize: nat,
    bucket: Digest -> nat,
    metas: seq<MetaInfo>,
    data: seq<seq<byte>>,
    have: set<nat>,
    count: nat)

  ghost predicate Shape(s: Fs) {
    && 0 < s.chunkSize
    && 0 < |s.metas| <= INVALID_CHUNKID
    && |s.data| == |s.metas|
    && (forall d :: s.bucket(d) < |s.metas|)
    && (forall c | 0 <= c < |s.metas| :: |s.data[c]| == s.chunkSize && s.metas[c].idleLen <= s.chunkSize)
  }

  // ----- Finding the chunks of a file -------------------------------------------------------

  ghost predicate InRange(ids: seq<nat>, n: nat) {
    forall i | 0 <= i < |ids| :: ids[i] < n
  }

  /** The chunks met by following the links from c, giving up after `fuel` steps. */
  function Chain(m: seq<MetaInfo>, c: nat, fuel: nat): (ids: seq<nat>)
    ensures InRange(ids, |m|)
    decreases fuel
  {
    if fuel == 0 || c >= |m| then [] else [c] + Chain(m, m[c].next, fuel - 1)
  }

  /** The chunks among `ids` that carry digest d. */
  ghost function Owned(m: seq<MetaInfo>, ids: seq<nat>, d: Digest): (owned: seq<nat>)
    requires InRange(ids, |m|)
    ensures InRange(owned, |m|)
  {
    if ids == [] then [] else (if m[ids[0]].sha1 == d then [ids[0]] else []) + Owned(m, ids[1..], d)
  }

  ghost function FileIds(s: Fs, d: Digest): (ids: seq<nat>)
    requires Shape(s)
    ensures InRange(ids, |s.metas|)
  {
    var head := s.bucket(d);
    if s.metas[head].isUsed then Owned(s.metas, Chain(s.metas, head, |s.metas|), d) else []
  }

  function Written(s: Fs, c: nat): seq<byte>
    requires c < |s.metas| == |s.data| && s.metas[c].idleLen <= s.chunkSize == |s.data[c]|
  {
    s.data[c][..s.chunkSize - s.metas[c].idleLen]
  }

  ghost function Gather(s: Fs, ids: seq<nat>): seq<byte>
    requires Shape(s)
    requires InRange(ids, |s.metas|)
  {
    if ids == [] then [] else Written(s, ids[0]) + Gather(s, ids[1..])
  }

  /** What the store holds under digest d: the written parts of its chunks in chain order. */
  ghost function Content(s: Fs, d: Digest): seq<byte>
    requires Shape(s)
  {
    Gather(s, FileIds(s, d))
  }

  // ----- The coalesced lists ----------------------------------------------------------------

  /** Entry i of the list is in use and links to the next entry, the last one to no chunk. */
  ghost predicate LinkAt(m: seq<MetaInfo>, list: seq<nat>, i: nat)
    requires i < |list|
  {
    && list[i] < |m| && m[list[i]].isUsed
    && m[list[i]].next == if i + 1 < |list| then list[i + 1] else INVALID_CHUNKID
  }

  ghost predicate Linked(m: seq<MetaInfo>, list: seq<nat>) {
    && list != []
    && InRange(list, |m|)
    && forall i {:trigger LinkAt(m, list, i)} | 0 <= i < |list| :: LinkAt(m, list, i)
  }

  /** The walk over the links from c meets used chunks, none of them twice, and stops where there is no link. */
  ghost predicate Ends(m: seq<MetaInfo>, c: nat) {
    Linked(m, Chain(m, c, |m|)) && NoRepeat(Chain(m, c, |m|))
  }

  /** Only the last chunk of a file has room left. */
  ghost predicate Packed(s: Fs, d: Digest)
    requires Shape(s)
  {
    forall i | 0 <= i < |FileIds(s, d)| - 1 :: s.metas[FileIds(s, d)[i]].idleLen == 0
  }

  /** What every write keeps, whatever chunks its allocator hands out. */
  ghost predicate Valid(s: Fs) {
    && Shape(s)
    && (forall c {:trigger Ends(s.metas, c)} | 0 <= c < |s.metas| && s.metas[c].isUsed :: Ends(s.metas, c))
    && (forall c | 0 <= c < |s.metas| && s.metas[c].isUsed :: s.metas[c].idleLen < s.chunkSize)
    && (forall d {:trigger Packed(s, d)} :: Packed(s, d))
    && (forall c: nat :: c in s.have <==> c < |s.metas| && s.metas[c].isUsed)
  }

  /** Two used chunks do not link to the same chunk. */
  ghost predicate LinkApart(m: seq<MetaInfo>, a: nat, b: nat)
    requires a < |m| && b < |m|
  {
    a != b && m[a].isUsed && m[b].isUsed && m[a].next == m[b].next ==> m[a].next == INVALID_CHUNKID
  }

  /** Chunk c belongs to the file whose digest it carries. */
  ghost predicate OwnedAt(s: Fs, c: nat)
    requires Shape(s) && c < |s.metas|
  {
    s.metas[c].isUsed ==> c in FileIds(s, s.metas[c].sha1)
  }

  /** What writes keep whose chunks do not repeat: the lists are disjoint, and no chunk is lost from its file. */
  ghost predicate Tidy(s: Fs)
    requires Shape(s)
  {
    && (forall a, b {:trigger LinkApart(s.metas, a, b)} |
          0 <= a < |s.metas| && 0 <= b < |s.metas| :: LinkApart(s.metas, a, b))
    && (forall c {:trigger OwnedAt(s, c)} | 0 <= c < |s.metas| :: OwnedAt(s, c))
  }

  /** The counter agrees with the bitmap; true from a fresh index on, lost by a reload. */
  ghost predicate Counted(s: Fs) {
    s.count == |s.have|
  }

  // ----- Walks --------------------------------------------------------------------------------

  lemma {:induction false} ChainIsSuffix(m: seq<MetaInfo>, list: seq<nat>, i: nat, fuel: nat)
    requires |m| <= INVALID_CHUNKID
    requires Linked(m, list) && i < |list| && fuel >= |list| - i
    ensures Chain(m, list[i], fuel) == list[i..]
    decreases |list| - i
  {
    assert LinkAt(m, list, i);
    if i == |list| - 1 {
      assert Chain(m, INVALID_CHUNKID, fuel - 1) == [];
    } else {
      ChainIsSuffix(m, list, i + 1, fuel - 1);
    }
  }

  /** A list of linked chunks without repetition is the walk from its first chunk. */
  lemma PathIsChain(m: seq<MetaInfo>, path: seq<nat>)
    requires |m| <= INVALID_CHUNKID && Linked(m, path) && NoRepeat(path)
    ensures |path| <= |m| && Chain(m, path[0], |m|) == path && Ends(m, path[0])
  {
    Pigeonhole(path, |m|);
    ChainIsSuffix(m, path, 0, |m|);
  }

  lemma InLinked(m: seq<MetaInfo>, list: seq<nat>, i: nat)
    requires Linked(m, list) && i < |list|
    ensures list[i] < |m| && m[list[i]].isUsed
  {
    assert LinkAt(m, list, i);
  }

  // ----- The chunks of a file -----------------------------------------------------------------

  lemma {:induction false} OwnedConcat(m: seq<MetaInfo>, a: seq<nat>, b: seq<nat>, d: Digest)
    requires InRange(a, |m|) && InRange(b, |m|)
    ensures Owned(m, a + b, d) == Owned(m, a, d) + Owned(m, b, d)
  {
    if a == [] {
      assert a + b == b;
    } else {
      var head := if m[a[0]].sha1 == d then [a[0]] else [];
      OwnedConcat(m, a[1..], b, d);
      assert (a + b)[1..] == a[1..] + b;
      assert head + (Owned(m, a[1..], d) + Owned(m, b, d)) == (head + Owned(m, a[1..], d)) + Owned(m, b, d);
    }
  }

  lemma {:induction false} OwnedNone(m: seq<MetaInfo>, ids: seq<nat>, d: Digest)
    requires InRange(ids, |m|) && forall i | 0 <= i < |ids| :: m[ids[i]].sha1 != d
    ensures Owned(m, ids, d) == []
  {
    if ids != [] {
      OwnedNone(m, ids[1..], d);
    }
  }

  lemma {:induction false} OwnedAll(m: seq<MetaInfo>, ids: seq<nat>, d: Digest)
    requires InRange(ids, |m|) && forall i | 0 <= i < |ids| :: m[ids[i]].sha1 == d
    ensures Owned(m, ids, d) == ids
  {
    if ids != [] {
      OwnedAll(m, ids[1..], d);
    }
  }

  lemma {:induction false} OwnedSame(m: seq<MetaInfo>, n: seq<MetaInfo>, ids: seq<nat>, d: Digest)
    requires InRange(ids, |m|) && InRange(ids, |n|)
    requires forall i | 0 <= i < |ids| :: m[ids[i]].sha1 == n[ids[i]].sha1
    ensures Owned(m, ids, d) == Owned(n, ids, d)
  {
    if ids != [] {
      OwnedSame(m, n, ids[1..], d);
    }
  }

  lemma {:induction false} OwnedOnly(m: seq<MetaInfo>, ids: seq<nat>, d: Digest)
    requires InRange(ids, |m|)
    ensures forall i | 0 <= i < |Owned(m, ids, d)| :: m[Owned(m, ids, d)[i]].sha1 == d && Owned(m, ids, d)[i] in ids
  {
    if ids != [] {
      OwnedOnly(m, ids[1..], d);
    }
  }

  lemma {:induction false} OwnedKeepsOrder(m: seq<MetaInfo>, ids: seq<nat>, d: Digest)
    requires InRange(ids, |m|) && NoRepeat(ids)
    ensures NoRepeat(Owned(m, ids, d))
  {
    if ids != [] {
      OwnedOnly(m, ids[1..], d);
      OwnedKeepsOrder(m, ids[1..], d);
    }
  }

  lemma {:induction false} OwnedHas(m: seq<MetaInfo>, ids: seq<nat>, d: Digest, i: nat)
    requires InRange(ids, |m|) && i < |ids| && m[ids[i]].sha1 == d
    ensures ids[i] in Owned(m, ids, d)
  {
    if i > 0 {
      OwnedHas(m, ids[1..], d, i - 1);
    }
  }

  /** The chunks of a file: its own, in use, and each of them once. */
  lemma FileIdsOwned(s: Fs, d: Digest)
    requires Valid(s)
    ensures NoRepeat(FileIds(s, d))
    ensures forall i | 0 <= i < |FileIds(s, d)| ::
              s.metas[FileIds(s, d)[i]].isUsed && s.metas[FileIds(s, d)[i]].sha1 == d
  {
    var h := s.bucket(d);
    if s.metas[h].isUsed {
      var walk := Chain(s.metas, h, |s.metas|);
      assert Ends(s.metas, h);
      OwnedKeepsOrder(s.metas, walk, d);
      OwnedOnly(s.metas, walk, d);
      forall c | c in walk
        ensures s.metas[c].isUsed
      {
        var i :| 0 <= i < |walk| && walk[i] == c;
        InLinked(s.metas, walk, i);
      }
    }
  }
}
