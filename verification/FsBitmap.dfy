/**
 The bitmap of chunks in use and the two allocators that draw idle chunks from it.
 */
module FsBitmap {
  import opened Common
  import opened FsModel

  // ----- What the allocators return ----------------------------------------------------------

  /** The idle chunks below `bound` in ascending order, leaving out the chunk `exclude`. */
  ghost function IdleBelow(have: set<nat>, exclude: nat, bound: nat): seq<nat> {
    if bound == 0 then []
    else IdleBelow(have, exclude, bound - 1) + if bound - 1 in have || bound - 1 == exclude then [] else [bound - 1]
  }

  function Draw(draw: nat -> nat, total: nat, i: nat): (c: nat)
    requires total > 0
    ensures c < total
  {
    draw(i) % total
  }

  /** The first `k` random draws, reduced to chunk ids, without those in use or excluded. */
  ghost function Accepted(have: set<nat>, exclude: nat, total: nat, draw: nat -> nat, k: nat): seq<nat>
    requires total > 0
  {
    if k == 0 then []
    else
      var c := Draw(draw, total, k - 1);
      Accepted(have, exclude, total, draw, k - 1) + if c in have || c == exclude then [] else [c]
  }

  /** The number of draws before the fast allocator falls back to a scan; 10 * need is 32 bits wide. */
  function Draws(need: nat): nat {
    if 10 * need % TWO32 == 0 then 0 else 10 * need % TWO32 - 1
  }

  ghost function Candidates(have: set<nat>, exclude: nat, total: nat, lead: seq<nat>, need: nat, fast: bool,
                            draw: nat -> nat): seq<nat>
    requires total > 0
  {
    lead + (if fast then Accepted(have, exclude, total, draw, Draws(need)) else []) + IdleBelow(have, exclude, total)
  }

  function IsFast(count: nat, total: nat): bool {
    count * 2 % TWO32 < total
  }

  /**
   Less than half of the chunks are counted as used; twice the counter is 32 bits wide, so from 2^31 chunks on a store
   can be fuller than that and count as emptier.
   */
  lemma FastExactly(count: nat, total: nat)
    requires count < TWO32
    ensures IsFast(count, total) <==> 2 * count < total || (count >= 0x8000_0000 && 2 * (count - 0x8000_0000) < total)
  {
  }

  /** An idle tail, which is an idle bucket, is the first chunk of the file. */
  function LeadOf(tail: Option<MetaInfo>, tailChunkid: nat): seq<nat> {
    if tail.Some? && !tail.value.isUsed then [tailChunkid] else []
  }

  ghost function Allocate(have: set<nat>, count: nat, total: nat, lead: seq<nat>, exclude: nat, need: nat,
                          draw: nat -> nat)
    : Option<seq<nat>>
    requires total > 0
  {
    var all := Candidates(have, exclude, total, lead, need, IsFast(count, total), draw);
    if need <= |lead| then Some(lead) else if need <= |all| then Some(all[..need]) else None
  }

  lemma AllocateIs(have: set<nat>, count: nat, total: nat, lead: seq<nat>, exclude: nat, need: nat, draw: nat -> nat)
    requires total > 0
    ensures var all := if IsFast(count, total) then Candidates(have, exclude, total, lead, need, true, draw)
                       else lead + IdleBelow(have, exclude, total);
            Allocate(have, count, total, lead, exclude, need, draw) ==
            if need <= |lead| then Some(lead) else if need <= |all| then Some(all[..need]) else None
  {
    hide IdleBelow;
    assert lead + [] == lead;
  }

  // ----- Properties of the scan -----------------------------------------------------------------

  lemma {:induction false} IdleBelowExact(have: set<nat>, exclude: nat, bound: nat)
    ensures var idle := IdleBelow(have, exclude, bound);
            && AllIdle(idle, have, exclude, bound)
            && (forall i, j | 0 <= i < j < |idle| :: idle[i] < idle[j])
            && (forall c: nat | c < bound && c !in have && c != exclude :: c in idle)
  {
    if bound > 0 {
      IdleBelowExact(have, exclude, bound - 1);
    }
  }

  lemma {:induction false} IdleBelowPrefix(have: set<nat>, exclude: nat, c: nat, bound: nat)
    requires c <= bound
    ensures IdleBelow(have, exclude, c) <= IdleBelow(have, exclude, bound)
  {
    if c < bound {
      IdleBelowPrefix(have, exclude, c, bound - 1);
    }
  }

  ghost predicate AllIdle(ids: seq<nat>, have: set<nat>, exclude: nat, total: nat) {
    forall i | 0 <= i < |ids| :: ids[i] < total && ids[i] !in have && ids[i] != exclude
  }

  lemma {:induction false} AcceptedIdle(have: set<nat>, exclude: nat, total: nat, draw: nat -> nat, k: nat)
    requires total > 0
    ensures AllIdle(Accepted(have, exclude, total, draw, k), have, exclude, total)
  {
    if k > 0 {
      AcceptedIdle(have, exclude, total, draw, k - 1);
      var before, c := Accepted(have, exclude, total, draw, k - 1), Draw(draw, total, k - 1);
      assert Accepted(have, exclude, total, draw, k) == before + if c in have || c == exclude then [] else [c];
    }
  }

  lemma {:induction false} AcceptedPrefix(have: set<nat>, exclude: nat, total: nat, draw: nat -> nat, k: nat, n: nat)
    requires total > 0 && k <= n
    ensures Accepted(have, exclude, total, draw, k) <= Accepted(have, exclude, total, draw, n)
  {
    if k < n {
      AcceptedPrefix(have, exclude, total, draw, k, n - 1);
    }
  }

  lemma PrefixTaken<T>(found: seq<T>, part: seq<T>, whole: seq<T>)
    requires part <= whole
    ensures (found + whole)[..|found| + |part|] == found + part
  {
  }

  /** An allocator may stop at the first prefix of the candidates that is long enough. */
  lemma ScanSuffices(have: set<nat>, exclude: nat, total: nat, found: seq<nat>, need: nat, c: nat)
    requires c <= total && |found + IdleBelow(have, exclude, c)| == need
    ensures var all := found + IdleBelow(have, exclude, total);
            need <= |all| && all[..need] == found + IdleBelow(have, exclude, c)
  {
    IdleBelowPrefix(have, exclude, c, total);
    PrefixTaken(found, IdleBelow(have, exclude, c), IdleBelow(have, exclude, total));
  }

  lemma DrawsSuffice(have: set<nat>, exclude: nat, total: nat, found: seq<nat>, need: nat, draw: nat -> nat, k: nat)
    requires total > 0 && k <= Draws(need) && |found + Accepted(have, exclude, total, draw, k)| == need
    ensures var all := Candidates(have, exclude, total, found, need, true, draw);
            need <= |all| && all[..need] == found + Accepted(have, exclude, total, draw, k)
  {
    var limit, idle := Draws(need), IdleBelow(have, exclude, total);
    AcceptedPrefix(have, exclude, total, draw, k, limit);
    PrefixTaken(found, Accepted(have, exclude, total, draw, k), Accepted(have, exclude, total, draw, limit));
    var drawn := found + Accepted(have, exclude, total, draw, limit);
    assert (drawn + idle)[..need] == drawn[..need];
  }

  // ----- The allocation contract ------------------------------------------------------------------

  /** How a write calls the allocator: an idle bucket is taken first and left out of the search. */
  ghost predicate ProperLead(have: set<nat>, total: nat, lead: seq<nat>, exclude: nat) {
    && have <= Below(total)
    && (lead == [] || (lead == [exclude] && exclude < total && exclude !in have))
    && (lead == [] ==> exclude >= total || exclude in have)
  }

  lemma ComplementSize(have: set<nat>, total: nat)
    requires have <= Below(total)
    ensures |Below(total) - have| == total - |have|
  {
    assert Below(total) == have + (Below(total) - have);
  }

  /** The lead and the scan together name every idle chunk once. */
  lemma ScanIsComplete(have: set<nat>, total: nat, lead: seq<nat>, exclude: nat)
    requires ProperLead(have, total, lead, exclude)
    ensures NoRepeat(lead + IdleBelow(have, exclude, total))
    ensures |lead + IdleBelow(have, exclude, total)| == total - |have|
  {
    var all := lead + IdleBelow(have, exclude, total);
    IdleBelowExact(have, exclude, total);
    forall c: nat
      ensures c in all <==> c in Below(total) - have
    {
      assert c in all <==> c in lead || c in IdleBelow(have, exclude, total);
    }
    ExactSize(all, have, total);
  }

  lemma ExactSize(all: seq<nat>, have: set<nat>, total: nat)
    requires NoRepeat(all) && have <= Below(total)
    requires forall c :: c in all <==> c in Below(total) - have
    ensures |all| == total - |have|
  {
    SetOfSeqSize(all);
    assert Elements(all) == Below(total) - have;
    ComplementSize(have, total);
  }

  lemma DistinctFit(ids: seq<nat>, have: set<nat>, total: nat)
    requires NoRepeat(ids) && have <= Below(total)
    requires forall i | 0 <= i < |ids| :: ids[i] < total && ids[i] !in have
    ensures |ids| <= total - |have|
  {
    SetOfSeqSize(ids);
    SubsetSize(Elements(ids), Below(total) - have);
    ComplementSize(have, total);
  }

  lemma CandidatesIdle(have: set<nat>, total: nat, lead: seq<nat>, exclude: nat, need: nat, fast: bool,
                       draw: nat -> nat)
    requires total > 0 && ProperLead(have, total, lead, exclude)
    ensures var all := Candidates(have, exclude, total, lead, need, fast, draw);
            && |all| >= |lead + IdleBelow(have, exclude, total)|
            && forall i | 0 <= i < |all| :: all[i] < total && all[i] !in have
  {
    var idle := IdleBelow(have, exclude, total);
    var drawn := if fast then Accepted(have, exclude, total, draw, Draws(need)) else [];
    assert AllIdle(idle, have, exclude, total) by {
      IdleBelowExact(have, exclude, total);
    }
    assert AllIdle(drawn, have, exclude, total) by {
      AcceptedIdle(have, exclude, total, draw, Draws(need));
    }
  }

  /**
   Success gives exactly the number asked for, all idle, led by the idle bucket; a refusal means there are too few.
   */
  lemma AllocateContract(have: set<nat>, count: nat, total: nat, lead: seq<nat>, exclude: nat, need: nat,
                         draw: nat -> nat)
    requires total > 0 && need > 0 && ProperLead(have, total, lead, exclude)
    ensures var r := Allocate(have, count, total, lead, exclude, need, draw);
            && (r.None? ==> total - |have| < need)
            && (r.Some? ==>
                  && |r.value| == need
                  && (forall i | 0 <= i < need :: r.value[i] < total && r.value[i] !in have)
                  && lead <= r.value
                  && (NoRepeat(r.value) ==> need <= total - |have|))
  {
    var all := Candidates(have, exclude, total, lead, need, IsFast(count, total), draw);
    CandidatesIdle(have, total, lead, exclude, need, IsFast(count, total), draw);
    var r := Allocate(have, count, total, lead, exclude, need, draw);
    if need <= |lead| || |all| < need {
      ScanIsComplete(have, total, lead, exclude);
    } else if NoRepeat(r.value) {
      DistinctFit(r.value, have, total);
    }
  }

  lemma CutInTwo(all: seq<nat>, need: nat, c: nat) returns (p: nat)
    requires need <= |all| && c in all && c !in all[..need]
    ensures need <= p < |all| && all[p] == c
  {
    assert all == all[..need] + all[need..];
    var q :| 0 <= q < |all[need..]| && all[need..][q] == c;
    p := need + q;
  }

  /** The first `need` candidates of a scan: ascending behind the lead, and no idle chunk between them left out. */
  lemma ScanTakesSmallest(have: set<nat>, total: nat, lead: seq<nat>, exclude: nat, need: nat)
    requires ProperLead(have, total, lead, exclude)
    requires |lead| <= need <= |lead + IdleBelow(have, exclude, total)|
    ensures var ids := (lead + IdleBelow(have, exclude, total))[..need];
            && (forall i, j | |lead| <= i < j < need :: ids[i] < ids[j])
            && (forall c: nat, i | c < total && c !in have && c !in ids && |lead| <= i < need :: ids[i] < c)
  {
    hide IdleBelow;
    IdleBelowExact(have, exclude, total);
    var idle := IdleBelow(have, exclude, total);
    Ascends(lead, idle);
    forall c: nat, i | c < total && c !in have && c !in (lead + idle)[..need] && |lead| <= i < need
      ensures (lead + idle)[..need][i] < c
    {
      assert c in lead || c in idle;
      var p := CutInTwo(lead + idle, need, c);
    }
  }

  lemma Ascends(lead: seq<nat>, idle: seq<nat>)
    requires forall i, j | 0 <= i < j < |idle| :: idle[i] < idle[j]
    ensures forall i, j | |lead| <= i < j < |lead + idle| :: (lead + idle)[i] < (lead + idle)[j]
  {
    forall i, j | |lead| <= i < j < |lead + idle|
      ensures (lead + idle)[i] < (lead + idle)[j]
    {
      assert (lead + idle)[i] == idle[i - |lead|] && (lead + idle)[j] == idle[j - |lead|];
    }
  }

  /** Above half full the allocator never repeats a chunk and succeeds exactly when there are enough. */
  lemma SteadyIsExact(have: set<nat>, count: nat, total: nat, lead: seq<nat>, exclude: nat, need: nat, draw: nat -> nat)
    requires total > 0 && need > 0 && ProperLead(have, total, lead, exclude) && 2 * count % TWO32 >= total
    ensures var r := Allocate(have, count, total, lead, exclude, need, draw);
            && (r.Some? <==> need <= total - |have|)
            && (r.Some? ==>
                  && NoRepeat(r.value)
                  && (forall i, j | |lead| <= i < j < need :: r.value[i] < r.value[j])
                  && (forall c: nat, i |
                        c < total && c !in have && c !in r.value && |lead| <= i < need :: r.value[i] < c))
  {
    ScanIsComplete(have, total, lead, exclude);
    var all := lead + IdleBelow(have, exclude, total);
    assert Candidates(have, exclude, total, lead, need, false, draw) == all;
    if |lead| < need <= |all| {
      ScanTakesSmallest(have, total, lead, exclude, need);
    }
  }

  /** So from half full on: whatever is drawn, the head and then the smallest idle chunks, each once. */
  lemma HalfFullIsExact(have: set<nat>, count: nat, total: nat, lead: seq<nat>, exclude: nat, need: nat,
                        draw: nat -> nat)
    requires total > 0 && need > 0 && ProperLead(have, total, lead, exclude)
    requires count < 0x8000_0000 && total <= 2 * count
    ensures var r := Allocate(have, count, total, lead, exclude, need, draw);
            && (r.Some? <==> need <= total - |have|)
            && (r.Some? ==>
                  && NoRepeat(r.value) && lead <= r.value && |r.value| == need
                  && (forall i, j | |lead| <= i < j < need :: r.value[i] < r.value[j])
                  && (forall c: nat, i |
                        c < total && c !in have && c !in r.value && |lead| <= i < need :: r.value[i] < c))
  {
    hide Allocate;
    SteadyIsExact(have, count, total, lead, exclude, need, draw);
    AllocateContract(have, count, total, lead, exclude, need, draw);
  }

  /** The draw with number i is an idle chunk that is not left out. */
  predicate Usable(have: set<nat>, exclude: nat, total: nat, draw: nat -> nat, i: nat)
    requires total > 0
  {
    draw(i) % total !in have && draw(i) % total != exclude
  }

  /** The numbers of the usable draws among the first k. */
  lemma {:induction false} AcceptedAre(have: set<nat>, exclude: nat, total: nat, draw: nat -> nat, k: nat)
    returns (ps: seq<nat>)
    requires total > 0
    ensures forall i, j | 0 <= i < j < |ps| :: ps[i] < ps[j]
    ensures forall i: nat :: i in ps <==> i < k && Usable(have, exclude, total, draw, i)
    ensures var drawn := Accepted(have, exclude, total, draw, k);
            |drawn| == |ps| && forall i | 0 <= i < |ps| :: drawn[i] == draw(ps[i]) % total
  {
    ps := [];
    if k > 0 {
      var qs := AcceptedAre(have, exclude, total, draw, k - 1);
      forall i | 0 <= i < |qs|
        ensures qs[i] < k - 1
      {
        var p := qs[i];
        assert p in qs;
      }
      ps := if Usable(have, exclude, total, draw, k - 1) then qs + [k - 1] else qs;
      var c := Draw(draw, total, k - 1);
      assert Accepted(have, exclude, total, draw, k) ==
             Accepted(have, exclude, total, draw, k - 1) + if c in have || c == exclude then [] else [c];
      forall i: nat
        ensures i in ps <==> i < k && Usable(have, exclude, total, draw, i)
      {
        assert i in ps <==> i in qs || (i == k - 1 && Usable(have, exclude, total, draw, i));
      }
    }
  }

  /**
   Below half full, when the head is not enough: behind the head come the usable ones of the first 10 * need - 1 draws,
   in the order in which they are drawn, and only when these are too few the smallest idle chunks.
   */
  lemma DrawsComeFirst(have: set<nat>, count: nat, total: nat, lead: seq<nat>, exclude: nat, need: nat,
                       draw: nat -> nat) returns (ps: seq<nat>, drawn: seq<nat>)
    requires 2 * count < total <= TWO32 && |lead| < need && 10 * need < TWO32
    ensures forall i, j | 0 <= i < j < |ps| :: ps[i] < ps[j]
    ensures forall i: nat :: i in ps <==> i < 10 * need - 1 && Usable(have, exclude, total, draw, i)
    ensures |drawn| == |ps| && forall i | 0 <= i < |ps| :: drawn[i] == draw(ps[i]) % total
    ensures var r := Allocate(have, count, total, lead, exclude, need, draw);
            if need <= |lead + drawn| then r == Some((lead + drawn)[..need])
            else r.Some? ==>
                   && |r.value| == need && lead + drawn <= r.value
                   && (forall i, j | |lead + drawn| <= i < j < need :: r.value[i] < r.value[j])
                   && (forall c: nat, i | c < total && c !in have && c != exclude && |lead + drawn| <= i < need ::
                         c in r.value[|lead + drawn|..] || r.value[i] < c)
  {
    hide Accepted, IdleBelow, AllIdle, IsFast, Allocate;
    ps := AcceptedAre(have, exclude, total, draw, Draws(need));
    drawn := Accepted(have, exclude, total, draw, Draws(need));
    var idle := IdleBelow(have, exclude, total);
    IdleBelowExact(have, exclude, total);
    FastIs(have, count, total, lead, exclude, need, draw);
    if need <= |lead + drawn| {
      assert (lead + drawn + idle)[..need] == (lead + drawn)[..need];
    } else if need <= |lead + drawn + idle| {
      CutScan(lead + drawn, idle, need);
    }
  }

  lemma FastIs(have: set<nat>, count: nat, total: nat, lead: seq<nat>, exclude: nat, need: nat, draw: nat -> nat)
    requires total > 0 && 2 * count % TWO32 < total && |lead| < need
    ensures var all := lead + Accepted(have, exclude, total, draw, Draws(need)) + IdleBelow(have, exclude, total);
            Allocate(have, count, total, lead, exclude, need, draw) ==
            if need <= |all| then Some(all[..need]) else None
  {
    hide Accepted, IdleBelow;
  }

  lemma CutScan(found: seq<nat>, idle: seq<nat>, need: nat)
    requires |found| <= need <= |found + idle| && forall i, j | 0 <= i < j < |idle| :: idle[i] < idle[j]
    ensures var all := (found + idle)[..need];
            && found <= all && all[|found|..] == idle[..need - |found|]
            && (forall i, j | |found| <= i < j < need :: all[i] < all[j])
            && (forall c, i | c in idle && |found| <= i < need :: c in all[|found|..] || all[i] < c)
  {
    var all := (found + idle)[..need];
    assert all == found + idle[..need - |found|];
    forall c, i | c in idle && |found| <= i < need
      ensures c in all[|found|..] || all[i] < c
    {
      var k :| 0 <= k < |idle| && idle[k] == c;
      if k < need - |found| {
        assert all[|found|..][k] == c;
      }
    }
  }

  /** The fast allocator does not look at what it has already picked: two equal draws are both kept. */
  lemma FastRepeats(have: set<nat>, count: nat, total: nat, lead: seq<nat>, exclude: nat, c: nat)
    requires 2 * count % TWO32 < total && |lead| <= 1 && c < total && c !in have && c != exclude
    ensures Allocate(have, count, total, lead, exclude, |lead| + 2, _ => c) == Some(lead + [c, c])
  {
    var need, draw := |lead| + 2, (_: nat) => c;
    DivUnique(c, total, 0, c);
    assert Accepted(have, exclude, total, draw, 1) == [c];
    assert Accepted(have, exclude, total, draw, 2) == [c, c];
    DrawsSuffice(have, exclude, total, lead, need, draw, 2);
  }

  /** No accepted draw that is taken occurs twice, and the scan that fills up the rest meets none of them. */
  ghost predicate DrawsApart(have: set<nat>, exclude: nat, total: nat, draw: nat -> nat, need: nat, missing: nat)
    requires total > 0
  {
    var drawn, idle := Accepted(have, exclude, total, draw, Draws(need)), IdleBelow(have, exclude, total);
    var taken := Min(|drawn|, missing);
    && NoRepeat(drawn[..taken])
    && forall i | 0 <= i < taken :: drawn[i] !in idle[..Min(missing - taken, |idle|)]
  }

  /** Exactly when the fast allocator hands out distinct chunks. */
  lemma FastDistinctExactly(have: set<nat>, count: nat, total: nat, lead: seq<nat>, exclude: nat, need: nat,
                            draw: nat -> nat)
    requires total > 0 && ProperLead(have, total, lead, exclude) && 2 * count % TWO32 < total
    requires Allocate(have, count, total, lead, exclude, need, draw).Some?
    ensures NoRepeat(Allocate(have, count, total, lead, exclude, need, draw).value) <==>
            need <= |lead| || DrawsApart(have, exclude, total, draw, need, need - |lead|)
  {
    hide Accepted, IdleBelow, Draws, Candidates, IsFast;
    if need > |lead| {
      var drawn, idle := Accepted(have, exclude, total, draw, Draws(need)), IdleBelow(have, exclude, total);
      AcceptedIdle(have, exclude, total, draw, Draws(need));
      IdleBelowExact(have, exclude, total);
      FastIs(have, count, total, lead, exclude, need, draw);
      DistinctCut(lead, drawn, idle, need);
    }
  }

  lemma DistinctCut(lead: seq<nat>, drawn: seq<nat>, idle: seq<nat>, need: nat)
    requires |lead| <= 1 && |lead| < need <= |lead + drawn + idle| && NoRepeat(idle)
    requires forall c | c in lead :: c !in drawn && c !in idle
    ensures var taken := Min(|drawn|, need - |lead|);
            var rest := need - |lead| - taken;
            && rest <= |idle|
            && (NoRepeat((lead + drawn + idle)[..need]) <==>
                NoRepeat(drawn[..taken]) && forall i | 0 <= i < taken :: drawn[i] !in idle[..rest])
  {
    var taken := Min(|drawn|, need - |lead|);
    var rest := need - |lead| - taken;
    assert (lead + drawn + idle)[..need] == lead + (drawn[..taken] + idle[..rest]);
    DistinctParts(lead, drawn[..taken], idle[..rest]);
  }

  lemma DistinctParts(lead: seq<nat>, drawn: seq<nat>, idle: seq<nat>)
    requires |lead| <= 1 && NoRepeat(idle)
    requires forall c | c in lead :: c !in drawn && c !in idle
    ensures NoRepeat(lead + (drawn + idle)) <==> NoRepeat(drawn) && forall i | 0 <= i < |drawn| :: drawn[i] !in idle
  {
    JoinDistinct(drawn, idle);
    JoinDistinct(lead, drawn + idle);
  }

  lemma JoinDistinct<T>(a: seq<T>, b: seq<T>)
    ensures NoRepeat(a + b) <==> NoRepeat(a) && NoRepeat(b) && forall i | 0 <= i < |a| :: a[i] !in b
  {
    var s := a + b;
    if NoRepeat(s) {
      assert forall i | 0 <= i < |a| :: s[i] == a[i];
      assert forall i | 0 <= i < |b| :: s[|a| + i] == b[i];
      forall i, j | 0 <= i < j < |b|
        ensures b[i] != b[j]
      {
        assert s[|a| + i] != s[|a| + j];
      }
    }
  }

  // ----- The bitmap itself ------------------------------------------------------------------------

  /** Bit i of b, counted from the low end. */
  predicate BitOf(b: bv8, i: nat) {
    if i == 0 then b & 1 != 0 else BitOf(b >> 1, i - 1)
  }

  lemma {:induction false} BitByMask(b: bv8, i: nat)
    requires i < 8
    ensures BitOf(b, i) <==> b & (1 << i) != 0
  {
    if i > 0 {
      BitByMask(b >> 1, i - 1);
    }
  }

  /** Setting one bit of a byte sets that bit and no other. */
  lemma SetBit(b: bv8, i: nat, j: nat)
    requires i < 8 && j < 8
    ensures BitOf(b | (1 << i), j) <==> i == j || BitOf(b, j)
  {
    BitByMask(b | (1 << i), j);
    BitByMask(b, j);
  }

  predicate IsSet(bits: seq<bv8>, c: nat)
    requires c < 8 * |bits|
  {
    BitOf(bits[c / 8], c % 8)
  }

  ghost function SetBits(bits: seq<bv8>, n: nat): set<nat>
    requires n <= 8 * |bits|
  {
    if n == 0 then {} else SetBits(bits, n - 1) + if IsSet(bits, n - 1) then {n - 1} else {}
  }

  lemma {:induction false} InSetBits(bits: seq<bv8>, n: nat, c: nat)
    requires n <= 8 * |bits|
    ensures c in SetBits(bits, n) <==> c < n && IsSet(bits, c)
  {
    if n > 0 {
      InSetBits(bits, n - 1, c);
    }
  }

  lemma SetBitsUpdated(bits: seq<bv8>, bits': seq<bv8>, n: nat, idx: nat)
    requires idx < n <= 8 * |bits| && bits' == bits[idx / 8 := bits[idx / 8] | (1 << (idx % 8))]
    ensures SetBits(bits', n) == SetBits(bits, n) + {idx}
  {
    forall c: nat
      ensures c in SetBits(bits', n) <==> c in SetBits(bits, n) || c == idx
    {
      InSetBits(bits, n, c);
      InSetBits(bits', n, c);
      if c < n && c / 8 == idx / 8 {
        SetBit(bits[idx / 8], idx % 8, c % 8);
      }
    }
  }

  lemma {:induction false} NoBitsSet(bits: seq<bv8>, n: nat)
    requires n <= 8 * |bits| && forall i | 0 <= i < |bits| :: bits[i] == 0
    ensures SetBits(bits, n) == {}
  {
    if n > 0 {
      NoBitsSet(bits, n - 1);
    }
  }

  class Bitmap {
    const total: nat
    const ptr: array<bv8>
    var writeChunkNum: nat

    ghost predicate Valid()
      reads this
    {
      0 < total < TWO32 && ptr.Length == DivRoundUp(total, 8) && writeChunkNum < TWO32
    }

    /** A zeroed map for `idxNum` chunks. */
    constructor (idxNum: nat)
      requires 0 < idxNum < TWO32
      ensures Valid() && fresh(ptr) && total == idxNum && writeChunkNum == 0 && Have() == {}
    {
      total := idxNum;
      ptr := new bv8[DivRoundUp(idxNum, 8)](_ => 0);
      writeChunkNum := 0;
      new;
      NoBitsSet(ptr[..], total);
    }

    /** Taking over the map of an existing index: the bits stay, the counter starts again at zero. */
    method InitBitmap()
      requires Valid()
      modifies this`writeChunkNum
      ensures Valid() && Have() == old(Have()) && writeChunkNum == 0
    {
      writeChunkNum := 0;
    }

    lemma Fits()
      requires Valid()
      ensures total <= 8 * ptr.Length
    {
    }

    /** The chunks whose bit is set. */
    ghost function Have(): set<nat>
      requires Valid()
      reads this, ptr
    {
      Fits();
      SetBits(ptr[..], total)
    }

    method IsHave(idx: nat) returns (r: bool)
      requires Valid()
      ensures r <==> idx in Have()
    {
      Fits();
      InSetBits(ptr[..], total, idx);
      if idx >= total {
        return false;
      }
      var mask: bv8 := 1 << (idx % 8);
      BitByMask(ptr[idx / 8], idx % 8);
      r := ptr[idx / 8] & mask != 0;
    }

    method Insert(idx: nat) returns (ok: bool)
      requires Valid()
      modifies this`writeChunkNum, ptr
      ensures Valid()
      ensures ok <==> idx < total
      ensures Have() == if ok then old(Have()) + {idx} else old(Have())
      ensures writeChunkNum == if ok then (old(writeChunkNum) + 1) % TWO32 else old(writeChunkNum)
    {
      if idx >= total {
        return false;
      }
      Fits();
      writeChunkNum := (writeChunkNum + 1) % TWO32;
      var mask: bv8 := 1 << (idx % 8);
      ptr[idx / 8] := ptr[idx / 8] | mask;
      SetBitsUpdated(old(ptr[..]), ptr[..], total, idx);
      ok := true;
    }

    /** The linear search, which both allocators end with. */
    method Scan(found: seq<nat>, need: nat, exclude: nat) returns (ok: bool, ids: seq<nat>)
      requires Valid() && |found| < need
      ensures var all := found + IdleBelow(Have(), exclude, total);
              if need <= |all| then ok && ids == all[..need] else !ok && ids == []
    {
      ids := found;
      ghost var have := Have();
      for c := 0 to total
        invariant ids == found + IdleBelow(have, exclude, c) && |ids| < need
      {
        var used := IsHave(c);
        if used || c == exclude {
          continue;
        }
        ids := ids + [c];
        assert ids == found + IdleBelow(have, exclude, c + 1);
        if |ids| >= need {
          ScanSuffices(have, exclude, total, found, need, c + 1);
          return true, ids;
        }
      }
      return false, [];
    }

    method GenerateIdleChunkidsForSteady(found: seq<nat>, need: nat, exclude: nat) returns (ok: bool, ids: seq<nat>)
      requires Valid() && |found| < need
      ensures var all := found + IdleBelow(Have(), exclude, total);
              if need <= |all| then ok && ids == all[..need] else !ok && ids == []
    {
      ok, ids := Scan(found, need, exclude);
    }

    method GenerateIdleChunkidsForFast(found: seq<nat>, need: nat, exclude: nat, draw: nat -> nat)
      returns (ok: bool, ids: seq<nat>)
      requires Valid() && |found| < need
      ensures var all := Candidates(Have(), exclude, total, found, need, true, draw);
              if need <= |all| then ok && ids == all[..need] else !ok && ids == []
    {
      ghost var have, limit := Have(), Draws(need);
      var cnt, drawn := 0, 0;
      ids := found;
      while true
        invariant limit == Draws(need) && cnt == drawn <= limit
        invariant ids == found + Accepted(have, exclude, total, draw, drawn) && |ids| < need
        decreases limit - drawn
      {
        cnt := cnt + 1;
        if cnt >= 10 * need % TWO32 {
          break;
        }
        var chunkid := Draw(draw, total, drawn);
        drawn := drawn + 1;
        var used := IsHave(chunkid);
        if used || chunkid == exclude {
          continue;
        }
        ids := ids + [chunkid];
        assert ids == found + Accepted(have, exclude, total, draw, drawn);
        if |ids| >= need {
          DrawsSuffice(have, exclude, total, found, need, draw, drawn);
          return true, ids;
        }
      }
      ok, ids := Scan(ids, need, exclude);
    }

    /** `tail` is the file's last chunk, or an idle bucket; `draw` stands for the random source. */
    method GenerateIdleChunkids(tail: Option<MetaInfo>, tailChunkid: nat, need: nat, draw: nat -> nat)
      returns (ok: bool, ids: seq<nat>)
      requires Valid()
      ensures need == 0 ==> ok && ids == []
      ensures need > 0 ==>
                var r := Allocate(Have(), writeChunkNum, total, LeadOf(tail, tailChunkid), tailChunkid, need, draw);
                ok == r.Some? && ids == if r.Some? then r.value else []
    {
      hide Candidates, IdleBelow, Allocate;
      ghost var have := Have();
      if need == 0 {
        return true, [];
      }
      ids := [];
      if tail.Some? && !tail.value.isUsed {
        ids := ids + [tailChunkid];
      }
      assert ids == LeadOf(tail, tailChunkid);
      AllocateIs(have, writeChunkNum, total, ids, tailChunkid, need, draw);
      if |ids| >= need {
        return true, ids;
      }
      if writeChunkNum * 2 % TWO32 >= total {
        ok, ids := GenerateIdleChunkidsForSteady(ids, need, tailChunkid);
      } else {
        ok, ids := GenerateIdleChunkidsForFast(ids, need, tailChunkid, draw);
      }
      assert Have() == have;
    }
  }
}
