/**
 When the lengths that printing adds up fit an `int`, told exactly by the lengths of texts and the numbers of children:
 not for every tree whose text is in range, but for every one whose text is shorter than half the range.
 */
module JsonSizes {
  import opened JsonModel
  import opened JsonUnbuffered

  /** What is allowed for an item is what it takes and one byte more; the last one has no separator behind it. */
  lemma {:induction false} EstimateExact(ts: seq<string>, fmt: bool)
    requires ts != []
    ensures Estimate(ts, 2 + if fmt then 1 else 0) == |Joined(ts, fmt)| + |ts| + if fmt then 2 else 1
    ensures |ts| <= |Joined(ts, fmt)| + 1
    decreases |ts|
  {
    if |ts| > 1 {
      EstimateExact(ts[1..], fmt);
    } else {
      assert ts[1..] == [];
    }
  }

  /** What is allowed for a member is what its line takes; only the comma behind the last one is not written. */
  lemma {:induction false} MembersExact(names: seq<string>, ts: seq<string>, depth: nat, fmt: bool)
    requires |names| == |ts|
    ensures MembersEstimate(names, ts, depth, fmt) == |Lines(names, ts, depth, fmt)| + if ts == [] then 0 else 1
    decreases |ts|
  {
    if ts != [] {
      MembersExact(names[1..], ts[1..], depth, fmt);
    }
  }

  lemma ArrayLength(items: Items, depth: nat, fmt: bool)
    ensures |Print(Array(items), depth, fmt)| == |PrintItems(items, depth + 1, fmt)| + 2
  {}

  lemma ObjectLength(members: Members, depth: nat, fmt: bool)
    requires members.Member?
    ensures |Print(Object(members), depth, fmt)| ==
            |PrintMembers(members, depth + 1, fmt)| + 2 + if fmt then 1 + depth else 0
  {
    hide PrintMembers;
  }

  // ----- Exactly ------------------------------------------------------------------------------------------------

  function Count(items: Items): nat {
    if items.NoItem? then 0 else 1 + Count(items.next)
  }

  lemma {:induction false} CountTexts(items: Items, depth: nat, fmt: bool)
    ensures |Texts(items, depth, fmt)| == Count(items)
    decreases items
  {
    hide Print;
    if items.Item? {
      CountTexts(items.next, depth, fmt);
    }
  }

  /** The length added up for an array: its text, a byte for each item, and four or five more. */
  lemma ArrayExact(items: Items, depth: nat, fmt: bool)
    requires items.Item?
    ensures ArraySize(items, depth + 1, fmt) == |Print(Array(items), depth, fmt)| + Count(items) + if fmt then 5 else 4
  {
    hide Print, PrintItems, Texts, Joined, Estimate;
    ArrayLength(items, depth, fmt);
    CountTexts(items, depth + 1, fmt);
    JoinedTexts(items, depth + 1, fmt);
    EstimateExact(Texts(items, depth + 1, fmt), fmt);
  }

  /** The length added up for an object: its text and six bytes, however many members it has. */
  lemma ObjectExact(members: Members, depth: nat, fmt: bool)
    requires members.Member?
    ensures ObjectSize(members, depth + 1, fmt) == |Print(Object(members), depth, fmt)| + 6
  {
    hide Print, PrintMembers, Names, Values, Lines, MembersEstimate;
    ObjectLength(members, depth, fmt);
    LinesOfMembers(members, depth + 1, fmt);
    MembersExact(Names(members), Values(members, depth + 1, fmt), depth + 1, fmt);
  }

  /** The text of a string or an object is far enough inside the range for its own buffer. */
  predicate RootFits(v: Json, depth: nat, fmt: bool) {
    match v
    case String(_) => |Print(v, depth, fmt)| + 1 <= INT_MAX
    case Object(members) => members.Member? ==> |Print(v, depth, fmt)| + 6 <= INT_MAX
    case _ => true
  }

  /** So is the text of every array in the tree, which takes a byte for each item besides. */
  predicate ArraysFit(v: Json, depth: nat, fmt: bool)
    decreases v, 0
  {
    match v
    case Array(items) =>
      && (items.Item? ==> |Print(v, depth, fmt)| + Count(items) + (if fmt then 5 else 4) <= INT_MAX)
      && ItemArraysFit(items, depth + 1, fmt)
    case Object(members) => MemberArraysFit(members, depth + 1, fmt)
    case _ => true
  }

  predicate ItemArraysFit(items: Items, depth: nat, fmt: bool)
    decreases items
  {
    items.Item? ==> ArraysFit(items.value, depth, fmt) && ItemArraysFit(items.next, depth, fmt)
  }

  predicate MemberArraysFit(members: Members, depth: nat, fmt: bool)
    decreases members
  {
    members.Member? ==> ArraysFit(members.value, depth, fmt) && MemberArraysFit(members.next, depth, fmt)
  }

  /** Every length added up for a tree is an `int` if and only if these texts and counts are small enough. */
  lemma SizesFitExactly(v: Json, fmt: bool)
    ensures SizesFit(v, 0, fmt) <==> RootFits(v, 0, fmt) && ArraysFit(v, 0, fmt)
  {
    if SizesFit(v, 0, fmt) {
      SizesSuffice(v, 0, fmt);
    } else if RootFits(v, 0, fmt) && ArraysFit(v, 0, fmt) {
      TextsSuffice(v, 0, fmt);
    }
  }

  lemma {:induction false} SizesSuffice(v: Json, depth: nat, fmt: bool)
    requires SizesFit(v, depth, fmt)
    ensures RootFits(v, depth, fmt) && ArraysFit(v, depth, fmt)
    decreases v, 0
  {
    hide Print, ArraySize, ObjectSize;
    match v
    case String(_) => StringLength(v, depth, fmt);
    case Array(items) =>
      SizesSufficeItems(items, depth + 1, fmt);
      if items.Item? {
        ArrayExact(items, depth, fmt);
      }
    case Object(members) =>
      if members.Member? {
        SizesSufficeMembers(members, depth + 1, fmt);
        ObjectExact(members, depth, fmt);
      }
    case _ =>
  }

  lemma StringLength(v: Json, depth: nat, fmt: bool)
    requires v.String?
    ensures |Print(v, depth, fmt)| == |PrintString(v.s)|
  {}

  lemma {:induction false} SizesSufficeItems(items: Items, depth: nat, fmt: bool)
    requires ItemsFit(items, depth, fmt)
    ensures ItemArraysFit(items, depth, fmt)
    decreases items, 0
  {
    if items.Item? {
      SizesSuffice(items.value, depth, fmt);
      SizesSufficeItems(items.next, depth, fmt);
    }
  }

  lemma {:induction false} SizesSufficeMembers(members: Members, depth: nat, fmt: bool)
    requires MembersFit(members, depth, fmt)
    ensures MemberArraysFit(members, depth, fmt)
    decreases members, 0
  {
    if members.Member? {
      SizesSuffice(members.value, depth, fmt);
      SizesSufficeMembers(members.next, depth, fmt);
    }
  }

  /** The other way, for a tree at a depth that its text can still be counted from. */
  lemma {:induction false} TextsSuffice(v: Json, depth: nat, fmt: bool)
    requires RootFits(v, depth, fmt) && ArraysFit(v, depth, fmt)
    requires depth == 0 || depth + |Print(v, depth, fmt)| + 5 <= INT_MAX
    ensures SizesFit(v, depth, fmt)
    decreases v, 0
  {
    hide Print, PrintString;
    match v
    case String(_) => StringLength(v, depth, fmt);
    case Array(items) => ArraySuffices(items, depth, fmt);
    case Object(members) => ObjectSuffices(members, depth, fmt);
    case _ =>
  }

  lemma EmptyArrayFits(depth: nat, fmt: bool)
    ensures |Print(Array(NoItem), depth, fmt)| == 2
    ensures depth < INT_MAX ==> SizesFit(Array(NoItem), depth, fmt)
  {}

  lemma ArrayFitsBy(items: Items, depth: nat, fmt: bool)
    requires depth < INT_MAX && ItemsFit(items, depth + 1, fmt) && ArraySize(items, depth + 1, fmt) <= INT_MAX
    ensures SizesFit(Array(items), depth, fmt)
  {}

  lemma {:induction false} ArraySuffices(items: Items, depth: nat, fmt: bool)
    requires ArraysFit(Array(items), depth, fmt)
    requires depth == 0 || depth + |Print(Array(items), depth, fmt)| + 5 <= INT_MAX
    ensures SizesFit(Array(items), depth, fmt)
    decreases items, 1
  {
    EmptyArrayFits(depth, fmt);
    hide Print, PrintItems, ArraySize, RootFits, SizesFit;
    if items.Item? {
      ArrayExact(items, depth, fmt);
      ArrayLength(items, depth, fmt);
      TextsSufficeItems(items, depth + 1, fmt);
      ArrayFitsBy(items, depth, fmt);
    }
  }

  lemma {:induction false} ObjectSuffices(members: Members, depth: nat, fmt: bool)
    requires RootFits(Object(members), depth, fmt) && ArraysFit(Object(members), depth, fmt)
    requires depth == 0 || depth + |Print(Object(members), depth, fmt)| + 5 <= INT_MAX
    ensures SizesFit(Object(members), depth, fmt)
    decreases members, 1
  {
    if members.NoMember? {
      EmptyObjectFits(depth, fmt);
    } else {
      hide Print, PrintMembers, ObjectSize;
      ObjectExact(members, depth, fmt);
      ObjectLength(members, depth, fmt);
      TextsSufficeMembers(members, depth + 1, fmt);
    }
  }

  lemma {:induction false} TextsSufficeItems(items: Items, depth: nat, fmt: bool)
    requires ItemArraysFit(items, depth, fmt) && depth > 0 && depth + |PrintItems(items, depth, fmt)| + 6 <= INT_MAX
    ensures ItemsFit(items, depth, fmt)
    decreases items, 0
  {
    if items.Item? {
      hide Print;
      TextsSuffice(items.value, depth, fmt);
      TextsSufficeItems(items.next, depth, fmt);
    }
  }

  lemma {:induction false} TextsSufficeMembers(members: Members, depth: nat, fmt: bool)
    requires MemberArraysFit(members, depth, fmt) && depth > 0
    requires depth + |PrintMembers(members, depth, fmt)| + 6 <= INT_MAX
    ensures MembersFit(members, depth, fmt)
    decreases members, 0
  {
    if members.Member? {
      hide Print, PrintString;
      TextsSuffice(members.value, depth, fmt);
      TextsSufficeMembers(members.next, depth, fmt);
    }
  }

  // ----- A bound on the text alone --------------------------------------------------------------------------------

  /** A text shorter than 2^30 bytes, nesting included, is printed without leaving `int`. */
  lemma {:induction false} ShortTextFits(v: Json, depth: nat, fmt: bool)
    requires depth + 2 * |Print(v, depth, fmt)| + 8 <= INT_MAX
    ensures SizesFit(v, depth, fmt)
    decreases v, 0
  {
    match v
    case Array(items) => ShortArrayFits(items, depth, fmt);
    case Object(members) => ShortObjectFits(members, depth, fmt);
    case _ =>
  }

  lemma {:induction false} ShortArrayFits(items: Items, depth: nat, fmt: bool)
    requires depth + 2 * |Print(Array(items), depth, fmt)| + 8 <= INT_MAX
    ensures SizesFit(Array(items), depth, fmt)
    decreases items, 1
  {
    EmptyArrayFits(depth, fmt);
    hide Print, PrintItems, ArraySize, SizesFit;
    if items.Item? {
      ArrayExact(items, depth, fmt);
      ArrayLength(items, depth, fmt);
      CountBound(items, depth + 1, fmt);
      ShortItemsFit(items, depth + 1, fmt);
      ArrayFitsBy(items, depth, fmt);
    }
  }

  lemma {:induction false} ShortObjectFits(members: Members, depth: nat, fmt: bool)
    requires depth + 2 * |Print(Object(members), depth, fmt)| + 8 <= INT_MAX
    ensures SizesFit(Object(members), depth, fmt)
    decreases members, 1
  {
    if members.NoMember? {
      EmptyObjectFits(depth, fmt);
    } else {
      hide Print, PrintMembers, ObjectSize;
      ObjectExact(members, depth, fmt);
      ObjectLength(members, depth, fmt);
      ShortMembersFit(members, depth + 1, fmt);
    }
  }

  lemma CountBound(items: Items, depth: nat, fmt: bool)
    requires items.Item?
    ensures Count(items) <= |PrintItems(items, depth, fmt)| + 1
  {
    hide Print, PrintItems, Texts, Joined, Estimate;
    CountTexts(items, depth, fmt);
    JoinedTexts(items, depth, fmt);
    EstimateExact(Texts(items, depth, fmt), fmt);
  }

  lemma {:induction false} ShortItemsFit(items: Items, depth: nat, fmt: bool)
    requires depth + 2 * |PrintItems(items, depth, fmt)| + 8 <= INT_MAX
    ensures ItemsFit(items, depth, fmt)
    decreases items, 0
  {
    if items.Item? {
      hide Print;
      ShortTextFits(items.value, depth, fmt);
      ShortItemsFit(items.next, depth, fmt);
    }
  }

  lemma {:induction false} ShortMembersFit(members: Members, depth: nat, fmt: bool)
    requires depth + 2 * |PrintMembers(members, depth, fmt)| + 8 <= INT_MAX
    ensures MembersFit(members, depth, fmt)
    decreases members, 0
  {
    if members.Member? {
      hide Print, PrintString;
      ShortTextFits(members.value, depth, fmt);
      ShortMembersFit(members.next, depth, fmt);
    }
  }

  // ----- Where the sum leaves `int` ---------------------------------------------------------------------------

  function Zeros(n: nat): Items {
    if n == 0 then NoItem else Item(Number(0), Zeros(n - 1))
  }

  lemma {:induction false} ZerosSizes(n: nat, depth: nat)
    ensures |PrintItems(Zeros(n), depth, false)| == if n == 0 then 0 else 2 * n - 1
    ensures Estimate(Texts(Zeros(n), depth, false), 2) == 3 * n
  {
    if n > 0 {
      ZerosSizes(n - 1, depth);
      assert Texts(Zeros(n), depth, false)[1..] == Texts(Zeros(n - 1), depth, false);
    }
  }

  /** The text of 0x3000_0000 zeros is in range, the length added up for it is not. */
  lemma EstimateLeavesInt()
    ensures Printable(Array(Zeros(0x3000_0000)))
    ensures |Print(Array(Zeros(0x3000_0000)), 0, false)| < INT_MAX
    ensures ArraySize(Zeros(0x3000_0000), 1, false) > INT_MAX && !SizesFit(Array(Zeros(0x3000_0000)), 0, false)
  {
    ZerosPrintable(0x3000_0000);
    ZerosSizes(0x3000_0000, 1);
    ArrayLength(Zeros(0x3000_0000), 0, false);
  }

  lemma {:induction false} ZerosPrintable(n: nat)
    ensures PrintableItems(Zeros(n))
  {
    if n > 0 {
      ZerosPrintable(n - 1);
    }
  }
}
