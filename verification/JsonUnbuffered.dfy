/** Printing without a print buffer: the texts of the children first, then one buffer for all of them. */
module JsonUnbuffered {
  import opened JsonText
  import opened JsonModel
  import opened JsonWriter

  // ----- The texts of children, and their estimate ----------------------------------------------------------

  function Texts(items: Items, depth: nat, fmt: bool): seq<string>
    decreases items
  {
    if items.NoItem? then [] else [Print(items.value, depth, fmt)] + Texts(items.next, depth, fmt)
  }

  function Joined(ts: seq<string>, fmt: bool): string {
    if ts == [] then ""
    else if |ts| == 1 then ts[0]
    else ts[0] + Comma(fmt) + Joined(ts[1..], fmt)
  }

  lemma {:induction false} JoinedTexts(items: Items, depth: nat, fmt: bool)
    ensures Joined(Texts(items, depth, fmt), fmt) == PrintItems(items, depth, fmt)
    ensures |Texts(items, depth, fmt)| > 0 <==> items.Item?
    decreases items
  {
    hide Print;
    if items.Item? {
      JoinedTexts(items.next, depth, fmt);
      assert Texts(items, depth, fmt)[1..] == Texts(items.next, depth, fmt);
    }
  }

  /** What the first pass adds up: each length and a fixed allowance. */
  function Estimate(ts: seq<string>, allowance: nat): nat {
    if ts == [] then 0 else |ts[0]| + allowance + Estimate(ts[1..], allowance)
  }

  lemma {:induction false} JoinedFits(ts: seq<string>, fmt: bool)
    ensures |Joined(ts, fmt)| <= Estimate(ts, 2 + if fmt then 1 else 0)
    decreases |ts|
  {
    if |ts| > 1 {
      JoinedFits(ts[1..], fmt);
    }
  }

  /** The C strings hold the texts. */
  ghost predicate FirstHold(entries: seq<array<char>>, ts: seq<string>)
    reads entries
  {
    |entries| <= |ts| && forall k | 0 <= k < |entries| :: Holds(entries[k], ts[k]) && NoNul(ts[k])
  }

  ghost predicate AllHold(entries: seq<array<char>>, ts: seq<string>)
    reads entries
  {
    |entries| == |ts| && FirstHold(entries, ts)
  }

  /** The text of one child copied into the output. */
  method PutEntry(out: array<char>, at: nat, entry: array<char>, ghost t: string) returns (p: nat)
    requires Holds(entry, t) && NoNul(t) && out != entry && at + |t| <= out.Length
    modifies out
    ensures p == at + |t| && out[..p] == old(out[..at]) + t
  {
    var tmplen := Strlen(entry, 0, t);
    Memcpy(out, at, entry, tmplen);
    p := at + tmplen;
  }

  method NewText(s: string) returns (out: array<char>)
    ensures fresh(out) && Holds(out, s)
  {
    out := new char[|s| + 1];
    Put(out, 0, s);
    out[|s|] := NUL;
    assert out[..|s|] == [] + s;
  }

  /** `for (j = 0; j < n; j++) *ptr++ = '\t'`. */
  method PutTabs(out: array<char>, at: nat, n: int) returns (p: nat)
    requires at + |Tabs(n)| <= out.Length
    modifies out
    ensures p == at + |Tabs(n)| && out[..p] == old(out[..at]) + Tabs(n)
    ensures out[p..] == old(out[p..])
  {
    p := at;
    var j := 0;
    ghost var pre, post := out[..at], out[at + |Tabs(n)|..];
    while j < n
      invariant p == at + |Tabs(j)| && 0 <= j && (j <= n || j == 0)
      invariant out[..p] == pre + Tabs(j) && out[at + |Tabs(n)|..] == post
    {
      assert Tabs(j + 1) == Tabs(j) + ['\t'];
      out[p] := '\t';
      p, j := p + 1, j + 1;
    }
  }

  // ----- Sizes --------------------------------------------------------------------------------------------------

  /** Every size that printing v adds up, and the depth it counts, is an `int`. */
  predicate SizesFit(v: Json, depth: nat, fmt: bool)
    decreases v, 0
  {
    match v
    case String(s) => |PrintString(s)| + 1 <= INT_MAX
    case Array(items) => depth < INT_MAX && ItemsFit(items, depth + 1, fmt)
        && ArraySize(items, depth + 1, fmt) <= INT_MAX
    case Object(members) =>
      if members.NoMember? then (if fmt then depth + 4 else 3) <= INT_MAX
      else depth < INT_MAX && MembersFit(members, depth + 1, fmt) && ObjectSize(members, depth + 1, fmt) <= INT_MAX
    case _ => true
  }

  predicate ItemsFit(items: Items, depth: nat, fmt: bool)
    decreases items
  {
    items.Item? ==> SizesFit(items.value, depth, fmt) && ItemsFit(items.next, depth, fmt)
  }

  predicate MembersFit(members: Members, depth: nat, fmt: bool)
    decreases members
  {
    members.Member? ==>
      |PrintString(members.name)| + 1 <= INT_MAX && SizesFit(members.value, depth, fmt)
          && MembersFit(members.next, depth, fmt)
  }

  /** The length allocated for an array, or an object, with children at `depth`. */
  function ArraySize(items: Items, depth: nat, fmt: bool): nat {
    5 + Estimate(Texts(items, depth, fmt), 2 + if fmt then 1 else 0)
  }

  function ObjectSize(members: Members, depth: nat, fmt: bool): nat {
    7 + (if fmt then depth else 0) + MembersEstimate(Names(members), Values(members, depth, fmt), depth, fmt)
  }

  // ----- Values -------------------------------------------------------------------------------------------------

  method PrintValue(v: Json, depth: nat, fmt: bool) returns (out: array<char>)
    requires Printable(v) && SizesFit(v, depth, fmt)
    ensures fresh(out) && Holds(out, Print(v, depth, fmt))
    decreases v, 0
  {
    hide PrintItems, PrintMembers, PrintNumber, PrintString;
    match v
    case Null => out := NewText("null");
    case Bool(b) => out := NewText(if b then "true" else "false");
    case Number(n) => out := NewNumber(n);
    case String(s) => out := NewString(s);
    case Array(items) => out := PrintArray(items, depth, fmt);
    case Object(members) => out := PrintObject(members, depth, fmt);
  }

  // ----- Arrays ---------------------------------------------------------------------------------------------------

  /** The text of the next child, added to the others. */
  method CollectValue(v: Json, depth: nat, fmt: bool, entries: seq<array<char>>, ghost ts: seq<string>)
    returns (ret: array<char>, size: nat)
    requires Printable(v) && SizesFit(v, depth, fmt) && FirstHold(entries, ts) && |entries| < |ts|
             && ts[|entries|] == Print(v, depth, fmt)
    ensures FirstHold(entries + [ret], ts) && size == |ts[|entries|]|
    decreases v, 1
  {
    hide Print, Holds;
    ret := PrintValue(v, depth, fmt);
    PrintNoNul(v, depth, fmt);
    size := Measure(ret, Print(v, depth, fmt));
  }

  method Measure(ret: array<char>, ghost s: string) returns (size: nat)
    requires Holds(ret, s) && NoNul(s)
    ensures size == |s|
  {
    size := Strlen(ret, 0, s);
  }

  /** The texts of all items, and the length to allocate. */
  method CollectItems(items: Items, depth: nat, fmt: bool) returns (entries: seq<array<char>>, len: CInt)
    requires PrintableItems(items) && ItemsFit(items, depth, fmt) && ArraySize(items, depth, fmt) <= INT_MAX
    ensures AllHold(entries, Texts(items, depth, fmt))
    ensures len == ArraySize(items, depth, fmt)
    decreases items, 0
  {
    ghost var ts, total := Texts(items, depth, fmt), ArraySize(items, depth, fmt);
    ghost var allowance := 2 + if fmt then 1 else 0;
    NoneHold(ts);
    ItemsStart(items, depth, fmt);
    hide Print, FirstHold, SizesFit, ItemsFit, Printable, PrintableItems, Texts, Estimate, ArraySize, Holds, HoldsAt,
        NoNul;
    hide TextsLeft;
    entries, len := [], 5;
    var child := items;
    while child.Item?
      invariant PrintableItems(child) && ItemsFit(child, depth, fmt) && (child == items || child < items)
      invariant FirstHold(entries, ts) && TextsLeft(child, ts, |entries|, depth, fmt)
      invariant len + Estimate(Texts(child, depth, fmt), allowance) == total
      decreases child
    {
      ItemsStep(child, ts, |entries|, allowance, depth, fmt);
      var ret, size := CollectValue(child.value, depth, fmt, entries, ts);
      entries := entries + [ret];
      len := len + size + 2 + if fmt then 1 else 0;
      child := child.next;
    }
    ItemsDone(ts, |entries|, allowance, depth, fmt);
  }

  /** The texts from number n on are those of the items still to come. */
  predicate TextsLeft(child: Items, ts: seq<string>, n: nat, depth: nat, fmt: bool) {
    n <= |ts| && ts[n..] == Texts(child, depth, fmt)
  }

  lemma ItemsStart(items: Items, depth: nat, fmt: bool)
    ensures TextsLeft(items, Texts(items, depth, fmt), 0, depth, fmt)
    ensures ArraySize(items, depth, fmt) == 5 + Estimate(Texts(items, depth, fmt), 2 + if fmt then 1 else 0)
  {
    assert Texts(items, depth, fmt)[0..] == Texts(items, depth, fmt);
  }

  lemma ItemsStep(child: Items, ts: seq<string>, n: nat, allowance: nat, depth: nat, fmt: bool)
    requires child.Item? && TextsLeft(child, ts, n, depth, fmt)
    requires PrintableItems(child) && ItemsFit(child, depth, fmt)
    ensures Printable(child.value) && PrintableItems(child.next)
    ensures SizesFit(child.value, depth, fmt) && ItemsFit(child.next, depth, fmt)
    ensures n < |ts| && ts[n] == Print(child.value, depth, fmt) && TextsLeft(child.next, ts, n + 1, depth, fmt)
    ensures Estimate(Texts(child, depth, fmt), allowance) ==
            |ts[n]| + allowance + Estimate(Texts(child.next, depth, fmt), allowance)
  {
    hide Print, SizesFit;
    assert ts[n] == ts[n..][0] && ts[n + 1..] == ts[n..][1..];
  }

  lemma ItemsDone(ts: seq<string>, n: nat, allowance: nat, depth: nat, fmt: bool)
    requires TextsLeft(NoItem, ts, n, depth, fmt)
    ensures n == |ts| && Estimate(Texts(NoItem, depth, fmt), allowance) == 0
  {}

  /** One item, and the comma after it. */
  method ComposeItem(out: array<char>, at: nat, entry: array<char>, ghost t: string, fmt: bool, last: bool)
    returns (p: nat)
    requires Holds(entry, t) && NoNul(t) && out != entry && at + |t| + (if last then 0 else |Comma(fmt)|) < out.Length
    modifies out
    ensures p == at + |t| + if last then 0 else |Comma(fmt)|
    ensures out[..p] == old(out[..at]) + (t + if last then "" else Comma(fmt))
  {
    hide Holds, NoNul, Comma;
    ghost var pre := out[..at];
    p := PutEntry(out, at, entry, t);
    if last {
      assert pre + t == pre + (t + "");
    } else {
      Put(out, p, Comma(fmt));
      p := p + if fmt then 2 else 1;
      out[p] := NUL;
      assert pre + t + Comma(fmt) == pre + (t + Comma(fmt));
    }
  }

  lemma EntryHolds(entries: seq<array<char>>, ts: seq<string>, i: nat)
    requires AllHold(entries, ts) && i < |entries|
    ensures |entries| == |ts| && Holds(entries[i], ts[i]) && NoNul(ts[i])
  {}

  lemma JoinedStep(ts: seq<string>, i: nat, fmt: bool, done: string)
    requires i < |ts|
    ensures done + Joined(ts[i..], fmt) ==
            done + (ts[i] + if i == |ts| - 1 then "" else Comma(fmt)) + Joined(ts[i + 1..], fmt)
  {
    hide Comma;
    assert ts[i..][1..] == ts[i + 1..];
    var mark := if i == |ts| - 1 then "" else Comma(fmt);
    assert Joined(ts[i..], fmt) == (ts[i] + mark) + Joined(ts[i + 1..], fmt);
  }

  method ComposeItems(out: array<char>, entries: seq<array<char>>, ghost ts: seq<string>, fmt: bool) returns (p: nat)
    requires AllHold(entries, ts) && out !in entries && 1 + |Joined(ts, fmt)| < out.Length && out[..1] == "["
    modifies out
    ensures p == 1 + |Joined(ts, fmt)| && out[..p] == "[" + Joined(ts, fmt)
  {
    p := 1;
    ghost var done := "[";
    assert ts[0..] == ts && Joined(ts[|ts|..], fmt) == "";
    hide Comma, NoNul, Holds, Joined, FirstHold, AllHold;
    for i := 0 to |entries|
      invariant AllHold(entries, ts)
      invariant p == |done| <= 1 + |Joined(ts, fmt)|
      invariant out[..p] == done && done + Joined(ts[i..], fmt) == "[" + Joined(ts, fmt)
    {
      EntryHolds(entries, ts, i);
      JoinedStep(ts, i, fmt, done);
      done := done + (ts[i] + if i == |ts| - 1 then "" else Comma(fmt));
      p := ComposeItem(out, p, entries[i], ts[i], fmt, i == |entries| - 1);
    }
    assert |entries| == |ts| && done + "" == done;
  }

  method PrintArray(items: Items, depth: nat, fmt: bool) returns (out: array<char>)
    requires PrintableItems(items) && SizesFit(Array(items), depth, fmt)
    ensures fresh(out) && Holds(out, Print(Array(items), depth, fmt))
    decreases items, 1
  {
    assert items.NoItem? ==> Print(Array(items), depth, fmt) == "[]";
    hide PrintItems, AllHold, Estimate, Joined, Texts, Printable, PrintableItems;
    ghost var ts := Texts(items, depth + 1, fmt);
    JoinedTexts(items, depth + 1, fmt);
    if items.NoItem? {
      out := NewText("[]");
      return;
    }
    var entries, len := CollectItems(items, depth + 1, fmt);
    JoinedFits(ts, fmt);
    out := ComposeArray(entries, ts, fmt, len);
  }

  method ComposeArray(entries: seq<array<char>>, ghost ts: seq<string>, fmt: bool, len: CInt) returns (out: array<char>)
    requires AllHold(entries, ts) && 3 + |Joined(ts, fmt)| <= len
    ensures fresh(out) && Holds(out, "[" + Joined(ts, fmt) + "]")
  {
    hide AllHold, Joined;
    out := new char[len];
    out[0] := '[';
    out[1] := NUL;
    var p := ComposeItems(out, entries, ts, fmt);
    Put(out, p, "]");
    out[p + 1] := NUL;
  }

  // ----- Objects --------------------------------------------------------------------------------------------------

  function Names(members: Members): seq<string> {
    if members.NoMember? then [] else [PrintString(members.name)] + Names(members.next)
  }

  function Values(members: Members, depth: nat, fmt: bool): (ts: seq<string>)
    ensures |ts| == |Names(members)|
    decreases members
  {
    if members.NoMember? then [] else [Print(members.value, depth, fmt)] + Values(members.next, depth, fmt)
  }

  function Line(name: string, value: string, depth: nat, fmt: bool, last: bool): string {
    Indent(depth, fmt) + name + Colon(fmt) + value + (if last then "" else ",") + Newline(fmt)
  }

  function Lines(names: seq<string>, ts: seq<string>, depth: nat, fmt: bool): string
    requires |names| == |ts|
  {
    if ts == [] then "" else Line(names[0], ts[0], depth, fmt, |ts| == 1) + Lines(names[1..], ts[1..], depth, fmt)
  }

  lemma {:induction false} LinesOfMembers(members: Members, depth: nat, fmt: bool)
    ensures Lines(Names(members), Values(members, depth, fmt), depth, fmt) == PrintMembers(members, depth, fmt)
    ensures |Names(members)| > 0 <==> members.Member?
    decreases members
  {
    hide Print, PrintString, Indent, Colon, Newline;
    if members.Member? {
      LinesOfMembers(members.next, depth, fmt);
      assert Names(members)[1..] == Names(members.next);
      assert Values(members, depth, fmt)[1..] == Values(members.next, depth, fmt);
      var own := PrintMember(members.name, members.value, depth, fmt);
      assert own + "" + Newline(fmt) == own + Newline(fmt);
    }
  }

  /** The allowance for a member: the colon, the comma and, formatted, a tab, a line break and the indentation. */
  function Allowance(depth: nat, fmt: bool): nat {
    2 + if fmt then 2 + depth else 0
  }

  function MembersEstimate(names: seq<string>, ts: seq<string>, depth: nat, fmt: bool): nat
    requires |names| == |ts|
  {
    if ts == [] then 0
    else |ts[0]| + |names[0]| + Allowance(depth, fmt) + MembersEstimate(names[1..], ts[1..], depth, fmt)
  }

  lemma {:induction false} LinesFit(names: seq<string>, ts: seq<string>, depth: nat, fmt: bool)
    requires |names| == |ts|
    ensures |Lines(names, ts, depth, fmt)| <= MembersEstimate(names, ts, depth, fmt)
    decreases |ts|
  {
    hide Indent, Colon, Newline;
    if ts != [] {
      LinesFit(names[1..], ts[1..], depth, fmt);
    }
  }

  /** The name and the value of the next member, and their lengths. */
  method CollectMember(name: string, v: Json, depth: nat, fmt: bool, names: seq<array<char>>, entries: seq<array<char>>,
                       ghost qs: seq<string>, ghost ts: seq<string>)
    returns (str: array<char>, ret: array<char>, size: nat)
    requires CString(name) && |PrintString(name)| + 1 <= INT_MAX && SizesFit(v, depth, fmt)
    requires FirstHold(names, qs) && |names| < |qs| && qs[|names|] == PrintString(name)
    requires Printable(v) && FirstHold(entries, ts) && |entries| < |ts| && ts[|entries|] == Print(v, depth, fmt)
    ensures FirstHold(names + [str], qs) && FirstHold(entries + [ret], ts) && size == |qs[|names|]| + |ts[|entries|]|
    decreases v, 2
  {
    hide Print, PrintString, Holds;
    str := NewString(name);
    StringNoNul(name);
    var strLen := Measure(str, PrintString(name));
    var retLen;
    ret, retLen := CollectValue(v, depth, fmt, entries, ts);
    size := strLen + retLen;
  }

  lemma NoneHold(ts: seq<string>)
    ensures FirstHold([], ts)
  {}

  method CollectMembers(members: Members, depth: nat, fmt: bool)
    returns (names: seq<array<char>>, entries: seq<array<char>>, len: CInt)
    requires PrintableMembers(members) && MembersFit(members, depth, fmt) && ObjectSize(members, depth, fmt) <= INT_MAX
    ensures AllHold(names, Names(members)) && AllHold(entries, Values(members, depth, fmt))
    ensures len == ObjectSize(members, depth, fmt)
    decreases members, 0
  {
    ghost var qs, ts, total := Names(members), Values(members, depth, fmt), ObjectSize(members, depth, fmt);
    NoneHold(qs);
    NoneHold(ts);
    MembersStart(members, depth, fmt);
    hide Print, PrintString, FirstHold, Names, Values, MembersEstimate, Allowance, Printable, PrintableMembers, CString;
    hide SizesFit, MembersFit, Holds, HoldsAt, NoNul, Left, ObjectSize;
    names, entries, len := [], [], 7 + if fmt then depth else 0;
    var child := members;
    while child.Member?
      invariant PrintableMembers(child) && MembersFit(child, depth, fmt) && (child == members || child < members)
      invariant |names| == |entries| && FirstHold(names, qs) && FirstHold(entries, ts)
      invariant Left(child, qs, ts, |entries|, depth, fmt)
      invariant len + MembersEstimate(Names(child), Values(child, depth, fmt), depth, fmt) == total
      decreases child
    {
      MembersStep(child, qs, ts, |entries|, depth, fmt);
      var str, ret, size := CollectMember(child.name, child.value, depth, fmt, names, entries, qs, ts);
      names, entries := names + [str], entries + [ret];
      len := len + size + 2 + if fmt then 2 + depth else 0;
      child := child.next;
    }
    MembersDone(qs, ts, |entries|, depth, fmt);
  }

  /** The texts from number n on are those of the members still to come. */
  predicate Left(child: Members, qs: seq<string>, ts: seq<string>, n: nat, depth: nat, fmt: bool) {
    |qs| == |ts| && n <= |ts| && qs[n..] == Names(child) && ts[n..] == Values(child, depth, fmt)
  }

  lemma MembersStart(members: Members, depth: nat, fmt: bool)
    ensures Left(members, Names(members), Values(members, depth, fmt), 0, depth, fmt)
    ensures ObjectSize(members, depth, fmt) ==
            7 + (if fmt then depth else 0) + MembersEstimate(Names(members), Values(members, depth, fmt), depth, fmt)
  {
    assert Names(members)[0..] == Names(members) && Values(members, depth, fmt)[0..] == Values(members, depth, fmt);
  }

  lemma MembersStep(child: Members, qs: seq<string>, ts: seq<string>, n: nat, depth: nat, fmt: bool)
    requires child.Member? && Left(child, qs, ts, n, depth, fmt)
    requires PrintableMembers(child) && MembersFit(child, depth, fmt)
    ensures CString(child.name) && Printable(child.value) && PrintableMembers(child.next)
    ensures |PrintString(child.name)| + 1 <= INT_MAX && SizesFit(child.value, depth, fmt)
            && MembersFit(child.next, depth, fmt)
    ensures n < |ts| == |qs| && qs[n] == PrintString(child.name) && ts[n] == Print(child.value, depth, fmt)
    ensures Left(child.next, qs, ts, n + 1, depth, fmt)
    ensures MembersEstimate(Names(child), Values(child, depth, fmt), depth, fmt) ==
            |ts[n]| + |qs[n]| + (2 + if fmt then 2 + depth else 0)
            + MembersEstimate(Names(child.next), Values(child.next, depth, fmt), depth, fmt)
  {
    hide Print, PrintString, SizesFit;
    assert qs[n..][0] == qs[n] && ts[n..][0] == ts[n];
    assert qs[n..][1..] == qs[n + 1..] && ts[n..][1..] == ts[n + 1..];
  }

  lemma MembersDone(qs: seq<string>, ts: seq<string>, n: nat, depth: nat, fmt: bool)
    requires Left(NoMember, qs, ts, n, depth, fmt)
    ensures n == |ts| == |qs| && MembersEstimate(Names(NoMember), Values(NoMember, depth, fmt), depth, fmt) == 0
  {}

  /** One member's line. */
  method ComposeLine(out: array<char>, at: nat, name: array<char>, entry: array<char>, ghost q: string, ghost t: string,
                     depth: nat, fmt: bool, last: bool)
    returns (p: nat)
    requires Holds(name, q) && NoNul(q) && Holds(entry, t) && NoNul(t) && out != name && out != entry
    requires at + |Line(q, t, depth, fmt, last)| < out.Length
    modifies out
    ensures p == at + |Line(q, t, depth, fmt, last)| && out[..p] == old(out[..at]) + Line(q, t, depth, fmt, last)
  {
    hide Holds, Indent, Newline, Colon, NoNul, Line;
    ghost var pre := out[..at];
    LineParts(pre, q, t, depth, fmt, last);
    p := PutName(out, at, name, q, depth, fmt);
    p := PutEntry(out, p, entry, t);
    p := PutLineEnd(out, p, fmt, last);
    out[p] := NUL;
  }

  /** The indentation, the name and the colon. */
  method PutName(out: array<char>, at: nat, name: array<char>, ghost q: string, depth: nat, fmt: bool) returns (p: nat)
    requires Holds(name, q) && NoNul(q) && out != name
    requires at + |Indent(depth, fmt)| + |q| + |Colon(fmt)| <= out.Length
    modifies out
    ensures p == at + |Indent(depth, fmt)| + |q| + |Colon(fmt)|
    ensures out[..p] == old(out[..at]) + Indent(depth, fmt) + q + Colon(fmt)
  {
    hide Holds, Indent, Newline, NoNul;
    IndentIsTabs(depth, fmt);
    p := at;
    ghost var pre := out[..at];
    if fmt {
      p := PutTabs(out, p, depth);
    }
    assert out[..p] == pre + Indent(depth, fmt);
    p := PutEntry(out, p, name, q);
    Put(out, p, Colon(fmt));
    p := p + if fmt then 2 else 1;
  }

  method PutLineEnd(out: array<char>, at: nat, fmt: bool, last: bool) returns (p: nat)
    requires at + (if last then 0 else 1) + (if fmt then 1 else 0) <= out.Length
    modifies out
    ensures p == at + (if last then 0 else 1) + (if fmt then 1 else 0)
    ensures out[..p] == old(out[..at]) + ((if last then "" else ",") + (if fmt then "\n" else ""))
  {
    p := at;
    if !last {
      Put(out, p, ",");
      p := p + 1;
    }
    if fmt {
      Put(out, p, "\n");
      p := p + 1;
    }
  }

  lemma IndentIsTabs(depth: int, fmt: bool)
    ensures Indent(depth, fmt) == if fmt then Tabs(depth) else ""
    ensures Newline(fmt) == if fmt then "\n" else ""
  {}

  lemma LineParts(pre: string, q: string, t: string, depth: nat, fmt: bool, last: bool)
    ensures |Line(q, t, depth, fmt, last)| ==
            |Indent(depth, fmt)| + |q| + |Colon(fmt)| + |t| + (if last then 0 else 1) + (if fmt then 1 else 0)
    ensures pre + Line(q, t, depth, fmt, last) ==
            pre + Indent(depth, fmt) + q + Colon(fmt) + t + ((if last then "" else ",") + (if fmt then "\n" else ""))
  {
    hide Indent, Colon;
    Regroup(pre, Indent(depth, fmt), q, Colon(fmt), t, if last then "" else ",", if fmt then "\n" else "");
  }

  lemma Regroup(pre: string, indent: string, q: string, colon: string, t: string, comma: string, newline: string)
    ensures pre + (indent + q + colon + t + comma + newline) == pre + indent + q + colon + t + (comma + newline)
  {}

  method ComposeMembers(out: array<char>, names: seq<array<char>>, entries: seq<array<char>>, ghost qs: seq<string>,
                        ghost ts: seq<string>, depth: nat, fmt: bool, at: nat)
    returns (p: nat)
    requires AllHold(names, qs) && AllHold(entries, ts) && |qs| == |ts| && out !in names && out !in entries
    requires at + |Lines(qs, ts, depth, fmt)| < out.Length
    modifies out
    ensures p == at + |Lines(qs, ts, depth, fmt)| && out[..p] == old(out[..at]) + Lines(qs, ts, depth, fmt)
  {
    hide Line;
    p := at;
    ghost var pre, done: string := out[..at], "";
    assert qs[0..] == qs && ts[0..] == ts && "" + Lines(qs, ts, depth, fmt) == Lines(qs, ts, depth, fmt)
           && pre + "" == pre;
    for i := 0 to |entries|
      invariant AllHold(names, qs) && AllHold(entries, ts)
      invariant p == at + |done| <= at + |Lines(qs, ts, depth, fmt)|
      invariant out[..p] == pre + done
      invariant done + Lines(qs[i..], ts[i..], depth, fmt) == Lines(qs, ts, depth, fmt)
    {
      assert qs[i..][1..] == qs[i + 1..] && ts[i..][1..] == ts[i + 1..];
      ghost var own := Line(qs[i], ts[i], depth, fmt, i == |entries| - 1);
      assert Holds(names[i], qs[i]) && Holds(entries[i], ts[i]);
      assert done + (own + Lines(qs[i + 1..], ts[i + 1..], depth, fmt)) ==
             (done + own) + Lines(qs[i + 1..], ts[i + 1..], depth, fmt);
      p := ComposeLine(out, p, names[i], entries[i], qs[i], ts[i], depth, fmt, i == |entries| - 1);
      assert pre + done + own == pre + (done + own);
      done := done + own;
    }
    assert done + "" == done;
  }

  /** The text of an object without members: a line break, and one tab less than its depth. */
  method FillEmptyObject(out: array<char>, at: nat, depth: nat, fmt: bool)
    requires at + |Print(Object(NoMember), depth, fmt)| < out.Length
    modifies out
    ensures HoldsAt(out, at, Print(Object(NoMember), depth, fmt)) && out[..at] == old(out[..at])
  {
    hide Print, Tabs, HoldsAt;
    ghost var pre, s := out[..at], Print(Object(NoMember), depth, fmt);
    EmptyObjectText(pre, depth, fmt);
    Put(out, at, "{");
    var p := PutEmptyLine(out, at + 1, depth, fmt);
    Put(out, p, "}");
    Terminate(out, p + 1, pre, s);
  }

  method Terminate(out: array<char>, end: nat, ghost pre: string, ghost s: string)
    requires end == |pre| + |s| < out.Length && out[..end] == pre + s
    modifies out
    ensures HoldsAt(out, |pre|, s) && out[..|pre|] == pre
  {
    out[end] := NUL;
    assert out[..end] == pre + s;
    SplitAt(out, |pre|, pre, s);
  }

  /** The line break and the tabs between the braces. */
  method PutEmptyLine(out: array<char>, at: nat, depth: nat, fmt: bool) returns (p: nat)
    requires at + (if fmt then 1 + |Tabs(depth - 1)| else 0) <= out.Length
    modifies out
    ensures p == at + (if fmt then 1 + |Tabs(depth - 1)| else 0)
    ensures out[..p] == old(out[..at]) + (if fmt then "\n" + Tabs(depth - 1) else "")
  {
    hide Tabs;
    p := at;
    ghost var pre := out[..at];
    if fmt {
      Put(out, p, "\n");
      p := PutTabs(out, p + 1, depth - 1);
      assert pre + "\n" + Tabs(depth - 1) == pre + ("\n" + Tabs(depth - 1));
    }
  }

  lemma EmptyObjectText(pre: string, depth: nat, fmt: bool)
    ensures var inner := if fmt then "\n" + Tabs(depth - 1) else "";
            && pre + Print(Object(NoMember), depth, fmt) == pre + "{" + inner + "}"
            && |Print(Object(NoMember), depth, fmt)| == |inner| + 2
  {
    hide Tabs;
  }

  method PrintEmptyObject(depth: nat, fmt: bool) returns (out: array<char>)
    requires (if fmt then depth + 4 else 3) <= INT_MAX
    ensures fresh(out) && Holds(out, Print(Object(NoMember), depth, fmt))
  {
    EmptyObjectFits(depth, fmt);
    hide Print;
    var len: CInt := if fmt then depth + 4 else 3;
    out := new char[len];
    FillEmptyObject(out, 0, depth, fmt);
  }

  lemma EmptyObjectFits(depth: nat, fmt: bool)
    ensures |Print(Object(NoMember), depth, fmt)| < if fmt then depth + 4 else 3
    ensures (if fmt then depth + 4 else 3) <= |Print(Object(NoMember), depth, fmt)| + 2
  {}

  method PrintObject(members: Members, depth: nat, fmt: bool) returns (out: array<char>)
    requires PrintableMembers(members) && SizesFit(Object(members), depth, fmt)
    ensures fresh(out) && Holds(out, Print(Object(members), depth, fmt))
    decreases members, 1
  {
    if members.NoMember? {
      out := PrintEmptyObject(depth, fmt);
      return;
    }
    hide PrintMembers, Lines, MembersEstimate, Indent, Newline, Names, Values, Printable, PrintableMembers, MembersFit;
    IndentIsTabs(depth, fmt);
    ghost var qs, ts := Names(members), Values(members, depth + 1, fmt);
    LinesOfMembers(members, depth + 1, fmt);
    var names, entries, len := CollectMembers(members, depth + 1, fmt);
    LinesFit(qs, ts, depth + 1, fmt);
    out := ComposeObject(names, entries, qs, ts, depth + 1, fmt, len);
  }

  method ComposeObject(names: seq<array<char>>, entries: seq<array<char>>, ghost qs: seq<string>, ghost ts: seq<string>,
                       depth: nat, fmt: bool, len: CInt)
    returns (out: array<char>)
    requires AllHold(names, qs) && AllHold(entries, ts) && |qs| == |ts| && depth > 0
    requires 7 + (if fmt then depth else 0) + |Lines(qs, ts, depth, fmt)| <= len
    ensures fresh(out) && Holds(out, "{" + Newline(fmt) + Lines(qs, ts, depth, fmt) + Indent(depth - 1, fmt) + "}")
  {
    hide Lines, Indent, Newline, AllHold;
    IndentIsTabs(depth - 1, fmt);
    out := new char[len];
    out[0] := '{';
    var p := 1;
    if fmt {
      out[1] := '\n';
      p := 2;
    }
    out[p] := NUL;
    assert out[..p] == "{" + Newline(fmt);
    p := ComposeMembers(out, names, entries, qs, ts, depth, fmt, p);
    if fmt {
      p := PutTabs(out, p, depth - 1);
    }
    assert out[..p] == "{" + Newline(fmt) + Lines(qs, ts, depth, fmt) + Indent(depth - 1, fmt);
    Put(out, p, "}");
    out[p + 1] := NUL;
  }
}
