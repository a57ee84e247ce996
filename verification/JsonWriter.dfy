/**
 Printing into buffers of computed size. Every method is proved to write the printed text and its terminator, and never
 to leave the buffer it allocates: the length estimates are enough for any tree, at any depth, formatted or not.
 */
module JsonWriter {
  import opened JsonText
  import opened JsonModel

  /** The C string at position `at`. */
  ghost predicate HoldsAt(out: array<char>, at: nat, s: string)
    reads out
  {
    at + |s| < out.Length && out[at..at + |s|] == s && out[at + |s|] == NUL
  }

  ghost predicate Holds(out: array<char>, s: string)
    reads out
  {
    HoldsAt(out, 0, s)
  }

  lemma HoldsAfter(out: array<char>, pre: string, s: string)
    requires |pre| <= out.Length && out[..|pre|] == pre && HoldsAt(out, |pre|, s)
    ensures Holds(out, pre + s)
  {
    assert out[..|pre + s|] == out[..|pre|] + out[|pre|..|pre| + |s|];
  }

  lemma {:induction false} EscapeNoNul(s: string)
    requires CString(s)
    ensures NoNul(Escape(s))
    decreases |s|
  {
    if s != [] {
      EscapeNoNul(s[1..]);
      NoNulJoin(EscapeChar(s[0]), Escape(s[1..]));
    }
  }

  lemma StringNoNul(s: string)
    requires CString(s)
    ensures NoNul(PrintString(s))
  {
    hide Escape;
    EscapeNoNul(s);
    NoNulJoin("\"", Escape(s));
    NoNulJoin("\"" + Escape(s), "\"");
  }

  /** A printed text has no terminator inside it, so its length can be measured. */
  lemma {:induction false} PrintNoNul(v: Json, depth: nat, fmt: bool)
    requires Printable(v)
    ensures NoNul(Print(v, depth, fmt))
    decreases v, 0
  {
    hide Escape, PrintString, Decimal;
    match v
    case String(s) => StringNoNul(s);
    case Array(items) =>
      ItemsNoNul(items, depth + 1, fmt);
      NoNulJoin("[", PrintItems(items, depth + 1, fmt));
      NoNulJoin("[" + PrintItems(items, depth + 1, fmt), "]");
    case Object(members) => ObjectNoNul(members, depth, fmt);
    case Number(n) => NumberNoNul(n);
    case _ =>
  }

  lemma NumberNoNul(n: int)
    ensures NoNul(PrintNumber(n))
  {}

  lemma {:induction false} ItemsNoNul(items: Items, depth: nat, fmt: bool)
    requires PrintableItems(items)
    ensures NoNul(PrintItems(items, depth, fmt))
    decreases items
  {
    hide Print;
    if items.Item? {
      PrintNoNul(items.value, depth, fmt);
      if items.next.Item? {
        var own, rest := Print(items.value, depth, fmt), PrintItems(items.next, depth, fmt);
        ItemsNoNul(items.next, depth, fmt);
        NoNulJoin(own, Comma(fmt));
        NoNulJoin(own + Comma(fmt), rest);
      }
    }
  }

  lemma LayoutNoNul(depth: int, fmt: bool)
    ensures NoNul(Newline(fmt)) && NoNul(Indent(depth, fmt)) && NoNul(Colon(fmt)) && NoNul("," + Newline(fmt))
  {}

  lemma {:induction false} ObjectNoNul(members: Members, depth: nat, fmt: bool)
    requires PrintableMembers(members)
    ensures NoNul(Print(Object(members), depth, fmt))
    decreases members, 1
  {
    hide PrintMembers, Newline, Indent;
    var lead, inner := "{" + Newline(fmt), PrintMembers(members, depth + 1, fmt);
    var close := if members.NoMember? then Indent(depth - 1, fmt) else Indent(depth, fmt);
    LayoutNoNul(if members.NoMember? then depth - 1 else depth, fmt);
    NoNulJoin("{", Newline(fmt));
    if members.NoMember? {
      NoNulJoin(lead, close);
      NoNulJoin(lead + close, "}");
    } else {
      MembersNoNul(members, depth + 1, fmt);
      NoNulJoin(lead, inner);
      NoNulJoin(lead + inner, close);
      NoNulJoin(lead + inner + close, "}");
    }
  }

  lemma {:induction false} MembersNoNul(members: Members, depth: nat, fmt: bool)
    requires PrintableMembers(members)
    ensures NoNul(PrintMembers(members, depth, fmt))
    decreases members, 0
  {
    hide PrintMember, Newline;
    if members.Member? {
      var own := PrintMember(members.name, members.value, depth, fmt);
      MemberNoNul(members.name, members.value, depth, fmt);
      LayoutNoNul(depth, fmt);
      if members.next.NoMember? {
        NoNulJoin(own, Newline(fmt));
      } else {
        MembersNoNul(members.next, depth, fmt);
        NoNulJoin(own, ",");
        NoNulJoin(own + ",", Newline(fmt));
        NoNulJoin(own + "," + Newline(fmt), PrintMembers(members.next, depth, fmt));
      }
    }
  }

  lemma {:induction false} MemberNoNul(name: string, v: Json, depth: nat, fmt: bool)
    requires CString(name) && Printable(v)
    ensures NoNul(PrintMember(name, v, depth, fmt))
    decreases v, 1
  {
    hide Print, PrintString, Indent, Colon;
    var indent, quoted := Indent(depth, fmt), PrintString(name);
    LayoutNoNul(depth, fmt);
    StringNoNul(name);
    PrintNoNul(v, depth, fmt);
    NoNulJoin(indent, quoted);
    NoNulJoin(indent + quoted, Colon(fmt));
    NoNulJoin(indent + quoted + Colon(fmt), Print(v, depth, fmt));
  }

  // ----- Buffers --------------------------------------------------------------------------------------------

  method Strlen(str: array<char>, at: nat, ghost s: string) returns (n: nat)
    requires HoldsAt(str, at, s) && NoNul(s)
    ensures n == |s|
  {
    n := 0;
    while str[at + n] != NUL
      invariant n <= |s|
      decreases |s| - n
    {
      assert str[at..at + |s|][n] == str[at + n];
      n := n + 1;
    }
  }

  /** Some characters written from position `at` on. */
  method Put(out: array<char>, at: nat, s: string)
    requires at + |s| <= out.Length
    modifies out
    ensures out[..at + |s|] == old(out[..at]) + s
    ensures out[at + |s|..] == old(out[at + |s|..])
  {
    forall k | 0 <= k < |s| {
      out[at + k] := s[k];
    }
  }

  method Memcpy(out: array<char>, at: nat, src: array<char>, n: nat)
    requires at + n <= out.Length && n <= src.Length && src != out
    modifies out
    ensures out[..at + n] == old(out[..at]) + src[..n]
  {
    forall k | 0 <= k < n {
      out[at + k] := src[k];
    }
  }

  // ----- Strings ----------------------------------------------------------------------------------------------

  predicate IsSpecial(c: char) { c as int < 32 || c == '\"' || c == '\\' }

  lemma {:induction false} PlainEscape(s: string)
    requires forall i | 0 <= i < |s| :: !IsSpecial(s[i])
    ensures Escape(s) == s
    decreases |s|
  {
    if s != [] {
      PlainEscape(s[1..]);
      assert s == [s[0]] + s[1..];
    }
  }

  lemma {:induction false} EscapeSnoc(s: string, c: char)
    ensures Escape(s + [c]) == Escape(s) + EscapeChar(c)
    decreases |s|
  {
    hide EscapeChar;
    if s == [] {
      assert s + [c] == [c];
    } else {
      EscapeSnoc(s[1..], c);
      assert (s + [c])[1..] == s[1..] + [c];
    }
  }

  /** Whether any character needs escaping, and the length of the escaped text. */
  method MeasureString(str: string) returns (flag: bool, len: CInt)
    requires |Escape(str)| <= INT_MAX
    ensures len == |Escape(str)| && (!flag ==> Escape(str) == str)
  {
    hide Escape;
    flag := false;
    for i := 0 to |str|
      invariant flag <==> exists k | 0 <= k < i :: IsSpecial(str[k])
    {
      flag := flag || IsSpecial(str[i]);
    }
    len := 0;
    if !flag {
      PlainEscape(str);
      return flag, |str|;
    }
    assert str[..0] == [] && Escape([]) == [] by {
      EscapeNothing();
    }
    for i := 0 to |str|
      invariant len == |Escape(str[..i])|
    {
      assert str[..i + 1] == str[..i] + [str[i]];
      EscapeSnoc(str[..i], str[i]);
      EscapedFits(str, i);
      len := len + 1;
      if Letter(str[i]).Some? {
        len := len + 1;
      } else if str[i] as int < 32 {
        len := len + 5;
      }
    }
    assert str[..|str|] == str;
  }

  lemma EscapeNothing()
    ensures Escape([]) == []
  {}

  /** Writes the quoted string and its terminator. */
  method FillString(out: array<char>, at: nat, str: string, flag: bool)
    requires at + |PrintString(str)| < out.Length && (!flag ==> Escape(str) == str)
    modifies out
    ensures HoldsAt(out, at, PrintString(str)) && out[..at] == old(out[..at])
  {
    hide Escape;
    ghost var pre := out[..at];
    Put(out, at, "\"");
    var p := at + 1;
    if !flag {
      Put(out, p, str);
      p := p + |str|;
    } else {
      p := FillEscaped(out, p, str, pre + "\"");
    }
    assert out[..p] == pre + "\"" + Escape(str);
    Put(out, p, "\"");
    assert out[..p + 1] == pre + PrintString(str) by {
      assert pre + "\"" + Escape(str) + "\"" == pre + ("\"" + Escape(str) + "\"");
    }
    out[p + 1] := NUL;
    SplitAt(out, at, pre, PrintString(str));
  }

  lemma SplitAt(out: array<char>, at: nat, pre: string, s: string)
    requires |pre| == at && at + |s| <= out.Length && out[..at + |s|] == pre + s
    ensures out[..at] == pre && out[at..at + |s|] == s
  {
    assert out[..at] == out[..at + |s|][..at] && out[at..at + |s|] == out[..at + |s|][at..];
  }

  method FillEscaped(out: array<char>, at: nat, str: string, ghost pre: string) returns (p: nat)
    requires at + |Escape(str)| <= out.Length && out[..at] == pre
    modifies out
    ensures p == at + |Escape(str)| && out[..p] == pre + Escape(str)
  {
    hide Escape;
    EscapeNothing();
    p := at;
    assert str[..0] == [] && pre + [] == pre;
    for i := 0 to |str|
      invariant p == at + |Escape(str[..i])| <= at + |Escape(str)|
      invariant out[..p] == pre + Escape(str[..i])
    {
      EscapedFits(str, i);
      assert str[..i + 1] == str[..i] + [str[i]];
      EscapeSnoc(str[..i], str[i]);
      var c := str[i];
      if c as int > 31 && c != '\"' && c != '\\' {
        Put(out, p, [c]);
        p := p + 1;
      } else if Letter(c).Some? {
        Put(out, p, ['\\', Letter(c).value]);
        p := p + 2;
      } else {
        Put(out, p, ['\\', 'u', '0', '0', HexDigit(c as int / 16), HexDigit(c as int % 16)]);
        p := p + 6;
      }
      assert pre + (Escape(str[..i]) + EscapeChar(c)) == pre + Escape(str[..i]) + EscapeChar(c);
    }
    assert str[..|str|] == str;
  }

  lemma EscapeJoin(a: string, b: string)
    ensures Escape(a + b) == Escape(a) + Escape(b)
    decreases |a|
  {
    hide EscapeChar;
    if a == [] {
      assert a + b == b;
    } else {
      EscapeJoin(a[1..], b);
      assert (a + b)[1..] == a[1..] + b;
    }
  }

  lemma EscapedFits(str: string, i: nat)
    requires i < |str|
    ensures |Escape(str[..i])| + |EscapeChar(str[i])| <= |Escape(str)|
  {
    hide EscapeChar, Escape;
    assert str == str[..i + 1] + str[i + 1..] && str[..i + 1] == str[..i] + [str[i]];
    EscapeJoin(str[..i + 1], str[i + 1..]);
    EscapeSnoc(str[..i], str[i]);
  }

  /** A quoted string in a buffer of just its size. */
  method NewString(str: string) returns (out: array<char>)
    requires |PrintString(str)| + 1 <= INT_MAX
    ensures fresh(out) && Holds(out, PrintString(str)) && out.Length == |PrintString(str)| + 1
  {
    hide Escape;
    var flag, len := MeasureString(str);
    var size: CInt := len + 3;
    out := new char[size];
    FillString(out, 0, str, flag);
  }

  // ----- Numbers ------------------------------------------------------------------------------------------------

  function Ten(k: nat): nat {
    if k == 0 then 1 else 10 * Ten(k - 1)
  }

  lemma {:induction false} DecimalLength(n: nat, k: nat)
    requires k > 0 && n < Ten(k)
    ensures |Decimal(n)| <= k
  {
    if n >= 10 {
      DecimalLength(n / 10, k - 1);
    }
  }

  lemma NumberFits(n: int)
    requires INT_MIN <= n <= INT_MAX
    ensures |PrintNumber(n)| < 21 && (n == 0 ==> |PrintNumber(n)| == 1)
  {
    assert Ten(10) == 10_000_000_000;
    DecimalLength(if n < 0 then -n else n, 10);
  }

  method NewNumber(n: int) returns (out: array<char>)
    requires INT_MIN <= n <= INT_MAX
    ensures fresh(out) && Holds(out, PrintNumber(n))
  {
    NumberFits(n);
    hide PrintNumber;
    out := new char[if n == 0 then 2 else 21];
    Put(out, 0, PrintNumber(n));
    out[|PrintNumber(n)|] := NUL;
    assert out[..|PrintNumber(n)|] == [] + PrintNumber(n);
  }
}
