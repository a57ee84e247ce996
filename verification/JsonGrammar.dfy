/**
 The grammar of RFC 8259, written from the standard and not from the reader, which accepts more. Every printed text
 belongs to it. Strings are bytes: those from 80 on stand for the UTF-8 of characters that need no escape.
 */
module JsonGrammar {
  import opened JsonText
  import opened JsonModel

  /** White space, section 2. */
  predicate Ws(s: string) {
    forall i | 0 <= i < |s| :: s[i] == ' ' || s[i] == '\t' || s[i] == '\n' || s[i] == '\r'
  }

  // ----- Numbers, section 6 -------------------------------------------------------------------------------------

  predicate Digits(s: string) {
    s != "" && forall i | 0 <= i < |s| :: IsDigit(s[i])
  }

  predicate IntText(s: string) {
    s == "0" || (Digits(s) && s[0] != '0')
  }

  predicate Fraction(s: string) {
    s == "" || (s[0] == '.' && Digits(s[1..]))
  }

  predicate Exponent(s: string) {
    s == "" ||
    ((s[0] == 'e' || s[0] == 'E')
     && (Digits(s[1..]) || (|s| > 1 && (s[1] == '+' || s[1] == '-') && Digits(s[2..]))))
  }

  predicate NumberParts(s: string, i: nat, j: nat) {
    i <= j <= |s| && IntText(s[..i]) && Fraction(s[i..j]) && Exponent(s[j..])
  }

  function Unsigned(s: string): string {
    if s != "" && s[0] == '-' then s[1..] else s
  }

  ghost predicate NumberText(s: string) {
    exists i: nat, j: nat {:trigger NumberParts(Unsigned(s), i, j)} :: NumberParts(Unsigned(s), i, j)
  }

  // ----- Strings, section 7 -------------------------------------------------------------------------------------

  predicate Chars(s: string) {
    if s == "" then true
    else if s[0] != '\\' then s[0] as int >= 0x20 && s[0] != '\"' && Chars(s[1..])
    else if |s| < 2 then false
    else if s[1] == 'u' then |s| >= 6 && HasHex4(s, 2) && Chars(s[6..])
    else s[1] in "\"\\/bfnrt" && Chars(s[2..])
  }

  predicate StringText(s: string) {
    |s| >= 2 && s[0] == '\"' && s[|s| - 1] == '\"' && Chars(s[1..|s| - 1])
  }

  // ----- Values, sections 3 to 5 --------------------------------------------------------------------------------

  ghost predicate Value(s: string)
    decreases |s|, 0
  {
    || s == "null" || s == "true" || s == "false" || NumberText(s) || StringText(s)
    || (|s| >= 2 && s[0] == '[' && s[|s| - 1] == ']' && (Ws(s[1..|s| - 1]) || Elements(s[1..|s| - 1])))
    || (|s| >= 2 && s[0] == '{' && s[|s| - 1] == '}' && (Ws(s[1..|s| - 1]) || MembersText(s[1..|s| - 1])))
  }

  predicate Padded(s: string, i: nat, j: nat) {
    i <= j <= |s| && Ws(s[..i]) && Ws(s[j..])
  }

  /** A value with white space around it: what a whole text is, section 2. */
  ghost predicate Element(s: string)
    decreases |s|, 1
  {
    exists i: nat, j: nat {:trigger Padded(s, i, j)} :: Padded(s, i, j) && Value(s[i..j])
  }

  predicate CommaAt(s: string, k: nat) {
    k < |s| && s[k] == ','
  }

  ghost predicate Elements(s: string)
    decreases |s|, 2
  {
    Element(s) || exists k: nat {:trigger CommaAt(s, k)} :: CommaAt(s, k) && Element(s[..k]) && Elements(s[k + 1..])
  }

  predicate NameParts(s: string, i: nat, j: nat, k: nat) {
    i <= j <= k < |s| && Ws(s[..i]) && StringText(s[i..j]) && Ws(s[j..k]) && s[k] == ':'
  }

  ghost predicate MemberText(s: string)
    decreases |s|, 1
  {
    exists i: nat, j: nat, k: nat {:trigger NameParts(s, i, j, k)} :: NameParts(s, i, j, k) && Element(s[k + 1..])
  }

  ghost predicate MembersText(s: string)
    decreases |s|, 2
  {
    || MemberText(s)
    || exists k: nat {:trigger CommaAt(s, k)} :: CommaAt(s, k) && MemberText(s[..k]) && MembersText(s[k + 1..])
  }

  // ----- White space can be added ---------------------------------------------------------------------------------

  lemma WsJoin(a: string, b: string)
    requires Ws(a) && Ws(b)
    ensures Ws(a + b)
  {}

  lemma PadElement(a: string, s: string, b: string)
    requires Ws(a) && Ws(b) && Element(s)
    ensures Element(a + s + b)
  {
    hide Value, Ws;
    var i: nat, j: nat :| Padded(s, i, j) && Value(s[i..j]);
    var t := a + s + b;
    WsJoin(a, s[..i]);
    WsJoin(s[j..], b);
    assert t[..|a| + i] == a + s[..i] && t[|a| + j..] == s[j..] + b && t[|a| + i..|a| + j] == s[i..j];
    assert Padded(t, |a| + i, |a| + j);
  }

  lemma {:induction false} PadElements(a: string, s: string)
    requires Ws(a) && Elements(s)
    ensures Elements(a + s)
  {
    hide Element, Ws;
    assert a + s + "" == a + s;
    if Element(s) {
      assert Ws("") by { NoWs(); }
      PadElement(a, s, "");
    } else {
      var k: nat :| CommaAt(s, k) && Element(s[..k]) && Elements(s[k + 1..]);
      assert Ws("") by { NoWs(); }
      PadElement(a, s[..k], "");
      assert (a + s)[..|a| + k] == a + s[..k] + "" && (a + s)[|a| + k + 1..] == s[k + 1..];
      assert CommaAt(a + s, |a| + k);
    }
  }

  lemma NoWs()
    ensures Ws("")
  {}

  lemma PadMember(a: string, s: string, b: string)
    requires Ws(a) && Ws(b) && MemberText(s)
    ensures MemberText(a + s + b)
  {
    hide Element, StringText, Ws;
    var i: nat, j: nat, k: nat :| NameParts(s, i, j, k) && Element(s[k + 1..]);
    var t := a + s + b;
    NoWs();
    WsJoin(a, s[..i]);
    PadElement("", s[k + 1..], b);
    assert t[..|a| + i] == a + s[..i] && t[|a| + i..|a| + j] == s[i..j] && t[|a| + j..|a| + k] == s[j..k];
    assert t[|a| + k + 1..] == "" + s[k + 1..] + b;
    assert NameParts(t, |a| + i, |a| + j, |a| + k);
  }

  lemma {:induction false} PadMembers(a: string, s: string, b: string)
    requires Ws(a) && Ws(b) && MembersText(s)
    ensures MembersText(a + s + b)
    decreases |s|
  {
    hide MemberText, Ws;
    NoWs();
    var t := a + s + b;
    if MemberText(s) {
      PadMember(a, s, b);
    } else {
      var k: nat :| CommaAt(s, k) && MemberText(s[..k]) && MembersText(s[k + 1..]);
      PadMember(a, s[..k], "");
      PadMembers("", s[k + 1..], b);
      assert t[..|a| + k] == a + s[..k] + "" && t[|a| + k + 1..] == "" + s[k + 1..] + b;
      assert CommaAt(t, |a| + k);
    }
  }

  // ----- Every printed text is JSON -------------------------------------------------------------------------------

  lemma NumberIsJson(n: int)
    ensures NumberText(PrintNumber(n))
  {
    var s := Decimal(if n < 0 then -n else n);
    assert NumberParts(s, |s|, |s|) by {
      assert s[..|s|] == s && s[|s|..|s|] == "" && s[|s|..] == "";
    }
    assert ("-" + s)[1..] == s && Unsigned(PrintNumber(n)) == s;
  }

  lemma {:induction false} EscapeIsChars(s: string)
    requires CString(s)
    ensures Chars(Escape(s))
    decreases |s|
  {
    if s != [] {
      EscapeIsChars(s[1..]);
      CharIsChars(s[0], Escape(s[1..]));
    }
  }

  lemma CharIsChars(c: char, rest: string)
    requires 0 < c as int < 256 && Chars(rest)
    ensures Chars(EscapeChar(c) + rest)
  {
    var t := EscapeChar(c) + rest;
    if Letter(c).Some? {
      assert t[2..] == rest;
    } else if c as int < 32 {
      assert t[6..] == rest;
      assert At(t, 2) == '0' && At(t, 3) == '0' && At(t, 4) == HexDigit(c as int / 16)
             && At(t, 5) == HexDigit(c as int % 16);
    } else {
      assert t[1..] == rest;
    }
  }

  lemma StringIsJson(s: string)
    requires CString(s)
    ensures StringText(PrintString(s))
  {
    EscapeIsChars(s);
    assert PrintString(s)[1..|PrintString(s)| - 1] == Escape(s);
  }

  lemma LayoutIsWs(depth: int, fmt: bool)
    ensures Ws(Newline(fmt)) && Ws(Indent(depth, fmt)) && Ws(Colon(fmt)[1..]) && Ws(Comma(fmt)[1..])
  {}

  lemma ValueIsElement(s: string)
    requires Value(s)
    ensures Element(s)
  {
    hide Value;
    assert s[..0] == "" && s[|s|..] == "" && s[0..|s|] == s;
    assert Padded(s, 0, |s|);
  }

  /** Printing keeps to the grammar, at any depth, formatted or not. */
  lemma {:induction false} PrintIsJson(v: Json, depth: nat, fmt: bool)
    requires Printable(v)
    ensures Value(Print(v, depth, fmt)) && Element(Print(v, depth, fmt))
    decreases v, 0
  {
    match v {
      case Number(n) => NumberIsJson(n);
      case String(s) => StringIsJson(s);
      case Array(items) => ArrayIsJson(items, depth, fmt);
      case Object(members) => ObjectIsJson(members, depth, fmt);
      case _ =>
    }
    ValueIsElement(Print(v, depth, fmt));
  }

  lemma Bracketed(open: char, inner: string, close: char)
    ensures var s := [open] + inner + [close];
            |s| >= 2 && s[0] == open && s[|s| - 1] == close && s[1..|s| - 1] == inner
  {}

  lemma {:induction false} ArrayIsJson(items: Items, depth: nat, fmt: bool)
    requires PrintableItems(items)
    ensures Value(Print(Array(items), depth, fmt))
    decreases items, 1
  {
    var inner := PrintItems(items, depth + 1, fmt);
    assert Print(Array(items), depth, fmt) == ['['] + inner + [']'];
    Bracketed('[', inner, ']');
    if items.NoItem? {
      NoWs();
    } else {
      hide Print, PrintItems, Elements, MembersText, NumberText, StringText, Ws;
      ItemsAreJson(items, depth + 1, fmt);
    }
  }

  lemma {:induction false} ItemsAreJson(items: Items, depth: nat, fmt: bool)
    requires PrintableItems(items) && items.Item?
    ensures Elements(PrintItems(items, depth, fmt))
    decreases items, 0
  {
    hide Print, Value, Element, Ws;
    PrintIsJson(items.value, depth, fmt);
    if items.next.Item? {
      ItemsAreJson(items.next, depth, fmt);
      JoinItems(Print(items.value, depth, fmt), fmt, PrintItems(items.next, depth, fmt));
    }
  }

  /** An item, the comma and the further items. */
  lemma JoinItems(own: string, fmt: bool, rest: string)
    requires Element(own) && Elements(rest)
    ensures Elements(own + Comma(fmt) + rest)
  {
    LayoutIsWs(0, fmt);
    var blank := Comma(fmt)[1..];
    assert own + Comma(fmt) + rest == own + "," + (blank + rest);
    hide *;
    PadElements(blank, rest);
    ConsElements(own, blank + rest);
  }

  lemma ConsElements(own: string, rest: string)
    requires Element(own) && Elements(rest)
    ensures Elements(own + "," + rest)
  {
    hide Element;
    var s := own + "," + rest;
    assert s[..|own|] == own && s[|own| + 1..] == rest && CommaAt(s, |own|);
  }

  lemma ConsMembers(own: string, rest: string)
    requires MemberText(own) && MembersText(rest)
    ensures MembersText(own + "," + rest)
  {
    hide MemberText;
    var s := own + "," + rest;
    assert s[..|own|] == own && s[|own| + 1..] == rest && CommaAt(s, |own|);
  }

  lemma Braced(inner: string)
    requires Ws(inner) || MembersText(inner)
    ensures Value(['{'] + inner + ['}'])
  {
    hide NumberText, StringText, Elements, MembersText, Ws;
    Bracketed('{', inner, '}');
  }

  lemma {:induction false} ObjectIsJson(members: Members, depth: nat, fmt: bool)
    requires PrintableMembers(members)
    ensures Value(Print(Object(members), depth, fmt))
    decreases members, 1
  {
    var inner := if members.NoMember? then Newline(fmt) + Indent(depth - 1, fmt)
                 else Newline(fmt) + PrintMembers(members, depth + 1, fmt) + Indent(depth, fmt);
    assert Print(Object(members), depth, fmt) == ['{'] + inner + ['}'];
    hide Print, PrintMembers, Value, MembersText, Ws, Indent, Newline;
    LayoutIsWs(if members.NoMember? then depth - 1 else depth, fmt);
    if members.NoMember? {
      WsJoin(Newline(fmt), Indent(depth - 1, fmt));
    } else {
      MembersAreJson(members, depth + 1, fmt);
      PadMembers(Newline(fmt), PrintMembers(members, depth + 1, fmt), Indent(depth, fmt));
    }
    Braced(inner);
  }

  lemma {:induction false} MembersAreJson(members: Members, depth: nat, fmt: bool)
    requires PrintableMembers(members) && members.Member?
    ensures MembersText(PrintMembers(members, depth, fmt))
    decreases members, 0
  {
    hide PrintMember, MemberText, Ws, Newline;
    var own := PrintMember(members.name, members.value, depth, fmt);
    MemberIsJson(members.name, members.value, depth, fmt);
    LayoutIsWs(0, fmt);
    NoWs();
    if members.next.NoMember? {
      PadMember("", own, Newline(fmt));
      assert "" + own + Newline(fmt) == own + Newline(fmt);
    } else {
      var rest := PrintMembers(members.next, depth, fmt);
      MembersAreJson(members.next, depth, fmt);
      PadMembers(Newline(fmt), rest, "");
      ConsMembers(own, Newline(fmt) + rest + "");
      assert own + "," + (Newline(fmt) + rest + "") == own + "," + Newline(fmt) + rest;
    }
  }

  lemma {:induction false} MemberIsJson(name: string, v: Json, depth: nat, fmt: bool)
    requires CString(name) && Printable(v)
    ensures MemberText(PrintMember(name, v, depth, fmt))
    decreases v, 1
  {
    hide Print, PrintString, Element, StringText, Ws, Indent, MemberText;
    StringIsJson(name);
    PrintIsJson(v, depth, fmt);
    LayoutIsWs(depth, fmt);
    NoWs();
    PadElement(Colon(fmt)[1..], Print(v, depth, fmt), "");
    MemberOf(Indent(depth, fmt), PrintString(name), Colon(fmt), Print(v, depth, fmt));
  }

  lemma MemberOf(indent: string, quoted: string, colon: string, own: string)
    requires Ws(indent) && StringText(quoted) && colon != "" && colon[0] == ':' && Ws("")
    requires Element(colon[1..] + own + "")
    ensures MemberText(indent + quoted + colon + own)
  {
    hide StringText, Element, Ws;
    var s, i, j := indent + quoted + colon + own, |indent|, |indent| + |quoted|;
    assert s[..i] == indent && s[i..j] == quoted && s[j..j] == "" && s[j + 1..] == colon[1..] + own + "";
    assert NameParts(s, i, j, j);
  }
}
