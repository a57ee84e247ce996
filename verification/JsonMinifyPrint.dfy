/** Minifying formatted text: the layout goes, everything else stays, and what is left is the unformatted print. */
module JsonMinifyPrint {
  import opened Common
  import opened JsonText
  import opened JsonModel
  import opened JsonMinify
  import opened JsonWriter

  /** Minifying the text from i to j keeps `m`. */
  predicate Region(text: string, i: nat, j: nat, m: string) {
    i <= j <= |text| && Minified(text, i) == After(m, Minified(text, j))
  }

  lemma Join(text: string, i: nat, j: nat, k: nat, a: string, b: string)
    requires Region(text, i, j, a) && Region(text, j, k, b)
    ensures Region(text, i, k, a + b)
  {
    AfterTwice(a, b, Minified(text, k));
  }

  predicate Blanks(w: string) {
    forall i | 0 <= i < |w| :: IsBlank(w[i])
  }

  /** Copied outside of strings as it is. */
  predicate IsToken(c: char) {
    !IsBlank(c) && c != '/' && c != '\"' && c != NUL
  }

  predicate Tokens(s: string) {
    forall i | 0 <= i < |s| :: IsToken(s[i])
  }

  lemma {:induction false} DropBlanks(text: string, i: nat, w: string)
    requires Blanks(w) && Stands(text, i, w)
    ensures Region(text, i, i + |w|, "")
    decreases |w|
  {
    hide Stands;
    if w == [] {
      StandsBounds(text, i, w);
      AfterTwice([], [], Minified(text, i));
    } else {
      StandsAt(text, i, w, 0);
      assert w == [w[0]] + w[1..];
      StandsSplit(text, i, [w[0]], w[1..]);
      DropBlanks(text, i + 1, w[1..]);
    }
  }

  lemma StandsBounds(text: string, i: nat, s: string)
    requires Stands(text, i, s)
    ensures i + |s| <= |text|
  {}

  lemma {:induction false} CopyTokens(text: string, i: nat, s: string)
    requires Tokens(s) && Stands(text, i, s)
    ensures Region(text, i, i + |s|, s)
    decreases |s|
  {
    hide Stands;
    if s == [] {
      StandsBounds(text, i, s);
      AfterTwice([], [], Minified(text, i));
    } else {
      StandsAt(text, i, s, 0);
      assert s == [s[0]] + s[1..];
      StandsSplit(text, i, [s[0]], s[1..]);
      CopyTokens(text, i + 1, s[1..]);
      Join(text, i, i + 1, i + |s|, [s[0]], s[1..]);
    }
  }

  /** A mark of layout: its first character stays, the blanks after it go. */
  lemma CopyMark(text: string, i: nat, mark: string)
    requires mark != [] && IsToken(mark[0]) && Blanks(mark[1..]) && Stands(text, i, mark)
    ensures Region(text, i, i + |mark|, [mark[0]])
  {
    hide Stands;
    assert mark == [mark[0]] + mark[1..];
    StandsSplit(text, i, [mark[0]], mark[1..]);
    CopyTokens(text, i, [mark[0]]);
    DropBlanks(text, i + 1, mark[1..]);
    Join(text, i, i + 1, i + |mark|, [mark[0]], "");
    assert [mark[0]] + "" == [mark[0]];
  }

  // ----- Strings ------------------------------------------------------------------------------------------

  lemma EscapeCharEnds(text: string, i: nat, c: char)
    requires Stands(text, i, EscapeChar(c)) && c != NUL
    ensures i + |EscapeChar(c)| <= |text| && StringEnd(text, i) == StringEnd(text, i + |EscapeChar(c)|)
  {
    hide Stands;
    var e := EscapeChar(c);
    StandsAt(text, i, e, 0);
    if |e| > 1 {
      StandsAt(text, i, e, 1);
    }
    if |e| == 6 {
      StandsAt(text, i, e, 2);
      StandsAt(text, i, e, 3);
      StandsAt(text, i, e, 4);
      StandsAt(text, i, e, 5);
      assert StringEnd(text, i + 2) == StringEnd(text, i + 3) == StringEnd(text, i + 4);
      assert StringEnd(text, i + 4) == StringEnd(text, i + 5) == StringEnd(text, i + 6);
    }
  }

  lemma {:induction false} EscapeEnds(text: string, i: nat, s: string)
    requires Stands(text, i, Escape(s) + "\"") && CString(s)
    ensures i <= |text| && StringEnd(text, i) == Some(i + |Escape(s)| + 1)
    decreases |s|
  {
    hide Stands, EscapeChar;
    if s == [] {
      assert Escape(s) + "\"" == "\"";
      StandsAt(text, i, "\"", 0);
    } else {
      hide StringEnd;
      var e, rest := EscapeChar(s[0]), Escape(s[1..]) + "\"";
      assert Escape(s) + "\"" == e + rest;
      StandsSplit(text, i, e, rest);
      EscapeCharEnds(text, i, s[0]);
      EscapeEnds(text, i + |e|, s[1..]);
    }
  }

  /** The content of a string survives byte for byte. */
  lemma CopyPrinted(text: string, i: nat, s: string)
    requires Stands(text, i, PrintString(s)) && CString(s)
    ensures Region(text, i, i + |PrintString(s)|, PrintString(s))
  {
    assert PrintString(s) == "\"" + (Escape(s) + "\"");
    StandsSplit(text, i, "\"", Escape(s) + "\"");
    StandsAt(text, i, "\"", 0);
    EscapeEnds(text, i + 1, s);
  }

  // ----- Values ---------------------------------------------------------------------------------------------

  lemma LayoutIsBlank(depth: int, fmt: bool)
    ensures Blanks(Newline(fmt)) && Blanks(Indent(depth, fmt)) && Blanks(Colon(fmt)[1..]) && Blanks(Comma(fmt)[1..])
    ensures Blanks(Newline(fmt) + Indent(depth, fmt))
  {}

  lemma WordIsTokens(v: Json)
    requires v.Null? || v.Bool? || v.Number?
    ensures Tokens(Print(v, 0, false))
  {
    hide Decimal;
  }

  lemma {:induction false} MinifiesValue(text: string, i: nat, v: Json, depth: nat, fmt: bool, flat: nat)
    requires Stands(text, i, Print(v, depth, fmt)) && Printable(v)
    ensures Region(text, i, i + |Print(v, depth, fmt)|, Print(v, flat, false))
    decreases v, 0
  {
    hide Stands, Region, PrintString, PrintItems;
    match v
    case String(s) => CopyPrinted(text, i, s);
    case Array(items) =>
      var inner, kept := PrintItems(items, depth + 1, fmt), PrintItems(items, flat + 1, false);
      assert Print(v, depth, fmt) == "[" + (inner + "]");
      StandsSplit(text, i, "[", inner + "]");
      StandsSplit(text, i + 1, inner, "]");
      CopyTokens(text, i, "[");
      MinifiesItems(text, i + 1, items, depth + 1, fmt, flat + 1);
      CopyTokens(text, i + 1 + |inner|, "]");
      Join(text, i, i + 1, i + 1 + |inner|, "[", kept);
      Join(text, i, i + 1 + |inner|, i + 1 + |inner| + 1, "[" + kept, "]");
    case Object(members) => MinifiesObject(text, i, members, depth, fmt, flat);
    case _ =>
      WordIsTokens(v);
      CopyTokens(text, i, Print(v, depth, fmt));
  }

  lemma {:induction false} MinifiesItems(text: string, i: nat, items: Items, depth: nat, fmt: bool, flat: nat)
    requires Stands(text, i, PrintItems(items, depth, fmt)) && PrintableItems(items)
    ensures Region(text, i, i + |PrintItems(items, depth, fmt)|, PrintItems(items, flat, false))
    decreases items
  {
    hide Stands, Region, Print;
    if items.NoItem? {
      CopyTokens(text, i, "");
    } else if items.next.NoItem? {
      MinifiesValue(text, i, items.value, depth, fmt, flat);
    } else {
      var own, rest := Print(items.value, depth, fmt), PrintItems(items.next, depth, fmt);
      var j, k := i + |own|, i + |own| + |Comma(fmt)|;
      assert PrintItems(items, depth, fmt) == own + (Comma(fmt) + rest);
      StandsSplit(text, i, own, Comma(fmt) + rest);
      StandsSplit(text, j, Comma(fmt), rest);
      MinifiesValue(text, i, items.value, depth, fmt, flat);
      LayoutIsBlank(0, fmt);
      CopyMark(text, j, Comma(fmt));
      MinifiesItems(text, k, items.next, depth, fmt, flat);
      Join(text, i, j, k, Print(items.value, flat, false), ",");
      Join(text, i, k, k + |rest|, Print(items.value, flat, false) + ",", PrintItems(items.next, flat, false));
    }
  }

  /** An object's text in four parts, the third of them blank; without members the second is empty. */
  lemma ObjectParts(members: Members, depth: nat, fmt: bool) returns (close: string)
    ensures Print(Object(members), depth, fmt) ==
            ("{" + Newline(fmt)) + (PrintMembers(members, depth + 1, fmt) + (close + "}"))
    ensures Blanks(close)
            && (!fmt ==> Print(Object(members), depth, fmt) == "{" + PrintMembers(members, depth + 1, fmt) + "}")
  {
    hide PrintMember, Newline, Indent, Blanks;
    close := Indent(if members.NoMember? then depth - 1 else depth, fmt);
    LayoutIsBlank(if members.NoMember? then depth - 1 else depth, fmt);
    var lead, inner := Newline(fmt), PrintMembers(members, depth + 1, fmt);
    if members.NoMember? {
      assert inner == "";
      assert "{" + lead + close + "}" == ("{" + lead) + ("" + (close + "}"));
    } else {
      assert "{" + lead + inner + close + "}" == ("{" + lead) + (inner + (close + "}"));
    }
    if !fmt {
      assert lead == "" && close == "";
    }
  }

  lemma {:induction false} MinifiesObject(text: string, i: nat, members: Members, depth: nat, fmt: bool, flat: nat)
    requires Stands(text, i, Print(Object(members), depth, fmt)) && PrintableMembers(members)
    ensures Region(text, i, i + |Print(Object(members), depth, fmt)|, Print(Object(members), flat, false))
    decreases members, 1
  {
    hide Stands, Region, Print, PrintMembers, Newline, Indent, Blanks;
    var close := ObjectParts(members, depth, fmt);
    var close' := ObjectParts(members, flat, false);
    var open, inner := "{" + Newline(fmt), PrintMembers(members, depth + 1, fmt);
    var kept := PrintMembers(members, flat + 1, false);
    var j, k := i + |open|, i + |open| + |inner|;
    StandsSplit(text, i, open, inner + (close + "}"));
    StandsSplit(text, j, inner, close + "}");
    StandsSplit(text, k, close, "}");
    assert open[1..] == Newline(fmt);
    LayoutIsBlank(0, fmt);
    CopyMark(text, i, open);
    MinifiesMembers(text, j, members, depth + 1, fmt, flat + 1);
    DropBlanks(text, k, close);
    CopyTokens(text, k + |close|, "}");
    Join(text, i, j, k, "{", kept);
    Join(text, i, k, k + |close|, "{" + kept, "");
    assert ("{" + kept) + "" == "{" + kept;
    Join(text, i, k + |close|, k + |close| + 1, "{" + kept, "}");
  }

  lemma {:induction false} MinifiesMember(text: string, i: nat, name: string, v: Json, depth: nat, fmt: bool, flat: nat)
    requires Stands(text, i, PrintMember(name, v, depth, fmt)) && CString(name) && Printable(v)
    ensures Region(text, i, i + |PrintMember(name, v, depth, fmt)|, PrintMember(name, v, flat, false))
    decreases v, 1
  {
    hide Stands, Region, Print, PrintString, Colon, Blanks;
    var indent, quoted, own := Indent(depth, fmt), PrintString(name), Print(v, depth, fmt);
    var j, k, l := i + |indent|, i + |indent + quoted|, i + |indent + quoted + Colon(fmt)|;
    assert PrintMember(name, v, depth, fmt) == indent + (quoted + (Colon(fmt) + own));
    StandsSplit(text, i, indent, quoted + (Colon(fmt) + own));
    StandsSplit(text, j, quoted, Colon(fmt) + own);
    StandsSplit(text, k, Colon(fmt), own);
    LayoutIsBlank(depth, fmt);
    DropBlanks(text, i, indent);
    CopyPrinted(text, j, name);
    CopyMark(text, k, Colon(fmt));
    MinifiesValue(text, l, v, depth, fmt, flat);
    Join(text, i, j, k, "", quoted);
    Join(text, i, k, l, "" + quoted, ":");
    Join(text, i, l, l + |own|, "" + quoted + ":", Print(v, flat, false));
    assert Colon(false) == ":" && Indent(flat, false) == "";
  }

  lemma {:induction false} MinifiesMembers(text: string, i: nat, members: Members, depth: nat, fmt: bool, flat: nat)
    requires Stands(text, i, PrintMembers(members, depth, fmt)) && PrintableMembers(members)
    ensures Region(text, i, i + |PrintMembers(members, depth, fmt)|, PrintMembers(members, flat, false))
    decreases members, 0
  {
    hide Stands, Region, PrintMember, PrintMembers, Newline, Blanks;
    if members.NoMember? {
      NoMembers(members, depth, fmt);
      NoMembers(members, flat, false);
      CopyTokens(text, i, "");
    } else {
      var own, kept := PrintMember(members.name, members.value, depth, fmt),
          PrintMember(members.name, members.value, flat, false);
      var newline, rest := Newline(fmt), PrintMembers(members.next, depth, fmt);
      LayoutIsBlank(0, fmt);
      MembersCons(members, depth, fmt);
      MembersCons(members, flat, false);
      FlatNewline();
      if members.next.NoMember? {
        StandsSplit(text, i, own, newline);
        MinifiesMember(text, i, members.name, members.value, depth, fmt, flat);
        JoinEnd(text, i, own, kept, newline);
      } else {
        SplitLine(text, i, own, newline, rest);
        MinifiesMember(text, i, members.name, members.value, depth, fmt, flat);
        MinifiesMembers(text, i + |own| + 1 + |newline|, members.next, depth, fmt, flat);
        JoinLine(text, i, own, kept, newline, rest, PrintMembers(members.next, flat, false));
      }
    }
  }

  /** A line that is not the last one: the member, the comma, which is copied, and the further lines. */
  lemma SplitLine(text: string, i: nat, own: string, newline: string, rest: string)
    requires Stands(text, i, own + (("," + newline) + rest)) && Blanks(newline)
    ensures Stands(text, i, own) && Region(text, i + |own|, i + |own| + 1 + |newline|, ",")
    ensures Stands(text, i + |own| + 1 + |newline|, rest)
  {
    hide Stands, Region, Blanks;
    var mark := "," + newline;
    assert mark[1..] == newline;
    StandsSplit(text, i, own, mark + rest);
    StandsSplit(text, i + |own|, mark, rest);
    CopyMark(text, i + |own|, mark);
  }

  lemma JoinLine(text: string, i: nat, own: string, kept: string, newline: string, rest: string, more: string)
    requires Region(text, i, i + |own|, kept) && Region(text, i + |own|, i + |own| + 1 + |newline|, ",")
    requires Region(text, i + |own| + 1 + |newline|, i + |own| + 1 + |newline| + |rest|, more)
    ensures Region(text, i, i + |own + (("," + newline) + rest)|, kept + (("," + "") + more))
  {
    hide *;
    var j, end := i + |own|, i + |own| + 1 + |newline| + |rest|;
    Join(text, j, j + 1 + |newline|, end, ",", more);
    Join(text, i, j, end, kept, "," + more);
    assert "," + "" == ",";
  }

  lemma JoinEnd(text: string, i: nat, own: string, kept: string, blank: string)
    requires Region(text, i, i + |own|, kept) && Stands(text, i + |own|, blank) && Blanks(blank)
    ensures Region(text, i, i + |own + blank|, kept + "")
  {
    hide *;
    DropBlanks(text, i + |own|, blank);
    Join(text, i, i + |own|, i + |own| + |blank|, kept, "");
  }

  lemma FlatNewline()
    ensures Newline(false) == ""
  {}

  /** Minifying the print of any tree gives exactly its unformatted print; minifying that changes nothing. */
  lemma MinifiesPrint(v: Json, fmt: bool)
    requires Printable(v)
    ensures Minified(Print(v, 0, fmt), 0) == Some(Print(v, 0, false))
  {
    hide Print;
    var text := Print(v, 0, fmt);
    assert text[0..0 + |text|] == text;
    MinifiesValue(text, 0, v, 0, fmt, 0);
    assert Print(v, 0, false) + "" == Print(v, 0, false);
  }

  /**
   In a buffer that holds the print of any tree, formatted or not, minifying leaves the unformatted print, terminated.
   */
  method MinifyPrinted(json: array<char>, ghost v: Json, ghost fmt: bool)
    requires Printable(v) && Holds(json, Print(v, 0, fmt))
    modifies json
    ensures Holds(json, Print(v, 0, false))
  {
    hide Print;
    ghost var text := Print(v, 0, fmt);
    MinifiesPrint(v, fmt);
    PrintNoNul(v, 0, fmt);
    assert text[0..] == text;
    Minify(json, text);
  }
}
