/**
 Printing and parsing again: the printed text of any printable tree, formatted or not, is read back as the same tree,
 and the reader stops exactly at its end.
 */
module JsonRoundTrip {
  import opened Common
  import opened JsonText
  import opened JsonModel
  import opened JsonParse

  /** What may follow a number without being taken for more of it. */
  predicate Delimits(c: char) {
    !IsDigit(c) && c != '.' && c != 'e' && c != 'E'
  }

  lemma {:induction false} SkipOver(text: string, i: nat, w: string)
    requires Stands(text, i, w) && Spaces(w)
    ensures Skip(text, i) == Skip(text, i + |w|)
    decreases |w|
  {
    if w != [] {
      StandsAt(text, i, w, 0);
      assert w == [w[0]] + w[1..];
      StandsSplit(text, i, [w[0]], w[1..]);
      SkipOver(text, i + 1, w[1..]);
    }
  }

  // ----- Concatenation is associative --------------------------------------------------------------------

  lemma RegroupEscape(a: string, b: string, c: string)
    ensures (a + b) + c == a + (b + c)
  {}

  lemma RegroupItems(own: string, comma: string, rest: string, end: string)
    ensures own + comma + rest + end == own + (comma + (rest + end))
  {}

  lemma RegroupPair(lead: string, indent: string, name: string, colon: string, own: string)
    ensures lead + (indent + name + colon + own) == (lead + indent) + (name + (colon + own))
  {}

  lemma RegroupLast(lead: string, own: string, newline: string, close: string, end: string)
    ensures lead + ((own + newline) + (close + end)) == (lead + own) + ((newline + close) + end)
  {}

  lemma RegroupNext(lead: string, own: string, comma: string, newline: string, rest: string, end: string)
    ensures lead + ((own + comma + newline + rest) + end) == (lead + own) + (comma + (newline + (rest + end)))
  {}

  lemma SpacesJoin(a: string, b: string)
    requires Spaces(a) && Spaces(b)
    ensures Spaces(a + b)
  {}

  // ----- Numbers --------------------------------------------------------------------------------------

  lemma {:induction false} ReadsDecimal(text: string, i: nat, n: nat)
    requires Stands(text, i, Decimal(n))
    ensures ReadDigits(text, i, 0) == ReadDigits(text, i + |Decimal(n)|, n)
  {
    var s := Decimal(n);
    StandsAt(text, i, s, |s| - 1);
    if n >= 10 {
      StandsSplit(text, i, Decimal(n / 10), [DigitOf(n % 10)]);
      ReadsDecimal(text, i, n / 10);
    }
  }

  lemma ReadsMagnitude(text: string, i: nat, n: nat)
    requires Stands(text, i, Decimal(n)) && !IsDigit(At(text, i + |Decimal(n)|))
    ensures Magnitude(text, i) == (n, i + |Decimal(n)|)
  {
    StandsAt(text, i, Decimal(n), 0);
    ReadsDecimal(text, i, n);
  }

  /** The first character decides what is read, unless it begins a word. */
  lemma Dispatch(text: string, i: nat)
    requires i < |text|
    ensures text[i] == '\"' ==>
              ParseValue(text, i) == match ParseString(text, i)
                                     case Parsed(s, end) => Parsed(String(s), end)
                                     case Failed(at) => Failed(at)
                                     case Outside => Outside
    ensures text[i] == '-' || IsDigit(text[i]) ==> ParseValue(text, i) == ParseNumber(text, i)
    ensures text[i] == '[' ==> ParseValue(text, i) == ParseArray(text, i)
    ensures text[i] == '{' ==> ParseValue(text, i) == ParseObject(text, i)
  {
    hide ParseString, ParseNumber, ParseArray, ParseObject;
    assert Stands(text, i, "null") ==> text[i..i + 4][0] == 'n';
    assert Stands(text, i, "false") ==> text[i..i + 5][0] == 'f';
    assert Stands(text, i, "true") ==> text[i..i + 4][0] == 't';
  }

  lemma ReadsNumber(text: string, i: nat, n: int)
    requires Stands(text, i, PrintNumber(n)) && INT_MIN <= n <= INT_MAX && Delimits(At(text, i + |PrintNumber(n)|))
    ensures ParseValue(text, i) == Parsed(Number(n), i + |PrintNumber(n)|)
  {
    hide Stands, Magnitude, ParseValue, Decimal;
    StandsAt(text, i, PrintNumber(n), 0);
    if n < 0 {
      StandsSplit(text, i, "-", Decimal(-n));
      ReadsMagnitude(text, i + 1, -n);
    } else {
      ReadsMagnitude(text, i, n);
    }
    Dispatch(text, i);
  }

  // ----- Strings ----------------------------------------------------------------------------------------

  lemma HexByte(text: string, i: nat, c: char)
    requires c as int < 32 && Stands(text, i, ['\\', 'u', '0', '0', HexDigit(c as int / 16), HexDigit(c as int % 16)])
    ensures StartsUnit(text, i) && HasHex4(text, i + 2) && Hex4(text, i + 2) == c as int
  {
    var e := ['\\', 'u', '0', '0', HexDigit(c as int / 16), HexDigit(c as int % 16)];
    assert text[i..i + 6] == e;
    forall k | 0 <= k < 6
      ensures At(text, i + k) == e[k]
    {
      StandsAt(text, i, e, k);
    }
    assert At(text, i + 2) == e[2] && At(text, i + 3) == e[3] && At(text, i + 4) == e[4] && At(text, i + 5) == e[5];
    assert At(text, i) == e[0] && At(text, i + 1) == e[1];
  }

  /** One escaped character is read back as itself. */
  lemma ReadsEscape(text: string, i: nat, c: char)
    requires Stands(text, i, EscapeChar(c)) && 0 < c as int < 256
    ensures Literal(text, i) == Before([c], Literal(text, i + |EscapeChar(c)|))
  {
    var e := EscapeChar(c);
    StandsAt(text, i, e, 0);
    if Letter(c).Some? {
      StandsAt(text, i, e, 1);
    } else if c as int < 32 {
      HexByte(text, i, c);
      assert Unicode(text, i) == Some(([c], i + 6));
    }
  }

  lemma CStringTail(s: string)
    requires CString(s) && s != []
    ensures 0 < s[0] as int < 256 && CString(s[1..])
  {}

  lemma NothingEscaped(text: string, i: nat, s: string)
    requires Stands(text, i, Escape(s) + "\"") && s == []
    ensures Literal(text, i) == Some((s, i + |Escape(s)| + 1))
  {
    assert Escape(s) + "\"" == "\"";
    StandsAt(text, i, "\"", 0);
  }

  lemma EscapedStep(text: string, i: nat, c: char, s: string, end: nat)
    requires Stands(text, i, EscapeChar(c)) && 0 < c as int < 256
    requires i + |EscapeChar(c)| <= |text| && Literal(text, i + |EscapeChar(c)|) == Some((s, end))
    ensures Literal(text, i) == Some(([c] + s, end))
  {
    hide Literal, Stands, EscapeChar;
    ReadsEscape(text, i, c);
  }

  lemma EscapeCons(s: string)
    requires s != []
    ensures Escape(s) == EscapeChar(s[0]) + Escape(s[1..])
  {}

  lemma EscapeSplit(text: string, i: nat, s: string)
    requires Stands(text, i, Escape(s) + "\"") && s != []
    ensures var e, rest := EscapeChar(s[0]), Escape(s[1..]);
            Stands(text, i, e) && Stands(text, i + |e|, rest + "\"") && |Escape(s)| == |e| + |rest|
  {
    hide *;
    var e, rest := EscapeChar(s[0]), Escape(s[1..]);
    EscapeCons(s);
    RegroupEscape(e, rest, "\"");
    StandsSplit(text, i, e, rest + "\"");
  }

  lemma {:induction false} ReadsEscaped(text: string, i: nat, s: string)
    requires Stands(text, i, Escape(s) + "\"") && CString(s)
    ensures Literal(text, i) == Some((s, i + |Escape(s)| + 1))
    decreases |s|
  {
    hide *;
    if s == [] {
      NothingEscaped(text, i, s);
    } else {
      var e, rest := EscapeChar(s[0]), Escape(s[1..]);
      CStringTail(s);
      EscapeSplit(text, i, s);
      ReadsEscaped(text, i + |e|, s[1..]);
      EscapedStep(text, i, s[0], s[1..], i + |e| + |rest| + 1);
      assert [s[0]] + s[1..] == s;
    }
  }

  lemma ReadsString(text: string, i: nat, s: string)
    requires Stands(text, i, PrintString(s)) && CString(s)
    ensures ParseString(text, i) == Parsed(s, i + |PrintString(s)|)
  {
    StandsAt(text, i, PrintString(s), 0);
    assert PrintString(s) == "\"" + (Escape(s) + "\"");
    StandsSplit(text, i, "\"", Escape(s) + "\"");
    ReadsEscaped(text, i + 1, s);
  }

  // ----- Values -----------------------------------------------------------------------------------------

  /** The first character tells a value from white space and from the closing brackets. */
  lemma PrintStarts(v: Json, depth: nat, fmt: bool)
    ensures var s := Print(v, depth, fmt);
            s != [] && !IsSpace(s[0]) && s[0] != ']'
  {
    hide Escape, PrintItems, PrintMembers, Indent, Newline;
  }

  lemma ItemsStart(items: Items, depth: nat, fmt: bool)
    ensures var s := PrintItems(items, depth, fmt);
            if items.NoItem? then s == [] else s != [] && !IsSpace(s[0]) && s[0] != ']'
  {
    hide Print;
    if items.Item? {
      PrintStarts(items.value, depth, fmt);
    }
  }

  lemma ReadsWord(text: string, i: nat, v: Json)
    requires v.Null? || v.Bool?
    requires Stands(text, i, Print(v, 0, false))
    ensures ParseValue(text, i) == Parsed(v, i + |Print(v, 0, false)|)
  {
    hide ParseString, ParseNumber, ParseArray, ParseObject;
    var word := if v.Null? then "null" else if v.b then "true" else "false";
    assert Print(v, 0, false) == word;
    assert text[i..i + |word|][0] == word[0];
    assert Stands(text, i, "null") ==> text[i..i + 4][0] == 'n';
    assert Stands(text, i, "false") ==> text[i..i + 5][0] == 'f';
  }

  /** The main statement for one value, wherever in a text it stands. */
  lemma {:induction false} ReadsValue(text: string, i: nat, v: Json, depth: nat, fmt: bool)
    requires Stands(text, i, Print(v, depth, fmt)) && Printable(v)
    requires Delimits(At(text, i + |Print(v, depth, fmt)|))
    ensures ParseValue(text, i) == Parsed(v, i + |Print(v, depth, fmt)|)
    decreases v, 0
  {
    hide Stands, ParseValue, ParseString, PrintString;
    match v
    case Null => ReadsWord(text, i, v);
    case Bool(b) => ReadsWord(text, i, v);
    case Number(n) => ReadsNumber(text, i, n);
    case String(s) =>
      ReadsString(text, i, s);
      QuoteFirst(s);
      StandsAt(text, i, PrintString(s), 0);
      Dispatch(text, i);
    case Array(items) => ReadsArray(text, i, items, depth, fmt);
    case Object(members) => ReadsObject(text, i, members, depth, fmt);
  }

  /** After a mark of layout, the reader goes on at the next token. */
  lemma SkipMark(text: string, i: nat, mark: string, rest: string)
    requires mark != [] && Spaces(mark[1..]) && Stands(text, i, mark + rest)
    requires rest != [] && !IsSpace(rest[0])
    ensures At(text, i) == mark[0] && Skip(text, i + 1) == i + |mark| && Stands(text, i + |mark|, rest)
  {
    hide Stands;
    assert mark + rest == [mark[0]] + (mark[1..] + rest);
    StandsSplit(text, i, [mark[0]], mark[1..] + rest);
    StandsSplit(text, i + 1, mark[1..], rest);
    SkipOver(text, i + 1, mark[1..]);
    StandsAt(text, i, [mark[0]], 0);
    StandsAt(text, i + |mark|, rest, 0);
  }

  lemma SkipSpaces(text: string, i: nat, w: string, rest: string)
    requires Spaces(w) && Stands(text, i, w + rest) && rest != [] && !IsSpace(rest[0])
    ensures Skip(text, i) == i + |w| && At(text, i + |w|) == rest[0] && Stands(text, i + |w|, rest)
  {
    hide Stands;
    StandsSplit(text, i, w, rest);
    SkipOver(text, i, w);
    StandsAt(text, i + |w|, rest, 0);
  }

  lemma {:induction false} ReadsArray(text: string, i: nat, items: Items, depth: nat, fmt: bool)
    requires Stands(text, i, Print(Array(items), depth, fmt)) && PrintableItems(items)
    ensures ParseValue(text, i) == Parsed(Array(items), i + |Print(Array(items), depth, fmt)|)
    decreases items, 1
  {
    hide Stands, ParseValue, ParseItems, PrintItems;
    var inner := PrintItems(items, depth + 1, fmt);
    assert Print(Array(items), depth, fmt) == "[" + (inner + "]");
    StandsSplit(text, i, "[", inner + "]");
    StandsAt(text, i, "[", 0);
    Dispatch(text, i);
    ItemsStart(items, depth + 1, fmt);
    StandsAt(text, i + 1, inner + "]", 0);
    if items.Item? {
      ReadsItems(text, i + 1, items, depth + 1, fmt);
    }
  }

  /** How the reader goes on after an item, a name and a member. */
  lemma ItemsUnfold(t: string, k: nat, v: Json, e: nat)
    requires k <= |t| && ParseValue(t, Skip(t, k)) == Parsed(v, e)
    ensures e <= |t| && (At(t, Skip(t, e)) == ']' ==> ParseItems(t, k) == Parsed(Item(v, NoItem), Skip(t, e) + 1))
    ensures At(t, Skip(t, e)) == ',' && ParseItems(t, Skip(t, e) + 1).Parsed? ==>
              ParseItems(t, k) == Parsed(Item(v, ParseItems(t, Skip(t, e) + 1).value),
                  ParseItems(t, Skip(t, e) + 1).end)
  {
    hide ParseValue, Skip;
  }

  lemma PairUnfold(t: string, k: nat, name: string, e: nat)
    requires k <= |t| && ParseString(t, Skip(t, k)) == Parsed(name, e)
    ensures e <= |t|
    ensures At(t, Skip(t, e)) == ':' && ParseValue(t, Skip(t, Skip(t, e) + 1)).Parsed? ==>
              var v := ParseValue(t, Skip(t, Skip(t, e) + 1));
              ParsePair(t, k) == Parsed((name, v.value), v.end)
  {
    hide ParseString, ParseValue, Skip;
  }

  lemma MembersUnfold(t: string, k: nat, name: string, v: Json, e: nat)
    requires k <= |t| && ParsePair(t, k) == Parsed((name, v), e)
    ensures e <= |t| && (At(t, Skip(t, e)) == '}' ==>
            ParseMembers(t, k) == Parsed(Member(name, v, NoMember), Skip(t, e) + 1))
    ensures At(t, Skip(t, e)) == ',' && ParseMembers(t, Skip(t, e) + 1).Parsed? ==>
              ParseMembers(t, k) ==
              Parsed(Member(name, v, ParseMembers(t, Skip(t, e) + 1).value), ParseMembers(t, Skip(t, e) + 1).end)
  {
    hide ParsePair, Skip;
  }

  lemma {:induction false} ReadsItems(text: string, i: nat, items: Items, depth: nat, fmt: bool)
    requires items.Item? && PrintableItems(items)
    requires Stands(text, Skip(text, i), PrintItems(items, depth, fmt) + "]")
    ensures i <= |text| && ParseItems(text, i) == Parsed(items, Skip(text, i) + |PrintItems(items, depth, fmt)| + 1)
    decreases items, 0
  {
    hide Stands, ParseItems, ParseValue, Print, Comma, Skip, Spaces, At;
    var at, own := Skip(text, i), Print(items.value, depth, fmt);
    var end := at + |own|;
    if items.next.NoItem? {
      StandsSplit(text, at, own, "]");
      StandsAt(text, end, "]", 0);
      ReadsValue(text, at, items.value, depth, fmt);
    } else {
      var more := PrintItems(items.next, depth, fmt);
      assert PrintItems(items, depth, fmt) == own + Comma(fmt) + more;
      RegroupItems(own, Comma(fmt), more, "]");
      hide PrintItems;
      StandsSplit(text, at, own, Comma(fmt) + (more + "]"));
      ItemsStart(items.next, depth, fmt);
      SkipMark(text, end, Comma(fmt), more + "]");
      ReadsValue(text, at, items.value, depth, fmt);
      ReadsItems(text, end + 1, items.next, depth, fmt);
    }
    ItemsUnfold(text, i, items.value, end);
  }

  lemma {:induction false} ReadsObject(text: string, i: nat, members: Members, depth: nat, fmt: bool)
    requires Stands(text, i, Print(Object(members), depth, fmt)) && PrintableMembers(members)
    ensures ParseValue(text, i) == Parsed(Object(members), i + |Print(Object(members), depth, fmt)|)
    decreases members, 2
  {
    hide *;
    if members.NoMember? {
      ReadsNoMember(text, i, members, depth, fmt);
    } else {
      ObjectOpens(text, i, members, depth, fmt);
      NewlineSpaces(depth, fmt);
      ReadsMembers(text, i + 1, Newline(fmt), members, depth + 1, fmt, Indent(depth, fmt));
      ObjectUnfold(text, i, members,
                   i + 1 + |Newline(fmt)| + |PrintMembers(members, depth + 1, fmt)| + |Indent(depth, fmt)| + 1);
    }
  }

  lemma NewlineSpaces(depth: int, fmt: bool)
    ensures Spaces(Newline(fmt)) && Spaces(Indent(depth, fmt))
  {}

  lemma ReadsNoMember(text: string, i: nat, members: Members, depth: nat, fmt: bool)
    requires members.NoMember? && Stands(text, i, Print(Object(members), depth, fmt))
    ensures ParseValue(text, i) == Parsed(Object(members), i + |Print(Object(members), depth, fmt)|)
  {
    hide Stands, ParseValue, ParseMembers, Newline, Indent, Skip, Spaces, At;
    var blank := Newline(fmt) + Indent(depth - 1, fmt);
    NewlineSpaces(depth - 1, fmt);
    SpacesJoin(Newline(fmt), Indent(depth - 1, fmt));
    assert Print(Object(members), depth, fmt) == "{" + (blank + "}");
    StandsSplit(text, i, "{", blank + "}");
    SkipSpaces(text, i + 1, blank, "}");
    StandsAt(text, i, "{", 0);
    Dispatch(text, i);
  }

  /** A printed object begins with a brace and, after white space, a name; its members stand behind the brace. */
  lemma ObjectOpens(text: string, i: nat, members: Members, depth: nat, fmt: bool)
    requires members.Member? && Stands(text, i, Print(Object(members), depth, fmt))
    ensures var inner, close := PrintMembers(members, depth + 1, fmt), Indent(depth, fmt);
            && i < |text| && text[i] == '{' && At(text, Skip(text, i + 1)) == '\"'
            && Stands(text, i + 1, Newline(fmt) + (inner + (close + "}")))
            && |Print(Object(members), depth, fmt)| == 1 + |Newline(fmt)| + |inner| + |close| + 1
  {
    hide *;
    var inner, close := PrintMembers(members, depth + 1, fmt), Indent(depth, fmt) + "}";
    ObjectText(members, depth, fmt);
    var name := MembersStart(members, depth + 1, fmt);
    NewlineSpaces(depth + 1, fmt);
    BraceAndName(text, i, Newline(fmt), Indent(depth + 1, fmt), name, inner, close);
  }

  lemma ObjectText(members: Members, depth: nat, fmt: bool)
    requires members.Member?
    ensures Print(Object(members), depth, fmt) ==
            "{" + (Newline(fmt) + (PrintMembers(members, depth + 1, fmt) + (Indent(depth, fmt) + "}")))
  {
    hide PrintMembers, Newline, Indent;
  }

  lemma BraceAndName(text: string, i: nat, lead: string, indent: string, name: string, inner: string, close: string)
    requires Spaces(lead) && Spaces(indent) && name != [] && name[0] == '\"' && inner == indent + name
    requires Stands(text, i, "{" + (lead + (inner + close)))
    ensures i < |text| && text[i] == '{' && At(text, Skip(text, i + 1)) == '\"'
    ensures Stands(text, i + 1, lead + (inner + close))
  {
    hide Stands, Skip, Spaces;
    StandsSplit(text, i, "{", lead + (inner + close));
    StandsAt(text, i, "{", 0);
    SpacesJoin(lead, indent);
    assert lead + ((indent + name) + close) == (lead + indent) + (name + close);
    SkipSpaces(text, i + 1, lead + indent, name + close);
  }

  lemma ObjectUnfold(text: string, i: nat, members: Members, end: nat)
    requires i < |text| && text[i] == '{' && At(text, Skip(text, i + 1)) == '\"'
    requires ParseMembers(text, i + 1) == Parsed(members, end)
    ensures ParseValue(text, i) == Parsed(Object(members), end)
  {
    hide ParseValue, ParseMembers, Skip;
    SkipFirst(text, i + 1);
    Dispatch(text, i);
  }

  /** Leading white space makes no difference to the members read. */
  lemma SkipFirst(text: string, i: nat)
    requires i <= |text|
    ensures ParseMembers(text, i) == ParseMembers(text, Skip(text, i))
  {
    hide ParsePair;
    PairSkips(text, i);
    assert ParsePair(text, i) == ParsePair(text, Skip(text, i));
  }

  lemma SkipTwice(text: string, i: nat)
    ensures Skip(text, Skip(text, i)) == Skip(text, i)
  {}

  lemma PairSkips(text: string, i: nat)
    requires i <= |text|
    ensures ParsePair(text, i) == ParsePair(text, Skip(text, i))
  {
    SkipTwice(text, i);
    hide ParseString, ParseValue, Skip, At;
  }

  /** The members begin with indentation and a name. */
  lemma MembersStart(members: Members, depth: nat, fmt: bool) returns (s: string)
    requires members.Member?
    ensures s != [] && s[0] == '\"' && PrintMembers(members, depth, fmt) == Indent(depth, fmt) + s
  {
    hide Escape, Print, Indent, Colon, Newline;
    var name, rest := PrintString(members.name), Colon(fmt) + Print(members.value, depth, fmt);
    var end := if members.next.NoMember? then Newline(fmt)
               else "," + Newline(fmt) + PrintMembers(members.next, depth, fmt);
    s := name + rest + end;
    assert PrintMember(members.name, members.value, depth, fmt) == Indent(depth, fmt) + (name + rest);
  }

  /** Name, colon and value of one member. */
  lemma {:induction false} ReadsPair(text: string, i: nat, lead: string, name: string, v: Json, depth: nat, fmt: bool)
    requires Spaces(lead) && CString(name) && Printable(v)
    requires Stands(text, i, lead + PrintMember(name, v, depth, fmt))
    requires Delimits(At(text, i + |lead + PrintMember(name, v, depth, fmt)|))
    ensures ParsePair(text, i) == Parsed((name, v), i + |lead + PrintMember(name, v, depth, fmt)|)
    decreases v, 1
  {
    hide Stands, PrintString, Print, ParseString, ParseValue, Indent, Colon, Skip, Spaces, At;
    var blank, quoted, own := lead + Indent(depth, fmt), PrintString(name), Print(v, depth, fmt);
    RegroupPair(lead, Indent(depth, fmt), quoted, Colon(fmt), own);
    QuoteFirst(name);
    SpacesJoin(lead, Indent(depth, fmt));
    SkipSpaces(text, i, blank, quoted + (Colon(fmt) + own));
    var at := i + |blank|;
    StandsSplit(text, at, quoted, Colon(fmt) + own);
    ReadsString(text, at, name);
    PrintStarts(v, depth, fmt);
    SkipMark(text, at + |quoted|, Colon(fmt), own);
    ReadsValue(text, at + |quoted| + |Colon(fmt)|, v, depth, fmt);
  }

  lemma QuoteFirst(name: string)
    ensures PrintString(name) != [] && PrintString(name)[0] == '\"'
  {
  }

  lemma {:induction false} ReadsMembers(text: string, i: nat, lead: string, members: Members, depth: nat, fmt: bool,
                                        close: string)
    requires members.Member? && PrintableMembers(members) && Spaces(lead) && Spaces(close)
    requires Stands(text, i, lead + (PrintMembers(members, depth, fmt) + (close + "}")))
    ensures ParseMembers(text, i) == Parsed(members, i + |lead| + |PrintMembers(members, depth, fmt)| + |close| + 1)
    decreases members, 1
  {
    hide Stands, PrintMember, PrintMembers, ParseMembers, ParsePair, Newline, Skip, Spaces, At;
    var line := PrintMember(members.name, members.value, depth, fmt);
    var end := i + |lead + line|;
    MembersCons(members, depth, fmt);
    if members.next.NoMember? {
      LastLine(text, i, lead, line, Newline(fmt), close);
      ReadsPair(text, i, lead, members.name, members.value, depth, fmt);
    } else {
      NextLine(text, i, lead, line, Newline(fmt), PrintMembers(members.next, depth, fmt), close);
      ReadsPair(text, i, lead, members.name, members.value, depth, fmt);
      ReadsMembers(text, end + 1, Newline(fmt), members.next, depth, fmt, close);
    }
    MembersUnfold(text, i, members.name, members.value, end);
  }

  /** The last member's line and what closes the object. */
  lemma LastLine(text: string, i: nat, lead: string, line: string, newline: string, close: string)
    requires Stands(text, i, lead + ((line + newline) + (close + "}"))) && Spaces(newline) && Spaces(close)
    ensures Stands(text, i, lead + line) && Delimits(At(text, i + |lead + line|))
    ensures Skip(text, i + |lead + line|) == i + |lead + line| + |newline| + |close|
    ensures At(text, Skip(text, i + |lead + line|)) == '}'
  {
    hide Stands, Skip, Spaces;
    var own, blank := lead + line, newline + close;
    SpacesJoin(newline, close);
    RegroupLast(lead, line, newline, close, "}");
    StandsSplit(text, i, own, blank + "}");
    SkipSpaces(text, i + |own|, blank, "}");
    StandsAt(text, i + |own|, blank + "}", 0);
    SpaceDelimits(blank);
  }

  lemma SpaceDelimits(blank: string)
    requires Spaces(blank)
    ensures Delimits((blank + "}")[0])
  {}

  /** A member's line, the comma, and the further lines. */
  lemma NextLine(text: string, i: nat, lead: string, line: string, newline: string, rest: string, close: string)
    requires Stands(text, i, lead + ((line + (("," + newline) + rest)) + (close + "}")))
    ensures Stands(text, i, lead + line) && At(text, i + |lead + line|) == ','
    ensures Skip(text, i + |lead + line|) == i + |lead + line|
    ensures Stands(text, i + |lead + line| + 1, newline + (rest + (close + "}")))
  {
    hide Stands;
    var own, more := lead + line, newline + (rest + (close + "}"));
    assert lead + ((line + (("," + newline) + rest)) + (close + "}")) == own + ("," + more);
    StandsSplit(text, i, own, "," + more);
    StandsSplit(text, i + |own|, ",", more);
    StandsAt(text, i + |own|, ",", 0);
  }

  /** Parsing the printed text of a tree returns the tree and stops at the end of the text, required to or not. */
  lemma ParsePrinted(v: Json, depth: nat, fmt: bool, toTheEnd: bool)
    requires Printable(v)
    ensures ParseText(Print(v, depth, fmt), toTheEnd) == Parsed(v, |Print(v, depth, fmt)|)
  {
    hide Print, ParseValue;
    var text := Print(v, depth, fmt);
    PrintStarts(v, depth, fmt);
    assert text[0..0 + |text|] == text;
    ReadsValue(text, 0, v, depth, fmt);
  }

  /** So two printable trees with the same text, at whatever depth, are the same tree. */
  lemma PrintIsInjective(v: Json, w: Json, depth: nat, depth': nat, fmt: bool, fmt': bool)
    requires Printable(v) && Printable(w) && Print(v, depth, fmt) == Print(w, depth', fmt')
    ensures v == w
  {
    hide Print, ParseText;
    ParsePrinted(v, depth, fmt, false);
    ParsePrinted(w, depth', fmt', false);
  }
}
