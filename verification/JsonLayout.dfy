/**
 The layout of a formatted print, as a check that runs over the characters of a text and knows only the brackets that
 are open: what follows a colon, a comma and a brace, and how many tabs a line begins with.
 */
module JsonLayout {
  import opened JsonText
  import opened JsonModel
  import opened JsonMinify
  import opened JsonMinifyPrint
  import opened JsonRoundTrip

  /** n tabs and then the character c. */
  predicate TabsThen(text: string, i: nat, n: nat, c: char)
    decreases n
  {
    if n == 0 then At(text, i) == c else At(text, i) == '\t' && TabsThen(text, i + 1, n - 1, c)
  }

  function Top(open: seq<char>): char {
    if open == [] then NUL else open[|open| - 1]
  }

  /**
   From position i on, inside the brackets `open`: a colon is followed by a tab, a comma in an array by a blank, and
   neither by more white space; a comma in an object ends its line, the next begins with a tab for each open bracket and
   a name; so does the line after an opening brace; the line of a closing brace has a tab less. Between the braces of an
   empty object the tabs are two less. There is no other white space outside of literals.
   */
  predicate LaidOut(text: string, i: nat, open: seq<char>)
    decreases |text| - i
  {
    if i >= |text| then open == []
    else
      match text[i]
      case '\"' => StringEnd(text, i + 1).Some? && LaidOut(text, StringEnd(text, i + 1).value, open)
      case '[' => LaidOut(text, i + 1, open + ['['])
      case ']' => Top(open) == '[' && LaidOut(text, i + 1, open[..|open| - 1])
      case '{' =>
        && At(text, i + 1) == '\n'
        && if TabsThen(text, i + 2, |open| + 1, '\"') then LaidOut(text, i + 2 + |open| + 1, open + ['{'])
           else
             var tabs := if open == [] then 0 else |open| - 1;
             TabsThen(text, i + 2, tabs, '}') && LaidOut(text, i + 2 + tabs + 1, open)
      case '\n' =>
        Top(open) == '{' && TabsThen(text, i + 1, |open| - 1, '}') && LaidOut(text, i + 1 + |open|, open[..|open| - 1])
      case ':' => At(text, i + 1) == '\t' && !IsSpace(At(text, i + 2)) && LaidOut(text, i + 2, open)
      case ',' =>
        if Top(open) == '[' then At(text, i + 1) == ' ' && !IsSpace(At(text, i + 2)) && LaidOut(text, i + 2, open)
        else Top(open) == '{' && At(text, i + 1) == '\n' && TabsThen(text, i + 2, |open|, '\"')
             && LaidOut(text, i + 2 + |open|, open)
      case c => c != '}' && !IsSpace(c) && LaidOut(text, i + 1, open)
  }

  predicate IsPlain(c: char) {
    !IsSpace(c) && c !in "\"[]{}:,"
  }

  lemma {:induction false} PlainGoes(text: string, i: nat, s: string, open: seq<char>)
    requires Stands(text, i, s) && (forall k | 0 <= k < |s| :: IsPlain(s[k])) && LaidOut(text, i + |s|, open)
    ensures LaidOut(text, i, open)
    decreases |s|
  {
    hide Stands;
    if s != [] {
      StandsAt(text, i, s, 0);
      assert s == [s[0]] + s[1..];
      StandsSplit(text, i, [s[0]], s[1..]);
      PlainGoes(text, i + 1, s[1..], open);
      assert IsPlain(s[0]);
    }
  }

  lemma StringGoes(text: string, i: nat, s: string, open: seq<char>)
    requires Stands(text, i, PrintString(s)) && CString(s) && LaidOut(text, i + |PrintString(s)|, open)
    ensures LaidOut(text, i, open)
  {
    hide Stands, Escape;
    StandsAt(text, i, PrintString(s), 0);
    assert PrintString(s) == "\"" + (Escape(s) + "\"");
    StandsSplit(text, i, "\"", Escape(s) + "\"");
    EscapeEnds(text, i + 1, s);
  }

  lemma NumberIsPlain(n: int)
    ensures forall k | 0 <= k < |PrintNumber(n)| :: IsPlain(PrintNumber(n)[k])
  {
    hide Decimal;
    var s := PrintNumber(n);
    forall k | 0 <= k < |s|
      ensures s[k] == '-' || IsDigit(s[k])
    {
      if n < 0 && k > 0 {
        assert s[k] == Decimal(-n)[k - 1];
      }
    }
  }

  /** The tabs of a line and the character after them. */
  lemma TabsStand(text: string, i: nat, n: nat, rest: string)
    requires Stands(text, i, Indent(n, true) + rest) && rest != "" && rest[0] != '\t'
    ensures TabsThen(text, i, n, rest[0]) && Stands(text, i + n, rest)
  {
    TabsFrom(text, i, Indent(n, true), rest);
  }

  lemma {:induction false} TabsFrom(text: string, i: nat, tabs: string, rest: string)
    requires Stands(text, i, tabs + rest) && rest != "" && forall k | 0 <= k < |tabs| :: tabs[k] == '\t'
    ensures TabsThen(text, i, |tabs|, rest[0]) && Stands(text, i + |tabs|, rest)
    decreases |tabs|
  {
    hide Stands;
    if tabs == "" {
      assert tabs + rest == rest;
      StandsAt(text, i, rest, 0);
    } else {
      StandsAt(text, i, tabs + rest, 0);
      assert tabs + rest == [tabs[0]] + (tabs[1..] + rest);
      StandsSplit(text, i, [tabs[0]], tabs[1..] + rest);
      TabsFrom(text, i + 1, tabs[1..], rest);
    }
  }

  lemma {:induction false} OneEnd(text: string, i: nat, n: nat, m: nat, c: char, d: char)
    requires TabsThen(text, i, n, c) && TabsThen(text, i, m, d) && c != '\t' && d != '\t'
    ensures n == m && c == d
    decreases n
  {
    if n > 0 && m > 0 {
      OneEnd(text, i + 1, n - 1, m - 1, c, d);
    }
  }

  // ----- Values ---------------------------------------------------------------------------------------------------

  lemma {:induction false} ValueGoes(text: string, i: nat, v: Json, open: seq<char>)
    requires Stands(text, i, Print(v, |open|, true)) && Printable(v)
    requires LaidOut(text, i + |Print(v, |open|, true)|, open)
    ensures LaidOut(text, i, open)
    decreases v, 0
  {
    hide Stands, LaidOut, PrintItems, PrintMembers;
    match v {
      case Null => PlainGoes(text, i, "null", open);
      case Bool(b) => PlainGoes(text, i, if b then "true" else "false", open);
      case Number(n) =>
        NumberIsPlain(n);
        PlainGoes(text, i, PrintNumber(n), open);
      case String(s) => StringGoes(text, i, s, open);
      case Array(items) => ArrayGoes(text, i, items, open);
      case Object(members) => ObjectGoes(text, i, members, open);
    }
  }

  lemma ArrayText(items: Items, depth: nat)
    ensures Print(Array(items), depth, true) == "[" + (PrintItems(items, depth + 1, true) + "]")
  {
    hide PrintItems;
    var inner := PrintItems(items, depth + 1, true);
    assert "[" + inner + "]" == "[" + (inner + "]");
  }

  lemma Bracket(text: string, i: nat, open: seq<char>)
    requires i < |text|
    ensures text[i] == '[' && LaidOut(text, i + 1, open + ['[']) ==> LaidOut(text, i, open)
    ensures text[i] == ']' && LaidOut(text, i + 1, open) ==> LaidOut(text, i, open + ['['])
  {
    assert (open + ['['])[..|open|] == open;
  }

  lemma {:induction false} ArrayGoes(text: string, i: nat, items: Items, open: seq<char>)
    requires Stands(text, i, Print(Array(items), |open|, true)) && PrintableItems(items)
    requires LaidOut(text, i + |Print(Array(items), |open|, true)|, open)
    ensures LaidOut(text, i, open)
    decreases items, 1
  {
    hide Stands, LaidOut, Print, PrintItems;
    var inner := PrintItems(items, |open| + 1, true);
    ArrayText(items, |open|);
    StandsSplit(text, i, "[", inner + "]");
    StandsSplit(text, i + 1, inner, "]");
    StandsAt(text, i, "[", 0);
    StandsAt(text, i + 1 + |inner|, "]", 0);
    Bracket(text, i + 1 + |inner|, open);
    ItemsGo(text, i + 1, items, open + ['[']);
    Bracket(text, i, open);
  }

  lemma CommaGoes(text: string, i: nat, open: seq<char>)
    requires i < |text| && text[i] == ',' && Top(open) == '[' && At(text, i + 1) == ' ' && !IsSpace(At(text, i + 2))
    requires LaidOut(text, i + 2, open)
    ensures LaidOut(text, i, open)
  {}

  lemma CommaIs()
    ensures Comma(true) == ", "
  {}

  lemma {:induction false} ItemsGo(text: string, i: nat, items: Items, open: seq<char>)
    requires Stands(text, i, PrintItems(items, |open|, true)) && PrintableItems(items) && Top(open) == '['
    requires LaidOut(text, i + |PrintItems(items, |open|, true)|, open)
    ensures LaidOut(text, i, open)
    decreases items, 0
  {
    hide Stands, LaidOut, Print, Comma, Top;
    if items.Item? {
      var own := Print(items.value, |open|, true);
      if items.next.Item? {
        var rest := PrintItems(items.next, |open|, true);
        CommaIs();
        assert PrintItems(items, |open|, true) == own + (", " + rest);
        StandsSplit(text, i, own, ", " + rest);
        var j := i + |own|;
        StandsSplit(text, j, ", ", rest);
        StandsAt(text, j, ", ", 0);
        StandsAt(text, j, ", ", 1);
        ItemsStart(items.next, |open|, true);
        StandsAt(text, j + 2, rest, 0);
        ItemsGo(text, j + 2, items.next, open);
        CommaGoes(text, j, open);
      }
      ValueGoes(text, i, items.value, open);
    }
  }

  // ----- Objects --------------------------------------------------------------------------------------------------

  lemma OpenGoes(text: string, i: nat, open: seq<char>)
    requires i < |text| && text[i] == '{' && At(text, i + 1) == '\n' && TabsThen(text, i + 2, |open| + 1, '\"')
    requires LaidOut(text, i + 2 + |open| + 1, open + ['{'])
    ensures LaidOut(text, i, open)
  {}

  lemma CloseGoes(text: string, i: nat, open: seq<char>)
    requires i < |text| && text[i] == '\n' && TabsThen(text, i + 1, |open|, '}') && LaidOut(text, i + 2 + |open|, open)
    ensures LaidOut(text, i, open + ['{'])
  {
    assert (open + ['{'])[..|open|] == open;
  }

  lemma NextGoes(text: string, i: nat, open: seq<char>)
    requires i < |text| && text[i] == ',' && Top(open) == '{' && At(text, i + 1) == '\n'
    requires TabsThen(text, i + 2, |open|, '\"') && LaidOut(text, i + 2 + |open|, open)
    ensures LaidOut(text, i, open)
  {}

  lemma EmptyGoes(text: string, i: nat, open: seq<char>, tabs: nat)
    requires i < |text| && text[i] == '{' && At(text, i + 1) == '\n' && tabs == if open == [] then 0 else |open| - 1
    requires TabsThen(text, i + 2, tabs, '}') && LaidOut(text, i + 2 + tabs + 1, open)
    ensures LaidOut(text, i, open)
  {
    if TabsThen(text, i + 2, |open| + 1, '\"') {
      OneEnd(text, i + 2, |open| + 1, tabs, '\"', '}');
    }
  }

  lemma {:induction false} ObjectGoes(text: string, i: nat, members: Members, open: seq<char>)
    requires Stands(text, i, Print(Object(members), |open|, true)) && PrintableMembers(members)
    requires LaidOut(text, i + |Print(Object(members), |open|, true)|, open)
    ensures LaidOut(text, i, open)
    decreases members, 2
  {
    hide *;
    if members.NoMember? {
      EmptyObjectGoes(text, i, members, open);
    } else {
      var first := FirstLine(text, i, members, open);
      MembersGo(text, i + 2 + |open| + 1, members, open);
      OpenGoes(text, i, open);
    }
  }

  lemma EmptyObjectGoes(text: string, i: nat, members: Members, open: seq<char>)
    requires members.NoMember? && Stands(text, i, Print(Object(members), |open|, true))
    requires LaidOut(text, i + |Print(Object(members), |open|, true)|, open)
    ensures LaidOut(text, i, open)
  {
    var tabs: nat := if open == [] then 0 else |open| - 1;
    var s := Print(Object(members), |open|, true);
    assert s == "{\n" + (Indent(tabs, true) + "}");
    hide Stands, LaidOut, Print, TabsThen, Indent;
    StandsAt(text, i, s, 0);
    StandsAt(text, i, s, 1);
    StandsSplit(text, i, "{\n", Indent(tabs, true) + "}");
    TabsStand(text, i + 2, tabs, "}");
    EmptyGoes(text, i, open, tabs);
  }

  /** A member's line from its name on. */
  function Rest(members: Members, open: seq<char>): string
    requires members.Member?
    decreases members, 1
  {
    PrintString(members.name) + (":\t" + (Print(members.value, |open| + 1, true) + Behind(members, open)))
  }

  /** What stands behind the value of a member, to the closing brace of its object. */
  function Behind(members: Members, open: seq<char>): string
    requires members.Member?
    decreases members, 0
  {
    if members.next.NoMember? then "\n" + (Indent(|open|, true) + "}")
    else ",\n" + (Indent(|open| + 1, true) + Rest(members.next, open))
  }

  lemma {:induction false} LinesAreRest(members: Members, open: seq<char>)
    requires members.Member?
    ensures PrintMembers(members, |open| + 1, true) + (Indent(|open|, true) + "}") ==
            Indent(|open| + 1, true) + Rest(members, open)
    decreases members
  {
    hide Print, PrintString, Indent, PrintMembers;
    var name, value := PrintString(members.name), Print(members.value, |open| + 1, true);
    var tabs, close := Indent(|open| + 1, true), Indent(|open|, true) + "}";
    MembersCons(members, |open| + 1, true);
    assert PrintMember(members.name, members.value, |open| + 1, true) == tabs + name + ":\t" + value;
    if members.next.NoMember? {
      Regroup(tabs, name, ":\t", value, "\n", close);
    } else {
      LinesAreRest(members.next, open);
      Regroup(tabs, name, ":\t", value, ",\n" + PrintMembers(members.next, |open| + 1, true), close);
      assert (",\n" + PrintMembers(members.next, |open| + 1, true)) + close ==
             ",\n" + (PrintMembers(members.next, |open| + 1, true) + close);
    }
  }

  lemma Regroup(tabs: string, name: string, colon: string, value: string, end: string, close: string)
    ensures ((tabs + name + colon + value) + end) + close == tabs + (name + (colon + (value + (end + close))))
  {}

  lemma OpenText(members: Members, open: seq<char>)
    requires members.Member?
    ensures Print(Object(members), |open|, true) == "{\n" + (Indent(|open| + 1, true) + Rest(members, open))
    ensures |Indent(|open| + 1, true)| == |open| + 1
  {
    hide Print, PrintMembers, Rest, Indent;
    LinesAreRest(members, open);
    ObjectText(members, |open|, true);
    assert "{" + ("\n" + (Indent(|open| + 1, true) + Rest(members, open))) ==
           "{\n" + (Indent(|open| + 1, true) + Rest(members, open));
  }

  lemma FirstLine(text: string, i: nat, members: Members, open: seq<char>) returns (first: string)
    requires members.Member? && Stands(text, i, Print(Object(members), |open|, true))
    ensures first == Rest(members, open) && Stands(text, i + 2 + |open| + 1, first)
    ensures i + 2 + |open| + 1 + |first| == i + |Print(Object(members), |open|, true)|
    ensures i < |text| && text[i] == '{' && At(text, i + 1) == '\n' && TabsThen(text, i + 2, |open| + 1, '\"')
  {
    hide Stands, Print, Rest, TabsThen, Indent;
    first := Rest(members, open);
    var tabs, s := Indent(|open| + 1, true), Print(Object(members), |open|, true);
    OpenText(members, open);
    RestStarts(members, open);
    StandsAt(text, i, s, 0);
    StandsAt(text, i, s, 1);
    StandsSplit(text, i, "{\n", tabs + first);
    TabsStand(text, i + 2, |open| + 1, first);
  }

  lemma RestStarts(members: Members, open: seq<char>)
    requires members.Member?
    ensures Rest(members, open) != "" && Rest(members, open)[0] == '\"'
  {
    hide Escape, Print, Behind;
  }

  lemma {:induction false} MembersGo(text: string, i: nat, members: Members, open: seq<char>)
    requires members.Member? && PrintableMembers(members) && Stands(text, i, Rest(members, open))
    requires LaidOut(text, i + |Rest(members, open)|, open)
    ensures LaidOut(text, i, open + ['{'])
    decreases members, 1
  {
    hide *;
    PrintableFirst(members);
    var k := RestSplits(text, i, members, open);
    var e := k + |Print(members.value, |open| + 1, true)|;
    if members.next.NoMember? {
      LastGoes(text, e, members, open);
    } else {
      var j := MoreStands(text, e, members, open);
      MembersGo(text, j, members.next, open);
      MoreGoes(text, e, members, open);
    }
    assert |open + ['{']| == |open| + 1;
    ValueGoes(text, k, members.value, open + ['{']);
    ColonGoes(text, k - 2, open + ['{']);
    StringGoes(text, i, members.name, open + ['{']);
  }

  lemma PrintableFirst(members: Members)
    requires members.Member? && PrintableMembers(members)
    ensures CString(members.name) && Printable(members.value) && PrintableMembers(members.next)
  {}

  lemma ColonGoes(text: string, i: nat, open: seq<char>)
    requires i < |text| && text[i] == ':' && At(text, i + 1) == '\t' && !IsSpace(At(text, i + 2))
    requires LaidOut(text, i + 2, open)
    ensures LaidOut(text, i, open)
  {}

  /** The name, the colon at k - 2, the value at k, and what stands behind it. */
  lemma RestSplits(text: string, i: nat, members: Members, open: seq<char>) returns (k: nat)
    requires members.Member? && Stands(text, i, Rest(members, open))
    ensures k == i + |PrintString(members.name)| + 2 && Stands(text, i, PrintString(members.name))
    ensures k - 2 < |text| && text[k - 2] == ':' && At(text, k - 1) == '\t' && !IsSpace(At(text, k))
    ensures var own := Print(members.value, |open| + 1, true);
            && Stands(text, k, own) && Stands(text, k + |own|, Behind(members, open))
            && i + |Rest(members, open)| == k + |own| + |Behind(members, open)|
  {
    hide Stands, Print, PrintString, Behind;
    var name, own, end := PrintString(members.name), Print(members.value, |open| + 1, true), Behind(members, open);
    k := i + |name| + 2;
    StandsSplit(text, i, name, ":\t" + (own + end));
    StandsSplit(text, k - 2, ":\t", own + end);
    StandsAt(text, k - 2, ":\t", 0);
    StandsAt(text, k - 2, ":\t", 1);
    StandsSplit(text, k, own, end);
    PrintStarts(members.value, |open| + 1, true);
    StandsAt(text, k, own, 0);
  }

  lemma BehindLast(members: Members, open: seq<char>)
    requires members.Member? && members.next.NoMember?
    ensures Behind(members, open) == "\n" + (Indent(|open|, true) + "}")
  {}

  lemma LastGoes(text: string, e: nat, members: Members, open: seq<char>)
    requires members.Member? && members.next.NoMember? && Stands(text, e, Behind(members, open))
    requires LaidOut(text, e + |Behind(members, open)|, open)
    ensures LaidOut(text, e, open + ['{'])
  {
    hide Stands, LaidOut, Behind, Indent, TabsThen;
    var tail := Indent(|open|, true) + "}";
    BehindLast(members, open);
    StandsSplit(text, e, "\n", tail);
    StandsAt(text, e, "\n", 0);
    TabsStand(text, e + 1, |open|, "}");
    CloseGoes(text, e, open);
  }

  lemma MoreStands(text: string, e: nat, members: Members, open: seq<char>) returns (j: nat)
    requires members.Member? && members.next.Member? && Stands(text, e, Behind(members, open))
    ensures j == e + 2 + |open| + 1 && Stands(text, j, Rest(members.next, open))
    ensures j + |Rest(members.next, open)| == e + |Behind(members, open)|
    ensures e < |text| && text[e] == ',' && At(text, e + 1) == '\n' && TabsThen(text, e + 2, |open| + 1, '\"')
  {
    var tail := Indent(|open| + 1, true) + Rest(members.next, open);
    assert Behind(members, open) == ",\n" + tail;
    RestStarts(members.next, open);
    hide Stands, Behind, Rest, Indent, TabsThen;
    j := e + 2 + |open| + 1;
    StandsSplit(text, e, ",\n", tail);
    StandsAt(text, e, ",\n", 0);
    StandsAt(text, e, ",\n", 1);
    TabsStand(text, e + 2, |open| + 1, Rest(members.next, open));
  }

  lemma MoreGoes(text: string, e: nat, members: Members, open: seq<char>)
    requires e < |text| && text[e] == ',' && At(text, e + 1) == '\n' && TabsThen(text, e + 2, |open| + 1, '\"')
    requires LaidOut(text, e + 2 + |open| + 1, open + ['{'])
    ensures LaidOut(text, e, open + ['{'])
  {
    hide LaidOut, TabsThen;
    NextGoes(text, e, open + ['{']);
  }

  /** Every formatted print is laid out so. */
  lemma PrintIsLaidOut(v: Json)
    requires Printable(v)
    ensures LaidOut(Print(v, 0, true), 0, [])
  {
    hide Print;
    var text := Print(v, 0, true);
    assert text[0..0 + |text|] == text;
    ValueGoes(text, 0, v, []);
  }
}
