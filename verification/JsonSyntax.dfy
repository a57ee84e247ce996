/**
 The whole language of the reader, as trees of its own: values with all the white space between their tokens, literals
 in pieces, numbers with the leading zero that the reader lets pass. A text is accepted to its end as a tree exactly if
 it is the spelling of such a syntax tree with that meaning.
 */
module JsonSyntax {
  import opened JsonText
  import opened JsonModel
  import opened JsonParse
  import opened JsonRoundTrip
  import opened JsonLiteral
  import opened JsonMinifyPrint
  import opened JsonMinifyMeaning

  datatype Syn =
    | SynNull
    | SynTrue
    | SynFalse
    | SynNumber(minus: bool, zero: bool, digits: string)
    | SynString(ps: seq<Piece>)
    | SynArray(items: SynItems, blank: string)
    | SynObject(members: SynMembers, blank: string)

  /** An item with the white space before and after it. */
  datatype SynItems = EndItems | SynItem(before: string, v: Syn, after: string, next: SynItems)

  /** A member with the white space before and after its name, before its value and after it. */
  datatype SynMembers =
    | EndMembers
    | SynMember(before: string, name: seq<Piece>, mid: string, lead: string, v: Syn, after: string, next: SynMembers)

  /** White space to the reader: bytes from 1 to 32. */
  predicate Blank(w: string) {
    forall i | 0 <= i < |w| :: 1 <= w[i] as int <= 32
  }

  // ----- Spelling -------------------------------------------------------------------------------------------------

  function Quoted(ps: seq<Piece>): string {
    "\"" + (SpellAll(ps) + "\"")
  }

  function NumberText(minus: bool, zero: bool, digits: string): string {
    (if minus then "-" else "") + ((if zero then "0" else "") + digits)
  }

  function Spelling(x: Syn): string
    decreases x, 0
  {
    match x
    case SynNull => "null"
    case SynTrue => "true"
    case SynFalse => "false"
    case SynNumber(minus, zero, digits) => NumberText(minus, zero, digits)
    case SynString(ps) => Quoted(ps)
    case SynArray(items, blank) => "[" + if items.EndItems? then blank + "]" else items.before + ItemsText(items)
    case SynObject(members, blank) =>
      "{" + if members.EndMembers? then blank + "}" else members.before + MembersText(members)
  }

  /** From the first value on, up to and with the closing bracket. */
  function ItemsText(items: SynItems): string
    requires items.SynItem?
    decreases items, 0
  {
    Spelling(items.v)
    + (items.after + if items.next.EndItems? then "]" else "," + (items.next.before + ItemsText(items.next)))
  }

  function PairText(m: SynMembers): string
    requires m.SynMember?
    decreases m, 0
  {
    Quoted(m.name) + (m.mid + (":" + (m.lead + Spelling(m.v))))
  }

  function MembersText(m: SynMembers): string
    requires m.SynMember?
    decreases m, 1
  {
    PairText(m) + (m.after + if m.next.EndMembers? then "}" else "," + (m.next.before + MembersText(m.next)))
  }

  // ----- Meaning --------------------------------------------------------------------------------------------------

  /** The value of decimal digits, from their place in the table. */
  function Value(digits: string): nat
    requires AllDigits(digits)
  {
    if digits == "" then 0 else 10 * Value(digits[..|digits| - 1]) + Place(digits[|digits| - 1])
  }

  predicate AllDigits(digits: string) {
    forall i | 0 <= i < |digits| :: digits[i] in "0123456789"
  }

  function Place(c: char): (n: nat)
    requires c in "0123456789"
    ensures n < 10 && "0123456789"[n] == c
  {
    c as int - 48
  }

  function NumberMeaning(minus: bool, digits: string): int
    requires AllDigits(digits)
  {
    if minus then 0 - Value(digits) else Value(digits) as int
  }

  function Mean(x: Syn): Json
    requires ProperSyn(x)
    decreases x, 0
  {
    match x
    case SynNull => Null
    case SynTrue => Bool(true)
    case SynFalse => Bool(false)
    case SynNumber(minus, _, digits) => Number(NumberMeaning(minus, digits))
    case SynString(ps) => String(Meaning(ps))
    case SynArray(items, _) => Array(MeanItems(items))
    case SynObject(members, _) => Object(MeanMembers(members))
  }

  function MeanItems(items: SynItems): Items
    requires ProperItems(items)
    decreases items, 1
  {
    if items.EndItems? then NoItem else Item(Mean(items.v), MeanItems(items.next))
  }

  function MeanMembers(m: SynMembers): Members
    requires ProperMembers(m)
    decreases m, 1
  {
    if m.EndMembers? then NoMember else Member(Meaning(m.name), Mean(m.v), MeanMembers(m.next))
  }

  /** A sign, a zero and digits that begin with no zero, each of which may be missing, but not all of them. */
  predicate ProperNumber(minus: bool, zero: bool, digits: string) {
    NumberShape(minus, zero, digits) && INT_MIN <= NumberMeaning(minus, digits) <= INT_MAX
  }

  predicate ProperSyn(x: Syn)
    decreases x, 0
  {
    match x
    case SynNumber(minus, zero, digits) => ProperNumber(minus, zero, digits)
    case SynString(ps) => AllProper(ps)
    case SynArray(items, blank) => ProperItems(items) && Blank(blank)
    case SynObject(members, blank) => ProperMembers(members) && Blank(blank)
    case _ => true
  }

  predicate ProperItems(items: SynItems)
    decreases items, 1
  {
    items.SynItem? ==> Blank(items.before) && ProperSyn(items.v) && Blank(items.after) && ProperItems(items.next)
  }

  predicate ProperMembers(m: SynMembers)
    decreases m, 1
  {
    m.SynMember? ==>
      && Blank(m.before) && AllProper(m.name) && Blank(m.mid) && Blank(m.lead) && ProperSyn(m.v) && Blank(m.after)
      && ProperMembers(m.next)
  }

  // ----- Numbers --------------------------------------------------------------------------------------------------

  lemma ValueSnoc(p: string, c: char)
    requires AllDigits(p) && c in "0123456789"
    ensures AllDigits(p + [c]) && Value(p + [c]) == 10 * Value(p) + ValueOf(c)
  {
    assert (p + [c])[..|p|] == p;
  }

  /** Digits read from the left, behind digits read before. */
  lemma {:induction false} ReadsDigits(t: string, k: nat, p: string, ds: string)
    requires AllDigits(p) && AllDigits(ds) && Stands(t, k, ds) && !IsDigit(At(t, k + |ds|))
    ensures AllDigits(p + ds) && ReadDigits(t, k, Value(p)) == (Value(p + ds), k + |ds|)
    decreases |ds|
  {
    hide Stands, Value, AllDigits, ValueOf;
    if ds == "" {
      assert p + ds == p;
      StandsBounds(t, k, ds);
    } else {
      var c, rest := ds[0], ds[1..];
      DigitFirst(ds);
      StandsAt(t, k, ds, 0);
      assert ds == [c] + rest;
      StandsSplit(t, k, [c], rest);
      ValueSnoc(p, c);
      ReadsDigits(t, k + 1, p + [c], rest);
      assert (p + [c]) + rest == p + ds;
    }
  }

  lemma DigitFirst(ds: string)
    requires AllDigits(ds) && ds != ""
    ensures IsDigit(ds[0]) && ds[0] in "0123456789" && AllDigits(ds[1..])
  {}

  lemma ReadsMagnitudeOf(t: string, k: nat, zero: bool, digits: string)
    requires AllDigits(digits) && (digits != "" ==> digits[0] != '0')
    requires Stands(t, k, (if zero then "0" else "") + digits) && !IsDigit(At(t, k + |digits| + if zero then 1 else 0))
    ensures k <= |t| && Magnitude(t, k) == (Value(digits), k + |digits| + if zero then 1 else 0)
  {
    hide Stands, Value, ReadDigits, AllDigits, ValueOf;
    var lead := if zero then "0" else "";
    StandsSplit(t, k, lead, digits);
    StandsBounds(t, k, lead + digits);
    if zero {
      StandsAt(t, k, lead, 0);
    }
    if digits == "" {
      EmptyValue();
    } else {
      DigitFirst(digits);
      StandsAt(t, k + |lead|, digits, 0);
      ReadsRun(t, k + |lead|, digits);
    }
  }

  lemma ReadsRun(t: string, j: nat, digits: string)
    requires AllDigits(digits) && digits != "" && Stands(t, j, digits) && !IsDigit(At(t, j + |digits|))
    ensures IsDigit(At(t, j)) && ReadDigits(t, j + 1, ValueOf(At(t, j))) == (Value(digits), j + |digits|)
  {
    hide Stands, Value, ReadDigits, AllDigits, ValueOf;
    var c, rest := digits[0], digits[1..];
    DigitFirst(digits);
    NoDigits();
    StandsAt(t, j, digits, 0);
    assert digits == [c] + rest;
    StandsSplit(t, j, [c], rest);
    ValueSnoc("", c);
    EmptyValue();
    assert "" + [c] == [c];
    ReadsDigits(t, j + 1, [c], rest);
  }

  lemma NoDigits()
    ensures AllDigits("")
  {}

  lemma EmptyValue()
    ensures Value("") == 0
  {}

  lemma NumberDenotesValue(minus: bool, zero: bool, digits: string)
    requires ProperNumber(minus, zero, digits)
    ensures var m := NumberText(minus, zero, digits);
            Denotes(m, Number(NumberMeaning(minus, digits))) && Begins(m)
  {
    hide Stands, ParseValue, NumberText, Delimits, At, Value, AllDigits;
    var m := NumberText(minus, zero, digits);
    NumberBegins(minus, zero, digits);
    forall t: string, k: nat | Stands(t, k, m) && Delimits(At(t, k + |m|))
      ensures k <= |t| && ParseValue(t, k) == Parsed(Number(NumberMeaning(minus, digits)), k + |m|)
    {
      StandsBounds(t, k, m);
      ReadsNumberText(t, k, minus, zero, digits);
    }
  }

  /** A sign, a zero and digits in that order; what they mean may be too large. */
  predicate NumberShape(minus: bool, zero: bool, digits: string) {
    AllDigits(digits) && (digits != "" ==> digits[0] != '0') && (minus || zero || digits != "")
  }

  lemma NumberBegins(minus: bool, zero: bool, digits: string)
    requires NumberShape(minus, zero, digits)
    ensures var m := NumberText(minus, zero, digits);
            m != "" && (m[0] == '-' || IsDigit(m[0])) && (minus <==> m[0] == '-') && Begins(m)
  {}

  /** A fraction or an exponent begins. */
  predicate FractionFollows(t: string, i: nat) {
    At(t, i) == 'e' || At(t, i) == 'E' || (At(t, i) == '.' && At(t, i + 1) in "0123456789")
  }

  /**
   What is read where a number stands: the number, unless a fraction or an exponent follows or it is beyond 32 bits;
   those are left out.
   */
  lemma NumberExactly(t: string, k: nat, minus: bool, zero: bool, digits: string)
    requires NumberShape(minus, zero, digits)
    requires var m := NumberText(minus, zero, digits); Stands(t, k, m) && !IsDigit(At(t, k + |m|))
    ensures var m, n := NumberText(minus, zero, digits), NumberMeaning(minus, digits);
            && k <= |t|
            && ParseValue(t, k) ==
               if FractionFollows(t, k + |m|) || n < -0x8000_0000 || n > 0x7fff_ffff then Outside
               else Parsed(Number(n), k + |m|)
  {
    hide Stands, Magnitude, Value, ParseValue, AllDigits;
    var m, rest := NumberText(minus, zero, digits), (if zero then "0" else "") + digits;
    var sign := if minus then "-" else "";
    NumberBegins(minus, zero, digits);
    StandsBounds(t, k, m);
    StandsAt(t, k, m, 0);
    StandsSplit(t, k, sign, rest);
    ReadsMagnitudeOf(t, k + |sign|, zero, digits);
    NumberStarts(t, k);
    NumberIs(t, k);
    FollowsAlike(t, k + |m|);
  }

  lemma NumberIs(t: string, k: nat)
    requires k < |t| && (At(t, k) == '-' || IsDigit(At(t, k)))
    ensures k + (if At(t, k) == '-' then 1 else 0) <= |t|
    ensures var (n, end) := Magnitude(t, k + if At(t, k) == '-' then 1 else 0);
            var value := if At(t, k) == '-' then 0 - n else n as int;
            ParseNumber(t, k) ==
            if GoesOn(t, end) || !(INT_MIN <= value <= INT_MAX) then Outside else Parsed(Number(value), end)
  {
    hide Magnitude, GoesOn;
  }

  lemma FollowsAlike(t: string, i: nat)
    ensures FractionFollows(t, i) <==> GoesOn(t, i)
  {}

  lemma ReadsNumberText(t: string, k: nat, minus: bool, zero: bool, digits: string)
    requires ProperNumber(minus, zero, digits)
    requires var m := NumberText(minus, zero, digits); Stands(t, k, m) && Delimits(At(t, k + |m|))
    ensures var m := NumberText(minus, zero, digits);
            k <= |t| && ParseValue(t, k) == Parsed(Number(NumberMeaning(minus, digits)), k + |m|)
  {
    hide Stands, Value, ParseValue, AllDigits, NumberText;
    NumberExactly(t, k, minus, zero, digits);
  }

  // ----- Every spelling is read -----------------------------------------------------------------------------------

  lemma BlankIsSpaces(w: string)
    ensures Blank(w) <==> Spaces(w)
  {
    if Spaces(w) {
      forall i | 0 <= i < |w|
        ensures 1 <= w[i] as int <= 32
      {
        assert IsSpace(w[i]);
      }
    }
  }

  lemma QuotedDenotes(ps: seq<Piece>)
    requires AllProper(ps)
    ensures DenotesString(Quoted(ps), Meaning(ps)) && Quoted(ps) != "" && Quoted(ps)[0] == '\"'
  {
    hide AllProper, Meaning, SpellAll, DenotesString;
    SpelledDenotes(ps, Meaning(ps), Quoted(ps));
  }

  lemma WordDenotes(m: string, v: Json)
    requires (v.Null? || v.Bool?) && m == Print(v, 0, false)
    ensures Denotes(m, v) && Begins(m)
  {
    hide Stands, ParseValue;
    forall t: string, k: nat | Stands(t, k, m)
      ensures k <= |t| && ParseValue(t, k) == Parsed(v, k + |m|)
    {
      StandsBounds(t, k, m);
      ReadsWord(t, k, v);
    }
  }

  lemma {:induction false} SpellingDenotes(x: Syn)
    requires ProperSyn(x)
    ensures Denotes(Spelling(x), Mean(x)) && Begins(Spelling(x))
    decreases x, 0
  {
    hide Denotes, DenotesItems, DenotesMembers, DenotesString, ItemsText, MembersText, MeanItems, MeanMembers, Quoted,
      Meaning, AllProper, NumberText, ProperNumber;
    match x {
      case SynNull => WordDenotes("null", Null);
      case SynTrue => WordDenotes("true", Bool(true));
      case SynFalse => WordDenotes("false", Bool(false));
      case SynNumber(minus, zero, digits) => NumberDenotesValue(minus, zero, digits);
      case SynString(ps) =>
        QuotedDenotes(ps);
        StringValue(Quoted(ps), Meaning(ps));
      case SynArray(items, blank) => ArrayDenotes(items, blank);
      case SynObject(members, blank) => ObjectDenotes(members, blank);
    }
  }

  lemma {:induction false} ArrayDenotes(items: SynItems, blank: string)
    requires ProperItems(items) && Blank(blank)
    ensures var m := "[" + if items.EndItems? then blank + "]" else items.before + ItemsText(items);
            Denotes(m, Array(MeanItems(items))) && Begins(m)
    decreases items, 1
  {
    hide Denotes, DenotesItems, ItemsText, Blank;
    if items.EndItems? {
      BlankIsSpaces(blank);
      EmptyArray(blank);
    } else {
      BlankIsSpaces(items.before);
      ItemsDenote(items);
      ArrayOf(items.before, ItemsText(items), MeanItems(items));
    }
  }

  lemma {:induction false} ItemsDenote(items: SynItems)
    requires items.SynItem? && ProperItems(items)
    ensures DenotesItems(ItemsText(items), MeanItems(items)) && Begins(ItemsText(items))
    decreases items, 0
  {
    hide Denotes, DenotesItems, Spelling, Mean, Blank;
    var own, v := Spelling(items.v), Mean(items.v);
    SpellingDenotes(items.v);
    BlankIsSpaces(items.after);
    if items.next.EndItems? {
      LastItem(own, v, items.after);
    } else {
      BlankIsSpaces(items.next.before);
      ItemsDenote(items.next);
      OneMoreItem(own, v, items.after, items.next.before, ItemsText(items.next), MeanItems(items.next));
    }
  }

  lemma {:induction false} ObjectDenotes(members: SynMembers, blank: string)
    requires ProperMembers(members) && Blank(blank)
    ensures var m := "{" + if members.EndMembers? then blank + "}" else members.before + MembersText(members);
            Denotes(m, Object(MeanMembers(members))) && Begins(m)
    decreases members, 2
  {
    hide Denotes, DenotesMembers, MembersText, Blank;
    if members.EndMembers? {
      BlankIsSpaces(blank);
      EmptyObject(blank);
    } else {
      BlankIsSpaces(members.before);
      MembersDenote(members);
      ObjectOf(members.before, MembersText(members), MeanMembers(members));
    }
  }

  lemma {:induction false} PairDenotes(m: SynMembers)
    requires m.SynMember? && ProperMembers(m)
    ensures DenotesPair(PairText(m), Meaning(m.name), Mean(m.v)) && Begins(PairText(m))
    decreases m, 0
  {
    hide Denotes, DenotesString, DenotesPair, Spelling, Mean, Blank, Quoted, AllProper, Meaning;
    QuotedDenotes(m.name);
    BlankIsSpaces(m.mid);
    BlankIsSpaces(m.lead);
    SpellingDenotes(m.v);
    PairOf(Quoted(m.name), Meaning(m.name), m.mid, m.lead, Spelling(m.v), Mean(m.v));
  }

  lemma {:induction false} MembersDenote(m: SynMembers)
    requires m.SynMember? && ProperMembers(m)
    ensures DenotesMembers(MembersText(m), MeanMembers(m)) && Begins(MembersText(m))
    decreases m, 1
  {
    hide DenotesPair, DenotesMembers, PairText, Mean, Blank, Meaning, AllProper;
    PairDenotes(m);
    BlankIsSpaces(m.after);
    if m.next.EndMembers? {
      LastMember(PairText(m), Meaning(m.name), Mean(m.v), m.after);
    } else {
      BlankIsSpaces(m.next.before);
      MembersDenote(m.next);
      OneMoreMember(PairText(m), Meaning(m.name), Mean(m.v), m.after, m.next.before, MembersText(m.next),
          MeanMembers(m.next));
    }
  }

  // ----- Whatever is read is a spelling ---------------------------------------------------------------------------

  predicate Cut(text: string, i: nat, j: nat, m: string) {
    i <= j <= |text| && text[i..j] == m
  }

  lemma CutJoin(text: string, i: nat, j: nat, k: nat, a: string, b: string)
    requires Cut(text, i, j, a) && Cut(text, j, k, b)
    ensures Cut(text, i, k, a + b)
  {}

  lemma BlankCut(text: string, i: nat) returns (w: string)
    requires i <= |text|
    ensures Cut(text, i, Skip(text, i), w) && Blank(w)
  {
    var j := Skip(text, i);
    w := text[i..j];
    forall k | 0 <= k < |w|
      ensures 1 <= w[k] as int <= 32
    {
      assert IsSpace(At(text, i + k));
    }
  }

  lemma MarkCut(text: string, i: nat)
    requires i < |text|
    ensures Cut(text, i, i + 1, [text[i]])
  {}

  lemma {:induction false} DigitsCut(text: string, i: nat, p: string) returns (ds: string)
    requires i <= |text| && AllDigits(p)
    ensures var (n, j) := ReadDigits(text, i, Value(p));
            Cut(text, i, j, ds) && AllDigits(ds) && AllDigits(p + ds) && n == Value(p + ds)
    decreases |text| - i
  {
    hide Value;
    ds := "";
    if i < |text| && IsDigit(text[i]) {
      ValueSnoc(p, text[i]);
      var rest := DigitsCut(text, i + 1, p + [text[i]]);
      ds := [text[i]] + rest;
      assert (p + [text[i]]) + rest == p + ds;
      MarkCut(text, i);
      CutJoin(text, i, i + 1, ReadDigits(text, i, Value(p)).1, [text[i]], rest);
    } else {
      assert p + ds == p;
    }
  }

  lemma MagnitudeCut(text: string, i: nat) returns (zero: bool, digits: string)
    requires i <= |text|
    ensures var (n, j) := Magnitude(text, i);
            && Cut(text, i, j, (if zero then "0" else "") + digits)
            && AllDigits(digits) && (digits != "" ==> digits[0] != '0') && n == Value(digits)
            && (IsDigit(At(text, i)) ==> zero || digits != "")
  {
    hide Value, ReadDigits;
    zero, digits := At(text, i) == '0', "";
    var k := if zero then i + 1 else i;
    EmptyValue();
    assert Cut(text, i, k, if zero then "0" else "");
    if '1' <= At(text, k) <= '9' {
      ValueSnoc("", text[k]);
      assert "" + [text[k]] == [text[k]];
      var rest := DigitsCut(text, k + 1, [text[k]]);
      digits := [text[k]] + rest;
      MarkCut(text, k);
      CutJoin(text, k, k + 1, Magnitude(text, i).1, [text[k]], rest);
    } else {
      assert Cut(text, k, k, "");
    }
    CutJoin(text, i, k, Magnitude(text, i).1, if zero then "0" else "", digits);
  }

  lemma NumberCut(text: string, i: nat, n: int, j: nat) returns (x: Syn)
    requires i < |text| && (At(text, i) == '-' || IsDigit(At(text, i))) && ParseNumber(text, i) == Parsed(Number(n), j)
    ensures ProperSyn(x) && Mean(x) == Number(n) && Cut(text, i, j, Spelling(x))
  {
    hide Value, Magnitude;
    var minus := At(text, i) == '-';
    var k := if minus then i + 1 else i;
    var zero, digits := MagnitudeCut(text, k);
    x := SynNumber(minus, zero, digits);
    assert Cut(text, i, k, if minus then "-" else "");
    CutJoin(text, i, k, j, if minus then "-" else "", (if zero then "0" else "") + digits);
  }

  lemma StringCut(text: string, i: nat, s: string, j: nat) returns (ps: seq<Piece>)
    requires i <= |text| && ParseString(text, i) == Parsed(s, j)
    ensures AllProper(ps) && Meaning(ps) == s && Cut(text, i, j, Quoted(ps))
  {
    hide SpellAll, Meaning, AllProper;
    ps := DecodedIsSpelled(text, i + 1);
    DecodesMeaning(text, i + 1, ps);
    MarkCut(text, i);
    CutJoin(text, i, i + 1, j, "\"", SpellAll(ps) + "\"");
  }

  lemma {:induction false} ValueCut(text: string, i: nat, v: Json, j: nat) returns (x: Syn)
    requires i <= |text| && ParseValue(text, i) == Parsed(v, j)
    ensures ProperSyn(x) && Mean(x) == v && Cut(text, i, j, Spelling(x))
    decreases |text| - i, 0
  {
    hide ParseValue, ParseArray, ParseObject, ParseString, ParseNumber, Stands, Cut;
    if v.Null? || v.Bool? {
      x := if v.Null? then SynNull else if v.b then SynTrue else SynFalse;
      WordStands(text, i, v, j);
      StandsIsCut(text, i, Print(v, 0, false));
    } else {
      ValueKind(text, i, v, j);
      hide Spelling, Mean, ProperSyn;
      match v {
        case Number(n) => x := NumberCut(text, i, n, j);
        case String(s) =>
          var ps := StringCut(text, i, s, j);
          x := SynString(ps);
          StringSyn(ps);
        case Array(items) => x := ArrayCut(text, i, items, j);
        case Object(members) => x := ObjectCut(text, i, members, j);
      }
    }
  }

  lemma StandsIsCut(text: string, i: nat, m: string)
    requires Stands(text, i, m)
    ensures Cut(text, i, i + |m|, m)
  {}

  lemma StringSyn(ps: seq<Piece>)
    requires AllProper(ps)
    ensures ProperSyn(SynString(ps)) && Mean(SynString(ps)) == String(Meaning(ps))
    ensures Spelling(SynString(ps)) == Quoted(ps)
  {}

  lemma {:induction false} ArrayCut(text: string, i: nat, items: Items, j: nat) returns (x: Syn)
    requires i < |text| && At(text, i) == '[' && ParseArray(text, i) == Parsed(Array(items), j)
    ensures ProperSyn(x) && Mean(x) == Array(items) && Cut(text, i, j, Spelling(x))
    decreases |text| - i - 1, 3
  {
    hide ParseItems, Cut, Blank, ItemsText;
    var s := Skip(text, i + 1);
    MarkCut(text, i);
    var w := BlankCut(text, i + 1);
    var inner := "]";
    if At(text, s) == ']' {
      MarkCut(text, s);
      x := SynArray(EndItems, w);
      NoBlank();
    } else {
      var xs := ItemsCut(text, s, items, j);
      SkipTwice(text, i + 1);
      inner := ItemsText(xs);
      xs := Rebefore(xs, w);
      x := SynArray(xs, "");
      NoBlank();
    }
    CutJoin(text, i + 1, s, j, w, inner);
    CutJoin(text, i, i + 1, j, "[", w + inner);
  }

  lemma NoBlank()
    ensures Blank("")
  {}

  lemma Rebefore(xs: SynItems, w: string) returns (ys: SynItems)
    requires xs.SynItem? && ProperItems(xs) && Blank(w)
    ensures ys == xs.(before := w) && ProperItems(ys) && MeanItems(ys) == MeanItems(xs)
    ensures ItemsText(ys) == ItemsText(xs)
  {
    hide Blank;
    ys := xs.(before := w);
  }

  lemma {:induction false} ItemsCut(text: string, i: nat, items: Items, j: nat) returns (xs: SynItems)
    requires i <= |text| && ParseItems(text, i) == Parsed(items, j)
    ensures xs.SynItem? && ProperItems(xs) && MeanItems(xs) == items && Cut(text, Skip(text, i), j, ItemsText(xs))
    decreases |text| - i, 1
  {
    hide *;
    var s, e, c := ItemsAt(text, i, items, j);
    var x := ValueCut(text, s, items.value, e);
    var w := BlankCut(text, e);
    MarkCut(text, c);
    if items.next.NoItem? {
      xs := OneSyn(x, w, EndItems);
      CutJoin(text, e, c, j, w, "]");
      CutJoin(text, s, e, j, Spelling(x), w + "]");
    } else {
      var w' := BlankCut(text, c + 1);
      var rest := ItemsCut(text, c + 1, items.next, j);
      var more := Rebefore(rest, w');
      xs := OneSyn(x, w, more);
      JoinCuts(text, s, e, c, Skip(text, c + 1), j, Spelling(x), w, w', ItemsText(rest));
    }
  }

  /** Where the first value begins and ends, and where the mark behind it stands. */
  lemma ItemsAt(text: string, i: nat, items: Items, j: nat) returns (s: nat, e: nat, c: nat)
    requires i <= |text| && ParseItems(text, i) == Parsed(items, j)
    ensures items.Item? && s == Skip(text, i) && i <= s <= |text| && ParseValue(text, s) == Parsed(items.value, e)
    ensures s < e <= c < |text| && c == Skip(text, e)
    ensures items.next.NoItem? ==> text[c] == ']' && j == c + 1
    ensures items.next.Item? ==> text[c] == ',' && ParseItems(text, c + 1) == Parsed(items.next, j)
  {
    hide ParseValue;
    s := Skip(text, i);
    e := ParseValue(text, s).end;
    c := Skip(text, e);
  }

  lemma OneSyn(x: Syn, w: string, next: SynItems) returns (xs: SynItems)
    requires ProperSyn(x) && Blank(w) && (next.SynItem? ==> ProperItems(next))
    ensures ProperItems(next)
    ensures xs == SynItem("", x, w, next) && ProperItems(xs) && MeanItems(xs) == Item(Mean(x), MeanItems(next))
    ensures MeanItems(EndItems) == NoItem
    ensures ItemsText(xs) ==
            Spelling(x) + (w + if next.EndItems? then "]" else "," + (next.before + ItemsText(next)))
  {
    hide Spelling, Mean, ProperSyn;
    NoBlank();
    xs := SynItem("", x, w, next);
    ItemsTextIs(xs);
  }

  lemma ItemsTextIs(xs: SynItems)
    requires xs.SynItem?
    ensures ItemsText(xs) ==
            Spelling(xs.v)
            + (xs.after + if xs.next.EndItems? then "]" else "," + (xs.next.before + ItemsText(xs.next)))
  {
    hide Spelling;
  }

  lemma JoinCuts(text: string, i: nat, e: nat, c: nat, n: nat, j: nat, own: string, w: string, w': string, rest: string)
    requires Cut(text, i, e, own) && Cut(text, e, c, w) && Cut(text, c, c + 1, ",")
    requires Cut(text, c + 1, n, w') && Cut(text, n, j, rest)
    ensures Cut(text, i, j, own + (w + ("," + (w' + rest))))
  {
    hide *;
    CutJoin(text, c + 1, n, j, w', rest);
    CutJoin(text, c, c + 1, j, ",", w' + rest);
    CutJoin(text, e, c, j, w, "," + (w' + rest));
    CutJoin(text, i, e, j, own, w + ("," + (w' + rest)));
  }

  lemma {:induction false} ObjectCut(text: string, i: nat, members: Members, j: nat) returns (x: Syn)
    requires i < |text| && At(text, i) == '{' && ParseObject(text, i) == Parsed(Object(members), j)
    ensures ProperSyn(x) && Mean(x) == Object(members) && Cut(text, i, j, Spelling(x))
    decreases |text| - i - 1, 3
  {
    hide ParseMembers, Cut, Blank, MembersText;
    var s := Skip(text, i + 1);
    MarkCut(text, i);
    var w := BlankCut(text, i + 1);
    var inner := "}";
    NoBlank();
    if At(text, s) == '}' {
      MarkCut(text, s);
      x := SynObject(EndMembers, w);
    } else {
      var xs := MembersCut(text, s, members, j);
      SkipTwice(text, i + 1);
      inner := MembersText(xs);
      xs := RebeforeMember(xs, w);
      x := SynObject(xs, "");
    }
    CutJoin(text, i + 1, s, j, w, inner);
    CutJoin(text, i, i + 1, j, "{", w + inner);
  }

  lemma RebeforeMember(xs: SynMembers, w: string) returns (ys: SynMembers)
    requires xs.SynMember? && ProperMembers(xs) && Blank(w)
    ensures ys == xs.(before := w) && ProperMembers(ys) && MeanMembers(ys) == MeanMembers(xs)
    ensures MembersText(ys) == MembersText(xs)
  {
    hide Blank, AllProper, Meaning, Quoted;
    ys := xs.(before := w);
  }

  /** A name, a colon and a value, as a member with nothing after it. */
  lemma {:induction false} PairCut(text: string, i: nat, name: string, v: Json, j: nat) returns (x: SynMembers)
    requires i <= |text| && ParsePair(text, i) == Parsed((name, v), j)
    ensures x.SynMember? && ProperMembers(x) && x.before == x.after == "" && x.next.EndMembers?
    ensures Meaning(x.name) == name && Mean(x.v) == v && Cut(text, Skip(text, i), j, PairText(x))
    decreases |text| - i, 1
  {
    hide ParseValue, ParseString, Cut, Blank, Spelling, Mean, ProperSyn, Quoted, Meaning, AllProper, Skip;
    var s := Skip(text, i);
    var e := ParseString(text, s).end;
    var ps := StringCut(text, s, name, e);
    var w := BlankCut(text, e);
    var c := Skip(text, e);
    MarkCut(text, c);
    var w' := BlankCut(text, c + 1);
    var b := Skip(text, c + 1);
    var y := ValueCut(text, b, v, j);
    NoBlank();
    x := SynMember("", ps, w, w', y, "", EndMembers);
    CutJoin(text, c + 1, b, j, w', Spelling(y));
    CutJoin(text, c, c + 1, j, ":", w' + Spelling(y));
    CutJoin(text, e, c, j, w, ":" + (w' + Spelling(y)));
    CutJoin(text, s, e, j, Quoted(ps), w + (":" + (w' + Spelling(y))));
  }

  lemma {:induction false} MembersCut(text: string, i: nat, members: Members, j: nat) returns (xs: SynMembers)
    requires i <= |text| && ParseMembers(text, i) == Parsed(members, j)
    ensures xs.SynMember? && ProperMembers(xs) && MeanMembers(xs) == members
    ensures Cut(text, Skip(text, i), j, MembersText(xs))
    decreases |text| - i, 2
  {
    hide ParsePair, Cut, Blank, Mean, ProperSyn, Skip, Meaning, AllProper, PairText, MembersText;
    var s := Skip(text, i);
    var e := ParsePair(text, i).end;
    var x := PairCut(text, i, members.name, members.value, e);
    var w := BlankCut(text, e);
    var c := Skip(text, e);
    MarkCut(text, c);
    if At(text, c) == '}' {
      xs := x.(after := w);
      SamePair(x, xs);
      MembersTextIs(xs);
      CutJoin(text, e, c, j, w, "}");
      CutJoin(text, s, e, j, PairText(x), w + "}");
    } else {
      var w' := BlankCut(text, c + 1);
      var rest := MembersCut(text, c + 1, members.next, j);
      var more := RebeforeMember(rest, w');
      xs := x.(after := w, next := more);
      SamePair(x, xs);
      MembersTextIs(xs);
      JoinCuts(text, s, e, c, Skip(text, c + 1), j, PairText(x), w, w', MembersText(rest));
    }
  }

  lemma SamePair(x: SynMembers, y: SynMembers)
    requires x.SynMember? && y.SynMember?
    requires (x.name, x.mid, x.lead, x.v) == (y.name, y.mid, y.lead, y.v)
    ensures PairText(x) == PairText(y)
  {
    hide Quoted, Spelling;
  }

  lemma MembersTextIs(xs: SynMembers)
    requires xs.SynMember?
    ensures MembersText(xs) ==
            PairText(xs)
            + (xs.after + if xs.next.EndMembers? then "}" else "," + (xs.next.before + MembersText(xs.next)))
  {
    hide PairText;
  }

  // ----- The language ---------------------------------------------------------------------------------------------

  /** The text is the spelling of x with white space around it, and x means v. */
  ghost predicate Spells(text: string, v: Json, w: string, x: Syn, w': string) {
    Blank(w) && Blank(w') && ProperSyn(x) && Mean(x) == v && text == w + (Spelling(x) + w')
  }

  lemma AcceptedIsSpelled(text: string, v: Json) returns (w: string, x: Syn, w': string)
    requires NoNul(text) && ParseText(text, true) == Parsed(v, |text|)
    ensures Spells(text, v, w, x, w')
  {
    hide ParseValue, Spelling, ProperSyn, Mean, Blank;
    var s := Skip(text, 0);
    var e := ParseValue(text, s).end;
    w := BlankCut(text, 0);
    x := ValueCut(text, s, v, e);
    w' := BlankCut(text, e);
    CutJoin(text, s, e, |text|, Spelling(x), w');
    CutJoin(text, 0, s, |text|, w, Spelling(x) + w');
    assert text[0..|text|] == text;
  }

  lemma SpelledIsAccepted(text: string, v: Json, w: string, x: Syn, w': string)
    requires Spells(text, v, w, x, w')
    ensures ParseText(text, true) == Parsed(v, |text|)
  {
    hide Denotes, ParseText, ProperSyn, Mean, Spelling;
    BlankIsSpaces(w);
    BlankIsSpaces(w');
    SpellingDenotes(x);
    WholeText(w, Spelling(x), w', v);
  }

  /** A text is accepted to its end as v if and only if it is the spelling of a syntax tree that means v. */
  lemma AcceptedExactly(text: string, v: Json)
    requires NoNul(text)
    ensures ParseText(text, true) == Parsed(v, |text|) <==> exists w, x, w' :: Spells(text, v, w, x, w')
  {
    hide ParseText, Spells;
    if ParseText(text, true) == Parsed(v, |text|) {
      var w, x, w' := AcceptedIsSpelled(text, v);
    }
    if w, x, w' :| Spells(text, v, w, x, w') {
      SpelledIsAccepted(text, v, w, x, w');
    }
  }

  /** Without the demand for the end, a spelling is read up to where it ends if a delimiter follows. */
  lemma PrefixIsRead(text: string, v: Json, w: string, x: Syn, rest: string)
    requires Spells(w + Spelling(x), v, w, x, "") && text == w + (Spelling(x) + rest)
    requires rest == "" || Delimits(rest[0])
    ensures ParseText(text, false) == Parsed(v, |w| + |Spelling(x)|)
  {
    hide ParseValue, ProperSyn, Mean, Spelling;
    BlankIsSpaces(w);
    SpellingDenotes(x);
    var own := Spelling(x);
    assert text[0..0 + |text|] == text;
    SkipSpaces(text, 0, w, own + rest);
    StandsSplit(text, |w|, own, rest);
    if rest != "" {
      StandsAt(text, |w| + |own|, rest, 0);
    }
  }
}
