/**
 Minifying keeps the meaning of every text that the reader accepts to its end, however it is laid out: what is left is
 accepted to its end as the same tree.
 */
module JsonMinifyMeaning {
  import opened Common
  import opened JsonText
  import opened JsonModel
  import opened JsonParse
  import opened JsonRoundTrip
  import opened JsonLiteral
  import opened JsonMinify
  import opened JsonMinifyPrint

  /** Wherever `m` stands before a delimiter, it is read as v. */
  ghost predicate Denotes(m: string, v: Json) {
    forall t: string, k: nat {:trigger Stands(t, k, m)} ::
      Stands(t, k, m) && Delimits(At(t, k + |m|)) ==> ParseValue(t, k) == Parsed(v, k + |m|)
  }

  ghost predicate DenotesString(m: string, s: string) {
    forall t: string, k: nat {:trigger Stands(t, k, m)} :: Stands(t, k, m) ==> ParseString(t, k) == Parsed(s, k + |m|)
  }

  ghost predicate DenotesItems(m: string, items: Items) {
    forall t: string, k: nat {:trigger Stands(t, k, m)} :: Stands(t, k, m) ==>
        ParseItems(t, k) == Parsed(items, k + |m|)
  }

  ghost predicate DenotesPair(m: string, name: string, v: Json) {
    forall t: string, k: nat {:trigger Stands(t, k, m)} ::
      Stands(t, k, m) && Delimits(At(t, k + |m|)) ==> ParsePair(t, k) == Parsed((name, v), k + |m|)
  }

  ghost predicate DenotesMembers(m: string, members: Members) {
    forall t: string, k: nat {:trigger Stands(t, k, m)} :: Stands(t, k, m) ==>
        ParseMembers(t, k) == Parsed(members, k + |m|)
  }

  /** Begins with a token, and not with a closing bracket. */
  predicate Begins(m: string) {
    m != [] && !IsSpace(m[0]) && m[0] != ']' && m[0] != '}'
  }

  // ----- What of the text is kept -------------------------------------------------------------------------

  /** Of white space, the control characters stay that minifying does not know. */
  lemma {:induction false} SpacesKept(text: string, i: nat) returns (w: string)
    requires i <= |text|
    ensures Region(text, i, Skip(text, i), w) && Spaces(w)
    decreases |text| - i
  {
    if i < |text| && IsSpace(text[i]) {
      var rest := SpacesKept(text, i + 1);
      w := if IsBlank(text[i]) then rest else [text[i]] + rest;
      assert !IsBlank(text[i]) ==> Region(text, i, i + 1, [text[i]]);
      if !IsBlank(text[i]) {
        Join(text, i, i + 1, Skip(text, i), [text[i]], rest);
      }
    } else {
      w := "";
      AfterTwice([], [], Minified(text, i));
    }
  }

  lemma {:induction false} SpellingEnds(text: string, i: nat, ps: seq<Piece>)
    requires AllProper(ps) && Stands(text, i, SpellAll(ps) + "\"")
    ensures i <= |text| && StringEnd(text, i) == Some(i + |SpellAll(ps)| + 1)
    decreases |ps|
  {
    hide Stands, HexValue;
    if ps == [] {
      assert SpellAll(ps) + "\"" == "\"";
      StandsAt(text, i, "\"", 0);
    } else {
      hide SpellAll;
      NextUnit(text, i, ps);
      var own := Spell(ps[0]);
      StandsAt(text, i, own, 0);
      SpellingEnds(text, i + |own|, ps[1..]);
      match ps[0]
      case Plain(c) =>
      case Escaped(c) =>
        StandsAt(text, i, own, 1);
      case Unit(h) =>
        UnitStands(text, i, h);
        assert StringEnd(text, i) == StringEnd(text, i + 2);
        assert StringEnd(text, i + 2) == StringEnd(text, i + 3);
        assert StringEnd(text, i + 3) == StringEnd(text, i + 4) == StringEnd(text, i + 5) == StringEnd(text, i + 6);
    }
  }

  /** A literal is kept whole. */
  lemma StringKept(text: string, i: nat, s: string, j: nat) returns (m: string)
    requires i <= |text| && ParseString(text, i) == Parsed(s, j)
    ensures Region(text, i, j, m) && DenotesString(m, s) && m != [] && m[0] == '\"'
  {
    hide SpellAll, Meaning;
    var ps := DecodedIsSpelled(text, i + 1);
    DecodesMeaning(text, i + 1, ps);
    SpellingEnds(text, i + 1, ps);
    var body := SpellAll(ps) + "\"";
    m := "\"" + body;
    assert text[i..j] == m by {
      assert text[i..j] == [text[i]] + text[i + 1..j];
    }
    SpelledDenotes(ps, s, m);
  }

  lemma SpelledDenotes(ps: seq<Piece>, s: string, m: string)
    requires AllProper(ps) && Meaning(ps) == s && m == "\"" + (SpellAll(ps) + "\"")
    ensures DenotesString(m, s)
  {
    hide Stands, SpellAll, Meaning, Literal, AllProper;
    forall t: string, k: nat | Stands(t, k, m)
      ensures k <= |t| && ParseString(t, k) == Parsed(s, k + |m|)
    {
      StandsSplit(t, k, "\"", SpellAll(ps) + "\"");
      StandsAt(t, k, "\"", 0);
      DecodesMeaning(t, k + 1, ps);
    }
  }

  lemma WordKept(text: string, i: nat, v: Json, j: nat) returns (m: string)
    requires i <= |text| && ParseValue(text, i) == Parsed(v, j) && (v.Null? || v.Bool?)
    ensures Region(text, i, j, m) && Denotes(m, v) && Begins(m)
  {
    m := Print(v, 0, false);
    WordStands(text, i, v, j);
    WordIsTokens(v);
    CopyTokens(text, i, m);
    forall t: string, k: nat | Stands(t, k, m)
      ensures ParseValue(t, k) == Parsed(v, k + |m|)
    {
      ReadsWord(t, k, v);
    }
  }

  lemma WordStands(text: string, i: nat, v: Json, j: nat)
    requires i <= |text| && ParseValue(text, i) == Parsed(v, j) && (v.Null? || v.Bool?)
    ensures Stands(text, i, Print(v, 0, false)) && j == i + |Print(v, 0, false)|
  {
    hide Stands, ParseItems, ParseMembers, ParseString, Magnitude;
  }

  // ----- Numbers --------------------------------------------------------------------------------------------

  predicate Digits(s: string) {
    forall i | 0 <= i < |s| :: IsDigit(s[i])
  }

  lemma {:induction false} DigitsKept(text: string, i: nat, n: nat)
    requires i <= |text|
    ensures var (x, j) := ReadDigits(text, i, n);
            i <= j <= |text| && Digits(text[i..j])
    decreases |text| - i
  {
    if i < |text| && IsDigit(text[i]) {
      DigitsKept(text, i + 1, 10 * n + ValueOf(text[i]));
      var j := ReadDigits(text, i, n).1;
      assert text[i..j] == [text[i]] + text[i + 1..j];
    }
  }

  /** A run of digits has the same value wherever it stands and ends. */
  lemma {:induction false} SameDigits(text: string, i: nat, n: nat, t: string, k: nat)
    requires i <= |text| && Stands(t, k, text[i..ReadDigits(text, i, n).1])
    requires !IsDigit(At(t, k + (ReadDigits(text, i, n).1 - i)))
    ensures ReadDigits(t, k, n) == (ReadDigits(text, i, n).0, k + (ReadDigits(text, i, n).1 - i))
    decreases |text| - i
  {
    if i < |text| && IsDigit(text[i]) {
      var j := ReadDigits(text, i, n).1;
      assert text[i..j] == [text[i]] + text[i + 1..j];
      StandsSplit(t, k, [text[i]], text[i + 1..j]);
      StandsAt(t, k, [text[i]], 0);
      SameDigits(text, i + 1, 10 * n + ValueOf(text[i]), t, k + 1);
    }
  }

  lemma MagnitudeKept(text: string, i: nat)
    requires i <= |text|
    ensures Digits(text[i..Magnitude(text, i).1])
  {
    var j := if At(text, i) == '0' then i + 1 else i;
    if '1' <= At(text, j) <= '9' {
      DigitsKept(text, j + 1, ValueOf(At(text, j)));
    }
  }

  /** A part of a text that stands in another text begins with the same character, and its end stands there too. */
  lemma StandsFrom(text: string, i: nat, at: nat, j: nat, t: string, k: nat)
    requires i <= at <= j <= |text| && i < j && Stands(t, k, text[i..j])
    ensures k + (j - i) <= |t| && At(t, k) == At(text, i) && Stands(t, k + (at - i), text[at..j])
  {
    StandsAt(t, k, text[i..j], 0);
    assert text[i..j] == text[i..at] + text[at..j];
    StandsSplit(t, k, text[i..at], text[at..j]);
  }

  lemma SameMagnitude(text: string, i: nat, t: string, k: nat)
    requires i <= |text| && Stands(t, k, text[i..Magnitude(text, i).1])
             && !IsDigit(At(t, k + (Magnitude(text, i).1 - i)))
    ensures Magnitude(t, k) == (Magnitude(text, i).0, k + (Magnitude(text, i).1 - i))
  {
    hide Stands, ReadDigits, ValueOf;
    var j, end := if At(text, i) == '0' then i + 1 else i, Magnitude(text, i).1;
    if '1' <= At(text, j) <= '9' {
      StandsFrom(text, i, j, end, t, k);
      StandsFrom(text, j, j + 1, end, t, k + (j - i));
      SameDigits(text, j + 1, ValueOf(At(text, j)), t, k + (j + 1 - i));
    } else if i < j {
      StandsFrom(text, i, j, j, t, k);
    }
  }

  /** The same sign and the same magnitude before a delimiter are the same number. */
  lemma NumberMoves(text: string, i: nat, n: int, j: nat, t: string, k: nat, sign: nat)
    requires i < |text| && (At(text, i) == '-' || IsDigit(At(text, i))) && ParseNumber(text, i) == Parsed(Number(n), j)
    requires k < |t| && At(t, k) == At(text, i) && sign == if At(text, i) == '-' then 1 else 0
    requires i + sign <= |text| && k + sign <= |t| && i < j && Delimits(At(t, k + (j - i)))
    requires Magnitude(t, k + sign) == (Magnitude(text, i + sign).0, k + (j - i))
    ensures ParseNumber(t, k) == Parsed(Number(n), k + (j - i))
  {
    hide Magnitude;
  }

  /** The same number stands in another text. */
  lemma SameNumber(text: string, i: nat, n: int, j: nat, t: string, k: nat)
    requires i < |text| && (At(text, i) == '-' || IsDigit(At(text, i))) && ParseNumber(text, i) == Parsed(Number(n), j)
    requires Stands(t, k, text[i..j]) && Delimits(At(t, k + (j - i)))
    ensures k < |t| && ParseValue(t, k) == Parsed(Number(n), k + (j - i))
  {
    var sign := if At(text, i) == '-' then 1 else 0;
    assert i + sign <= |text| && Magnitude(text, i + sign).1 == j;
    assert !IsDigit(At(t, k + (j - i)));
    hide *;
    StandsFrom(text, i, i + sign, j, t, k);
    SameMagnitude(text, i + sign, t, k + sign);
    NumberMoves(text, i, n, j, t, k, sign);
    NumberStarts(t, k);
  }

  lemma NumberStarts(t: string, k: nat)
    requires k < |t| && (At(t, k) == '-' || IsDigit(At(t, k)))
    ensures ParseValue(t, k) == ParseNumber(t, k)
  {
    hide ParseNumber, ParseValue;
    Dispatch(t, k);
  }

  lemma NumberTokens(text: string, i: nat, n: int, j: nat)
    requires i < |text| && (At(text, i) == '-' || IsDigit(At(text, i))) && ParseNumber(text, i) == Parsed(Number(n), j)
    ensures Tokens(text[i..j])
  {
    hide Magnitude;
    var at := if At(text, i) == '-' then i + 1 else i;
    assert text[i..j] == text[i..at] + text[at..j];
    MagnitudeKept(text, at);
  }

  lemma NumberDenotes(text: string, i: nat, n: int, j: nat, m: string)
    requires i < |text| && (At(text, i) == '-' || IsDigit(At(text, i))) && ParseNumber(text, i) == Parsed(Number(n), j)
    requires m == text[i..j]
    ensures Denotes(m, Number(n))
  {
    hide ParseNumber, ParseValue, Delimits, At;
    forall t: string, k: nat | Stands(t, k, m) && Delimits(At(t, k + |m|))
      ensures ParseValue(t, k) == Parsed(Number(n), k + |m|)
    {
      SameNumber(text, i, n, j, t, k);
    }
  }

  lemma NumberKept(text: string, i: nat, n: int, j: nat) returns (m: string)
    requires i < |text| && (At(text, i) == '-' || IsDigit(At(text, i))) && ParseNumber(text, i) == Parsed(Number(n), j)
    ensures Region(text, i, j, m) && Denotes(m, Number(n)) && Begins(m)
  {
    hide Region, Tokens, Denotes, ParseValue, Magnitude, Delimits;
    m := text[i..j];
    assert m[0] == text[i] && Stands(text, i, m);
    NumberTokens(text, i, n, j);
    CopyTokens(text, i, m);
    NumberDenotes(text, i, n, j, m);
  }

  // ----- Putting kept parts together -------------------------------------------------------------------------

  /** White space or a delimiter after a value ends it. */
  lemma AfterValue(t: string, k: nat, w: string, rest: string)
    requires Spaces(w) && Stands(t, k, w + rest) && rest != [] && Delimits(rest[0])
    ensures Delimits(At(t, k))
  {
    StandsAt(t, k, w + rest, 0);
  }

  lemma Here(t: string, k: nat, m: string)
    requires Stands(t, k, m) && m != [] && !IsSpace(m[0])
    ensures k + |m| <= |t| && Skip(t, k) == k && At(t, k) == m[0]
  {
    StandsAt(t, k, m, 0);
  }

  lemma EmptyArray(w: string)
    requires Spaces(w)
    ensures Denotes("[" + (w + "]"), Array(NoItem))
  {
    var m := "[" + (w + "]");
    forall t: string, k: nat | Stands(t, k, m)
      ensures ParseValue(t, k) == Parsed(Array(NoItem), k + |m|)
    {
      StandsSplit(t, k, "[", w + "]");
      StandsAt(t, k, "[", 0);
      SkipSpaces(t, k + 1, w, "]");
      Dispatch(t, k);
    }
  }

  lemma ArrayOf(w: string, inner: string, items: Items)
    requires Spaces(w) && Begins(inner) && DenotesItems(inner, items)
    ensures Denotes("[" + (w + inner), Array(items))
  {
    hide ParseItems, Stands;
    var m := "[" + (w + inner);
    forall t: string, k: nat | Stands(t, k, m)
      ensures k <= |t| && ParseValue(t, k) == Parsed(Array(items), k + |m|)
    {
      StandsBounds(t, k, m);
      StandsSplit(t, k, "[", w + inner);
      StandsAt(t, k, "[", 0);
      SkipSpaces(t, k + 1, w, inner);
      Dispatch(t, k);
    }
  }

  lemma LastItem(own: string, v: Json, w: string)
    requires Denotes(own, v) && Begins(own) && Spaces(w)
    ensures DenotesItems(own + (w + "]"), Item(v, NoItem))
  {
    hide ParseValue, ParseItems, Stands, Skip, At, Spaces;
    var m := own + (w + "]");
    forall t: string, k: nat | Stands(t, k, m)
      ensures k <= |t| && ParseItems(t, k) == Parsed(Item(v, NoItem), k + |m|)
    {
      StandsBounds(t, k, m);
      StandsSplit(t, k, own, w + "]");
      Here(t, k, own);
      AfterValue(t, k + |own|, w, "]");
      SkipSpaces(t, k + |own|, w, "]");
      ItemsUnfold(t, k, v, k + |own|);
    }
  }

  lemma OneMoreItem(own: string, v: Json, w: string, w': string, rest: string, more: Items)
    requires Denotes(own, v) && Begins(own) && Spaces(w) && Spaces(w') && Begins(rest) && DenotesItems(rest, more)
    ensures DenotesItems(own + (w + ("," + (w' + rest))), Item(v, more))
  {
    hide ParseValue, ParseItems, Stands, Skip, At, Spaces;
    var m := own + (w + ("," + (w' + rest)));
    forall t: string, k: nat | Stands(t, k, m)
      ensures k <= |t| && ParseItems(t, k) == Parsed(Item(v, more), k + |m|)
    {
      StandsBounds(t, k, m);
      StandsSplit(t, k, own, w + ("," + (w' + rest)));
      Here(t, k, own);
      AfterValue(t, k + |own|, w, "," + (w' + rest));
      SkipSpaces(t, k + |own|, w, "," + (w' + rest));
      var c := k + |own| + |w|;
      StandsSplit(t, c, ",", w' + rest);
      SkipSpaces(t, c + 1, w', rest);
      ItemsSkip(t, c + 1);
      ItemsUnfold(t, k, v, k + |own|);
    }
  }

  lemma ItemsSkip(t: string, k: nat)
    requires k <= |t|
    ensures ParseItems(t, k) == ParseItems(t, Skip(t, k))
  {
    hide ParseValue;
    assert Skip(t, Skip(t, k)) == Skip(t, k);
  }

  lemma PairOf(quoted: string, name: string, w: string, w': string, own: string, v: Json)
    requires DenotesString(quoted, name) && quoted != [] && quoted[0] == '\"'
    requires Spaces(w) && Spaces(w') && Denotes(own, v) && Begins(own)
    ensures DenotesPair(quoted + (w + (":" + (w' + own))), name, v)
  {
    hide ParseValue, ParseString, ParsePair, Stands, Skip, At, Spaces;
    var m := quoted + (w + (":" + (w' + own)));
    forall t: string, k: nat | Stands(t, k, m) && Delimits(At(t, k + |m|))
      ensures k <= |t| && ParsePair(t, k) == Parsed((name, v), k + |m|)
    {
      StandsBounds(t, k, m);
      StandsSplit(t, k, quoted, w + (":" + (w' + own)));
      Here(t, k, quoted);
      SkipSpaces(t, k + |quoted|, w, ":" + (w' + own));
      var c := k + |quoted| + |w|;
      StandsSplit(t, c, ":", w' + own);
      SkipSpaces(t, c + 1, w', own);
      PairUnfold(t, k, name, k + |quoted|);
    }
  }

  lemma EmptyObject(w: string)
    requires Spaces(w)
    ensures Denotes("{" + (w + "}"), Object(NoMember))
  {
    var m := "{" + (w + "}");
    forall t: string, k: nat | Stands(t, k, m)
      ensures ParseValue(t, k) == Parsed(Object(NoMember), k + |m|)
    {
      StandsSplit(t, k, "{", w + "}");
      StandsAt(t, k, "{", 0);
      SkipSpaces(t, k + 1, w, "}");
      Dispatch(t, k);
    }
  }

  lemma ObjectOf(w: string, inner: string, members: Members)
    requires Spaces(w) && Begins(inner) && DenotesMembers(inner, members)
    ensures Denotes("{" + (w + inner), Object(members))
  {
    hide ParseMembers, Stands;
    var m := "{" + (w + inner);
    forall t: string, k: nat | Stands(t, k, m)
      ensures k <= |t| && ParseValue(t, k) == Parsed(Object(members), k + |m|)
    {
      StandsBounds(t, k, m);
      StandsSplit(t, k, "{", w + inner);
      StandsAt(t, k, "{", 0);
      SkipSpaces(t, k + 1, w, inner);
      Dispatch(t, k);
    }
  }

  lemma LastMember(own: string, name: string, v: Json, w: string)
    requires DenotesPair(own, name, v) && Begins(own) && Spaces(w)
    ensures DenotesMembers(own + (w + "}"), Member(name, v, NoMember))
  {
    hide ParsePair, ParseMembers, Stands, Skip, At, Spaces;
    var m := own + (w + "}");
    forall t: string, k: nat | Stands(t, k, m)
      ensures k <= |t| && ParseMembers(t, k) == Parsed(Member(name, v, NoMember), k + |m|)
    {
      StandsBounds(t, k, m);
      StandsSplit(t, k, own, w + "}");
      AfterValue(t, k + |own|, w, "}");
      SkipSpaces(t, k + |own|, w, "}");
      MembersUnfold(t, k, name, v, k + |own|);
    }
  }

  lemma OneMoreMember(own: string, name: string, v: Json, w: string, w': string, rest: string, more: Members)
    requires DenotesPair(own, name, v) && Begins(own) && Spaces(w) && Spaces(w') && Begins(rest)
             && DenotesMembers(rest, more)
    ensures DenotesMembers(own + (w + ("," + (w' + rest))), Member(name, v, more))
  {
    hide ParsePair, ParseMembers, Stands, Skip, At, Spaces;
    var m := own + (w + ("," + (w' + rest)));
    forall t: string, k: nat | Stands(t, k, m)
      ensures k <= |t| && ParseMembers(t, k) == Parsed(Member(name, v, more), k + |m|)
    {
      StandsBounds(t, k, m);
      StandsSplit(t, k, own, w + ("," + (w' + rest)));
      AfterValue(t, k + |own|, w, "," + (w' + rest));
      SkipSpaces(t, k + |own|, w, "," + (w' + rest));
      var c := k + |own| + |w|;
      StandsSplit(t, c, ",", w' + rest);
      SkipSpaces(t, c + 1, w', rest);
      SkipFirst(t, c + 1);
      MembersUnfold(t, k, name, v, k + |own|);
    }
  }

  // ----- The induction over the reader -------------------------------------------------------------------------

  /** One character that is copied. */
  lemma TokenKept(text: string, i: nat)
    requires i < |text| && IsToken(text[i])
    ensures Region(text, i, i + 1, [text[i]])
  {
    assert Stands(text, i, [text[i]]);
    CopyTokens(text, i, [text[i]]);
  }

  lemma {:induction false} ValueKept(text: string, i: nat, v: Json, j: nat) returns (m: string)
    requires i <= |text| && ParseValue(text, i) == Parsed(v, j)
    ensures Region(text, i, j, m) && Denotes(m, v) && Begins(m)
    decreases |text| - i, 0
  {
    hide Region, Denotes, ParseString, ParseNumber;
    if v.Null? || v.Bool? {
      m := WordKept(text, i, v, j);
    } else {
      ValueKind(text, i, v, j);
      match v
      case String(s) =>
        m := StringKept(text, i, s, j);
        StringValue(m, s);
      case Number(n) => m := NumberKept(text, i, n, j);
      case Array(items) => m := ArrayKept(text, i, items, j);
      case Object(members) => m := ObjectKept(text, i, members, j);
    }
  }

  lemma ValueKind(text: string, i: nat, v: Json, j: nat)
    requires i <= |text| && ParseValue(text, i) == Parsed(v, j) && !v.Null? && !v.Bool?
    ensures i < |text|
    ensures v.String? ==> ParseString(text, i) == Parsed(v.s, j)
    ensures v.Number? ==> (At(text, i) == '-' || IsDigit(At(text, i))) && ParseNumber(text, i) == Parsed(v, j)
    ensures v.Array? ==> At(text, i) == '[' && ParseArray(text, i) == Parsed(v, j)
    ensures v.Object? ==> At(text, i) == '{' && ParseObject(text, i) == Parsed(v, j)
  {
    hide Stands, ParseItems, ParseMembers, ParseString, Magnitude;
  }

  lemma StringValue(m: string, s: string)
    requires DenotesString(m, s) && m != [] && m[0] == '\"'
    ensures Denotes(m, String(s))
  {
    hide Stands, ParseString;
    forall t: string, k: nat | Stands(t, k, m)
      ensures k <= |t| && ParseValue(t, k) == Parsed(String(s), k + |m|)
    {
      StandsBounds(t, k, m);
      StandsAt(t, k, m, 0);
      Dispatch(t, k);
    }
  }

  lemma {:induction false} ArrayKept(text: string, i: nat, items: Items, j: nat) returns (m: string)
    requires i < |text| && At(text, i) == '[' && ParseArray(text, i) == Parsed(Array(items), j)
    ensures Region(text, i, j, m) && Denotes(m, Array(items)) && Begins(m)
    decreases |text| - i - 1, 3
  {
    hide Region, Denotes, DenotesItems, ParseItems;
    var s := Skip(text, i + 1);
    TokenKept(text, i);
    var w := SpacesKept(text, i + 1);
    var inner := "]";
    if At(text, s) == ']' {
      TokenKept(text, s);
      EmptyArray(w);
    } else {
      inner := ItemsKept(text, s, items, j);
      assert Skip(text, s) == s;
      ArrayOf(w, inner, items);
    }
    Join(text, i + 1, s, j, w, inner);
    Join(text, i, i + 1, j, "[", w + inner);
    m := "[" + (w + inner);
  }

  lemma JoinMore(text: string, i: nat, e: nat, c: nat, n: nat, j: nat, own: string, w: string, w': string, rest: string)
    requires Region(text, i, e, own) && Region(text, e, c, w) && Region(text, c, c + 1, ",")
    requires Region(text, c + 1, n, w') && Region(text, n, j, rest)
    ensures Region(text, i, j, own + (w + ("," + (w' + rest))))
  {
    hide *;
    Join(text, c + 1, n, j, w', rest);
    Join(text, c, c + 1, j, ",", w' + rest);
    Join(text, e, c, j, w, "," + (w' + rest));
    Join(text, i, e, j, own, w + ("," + (w' + rest)));
  }

  lemma {:induction false} ItemsKept(text: string, i: nat, items: Items, j: nat) returns (m: string)
    requires i <= |text| && ParseItems(text, i) == Parsed(items, j)
    ensures Region(text, Skip(text, i), j, m) && DenotesItems(m, items) && Begins(m)
    decreases |text| - i, 1
  {
    hide Region, Denotes, DenotesItems, ParseValue, Skip, Spaces;
    var s, v := Skip(text, i), items.value;
    var e := ParseValue(text, s).end;
    var own := ValueKept(text, s, v, e);
    var w := SpacesKept(text, e);
    var c := Skip(text, e);
    if At(text, c) == ']' {
      TokenKept(text, c);
      LastItem(own, v, w);
      Join(text, e, c, j, w, "]");
      Join(text, s, e, j, own, w + "]");
      m := own + (w + "]");
    } else {
      TokenKept(text, c);
      var w' := SpacesKept(text, c + 1);
      var rest := ItemsKept(text, c + 1, items.next, j);
      OneMoreItem(own, v, w, w', rest, items.next);
      JoinMore(text, s, e, c, Skip(text, c + 1), j, own, w, w', rest);
      m := own + (w + ("," + (w' + rest)));
    }
  }

  lemma {:induction false} PairKept(text: string, i: nat, name: string, v: Json, j: nat) returns (m: string)
    requires i <= |text| && ParsePair(text, i) == Parsed((name, v), j)
    ensures Region(text, Skip(text, i), j, m) && DenotesPair(m, name, v) && Begins(m)
    decreases |text| - i, 1
  {
    hide Region, Denotes, DenotesString, DenotesPair, ParseValue, ParseString;
    var s := Skip(text, i);
    var e := ParseString(text, s).end;
    var quoted := StringKept(text, s, name, e);
    var w := SpacesKept(text, e);
    var c := Skip(text, e);
    TokenKept(text, c);
    var w' := SpacesKept(text, c + 1);
    var b := Skip(text, c + 1);
    var own := ValueKept(text, b, v, j);
    PairOf(quoted, name, w, w', own, v);
    Join(text, c + 1, b, j, w', own);
    Join(text, c, c + 1, j, ":", w' + own);
    Join(text, e, c, j, w, ":" + (w' + own));
    Join(text, s, e, j, quoted, w + (":" + (w' + own)));
    m := quoted + (w + (":" + (w' + own)));
  }

  lemma {:induction false} ObjectKept(text: string, i: nat, members: Members, j: nat) returns (m: string)
    requires i < |text| && At(text, i) == '{' && ParseObject(text, i) == Parsed(Object(members), j)
    ensures Region(text, i, j, m) && Denotes(m, Object(members)) && Begins(m)
    decreases |text| - i - 1, 3
  {
    hide Region, Denotes, DenotesMembers, ParseMembers;
    var s := Skip(text, i + 1);
    TokenKept(text, i);
    var w := SpacesKept(text, i + 1);
    var inner := "}";
    if At(text, s) == '}' {
      TokenKept(text, s);
      EmptyObject(w);
    } else {
      inner := MembersKept(text, s, members, j);
      assert Skip(text, s) == s;
      ObjectOf(w, inner, members);
    }
    Join(text, i + 1, s, j, w, inner);
    Join(text, i, i + 1, j, "{", w + inner);
    m := "{" + (w + inner);
  }

  lemma {:induction false} MembersKept(text: string, i: nat, members: Members, j: nat) returns (m: string)
    requires i <= |text| && ParseMembers(text, i) == Parsed(members, j)
    ensures Region(text, Skip(text, i), j, m) && DenotesMembers(m, members) && Begins(m)
    decreases |text| - i, 2
  {
    hide Region, DenotesPair, DenotesMembers, ParsePair;
    var s := Skip(text, i);
    var e := ParsePair(text, i).end;
    var own := PairKept(text, i, members.name, members.value, e);
    var w := SpacesKept(text, e);
    var c := Skip(text, e);
    if At(text, c) == '}' {
      TokenKept(text, c);
      LastMember(own, members.name, members.value, w);
      Join(text, e, c, j, w, "}");
      Join(text, s, e, j, own, w + "}");
      m := own + (w + "}");
    } else {
      TokenKept(text, c);
      var w' := SpacesKept(text, c + 1);
      var rest := MembersKept(text, c + 1, members.next, j);
      OneMoreMember(own, members.name, members.value, w, w', rest, members.next);
      JoinMore(text, s, e, c, Skip(text, c + 1), j, own, w, w', rest);
      m := own + (w + ("," + (w' + rest)));
    }
  }

  /** A text read to its end as v is minified to a text read to its end as v. */
  lemma MinifyKeepsMeaning(text: string, v: Json)
    requires ParseText(text, true).Parsed? && ParseText(text, true).value == v
    ensures Minified(text, 0).Some?
    ensures ParseText(Minified(text, 0).value, true) == Parsed(v, |Minified(text, 0).value|)
  {
    hide Region, Denotes, ParseValue;
    var s := Skip(text, 0);
    var e := ParseValue(text, s).end;
    var w := SpacesKept(text, 0);
    var own := ValueKept(text, s, v, e);
    var w' := SpacesKept(text, e);
    var end := Skip(text, e);
    Join(text, s, e, end, own, w');
    Join(text, 0, s, end, w, own + w');
    var m := w + (own + w');
    WholeRegion(text, end, m);
    WholeText(w, own, w', v);
  }

  /** In place: a buffer that holds a text accepted to its end is left with one accepted to its end as the same tree. */
  method MinifyAccepted(json: array<char>, ghost text: string, ghost v: Json) returns (ghost kept: string)
    requires NoNul(text) && Unread(json, text, 0)
    requires ParseText(text, true).Parsed? && ParseText(text, true).value == v
    modifies json
    ensures |kept| <= |text| && json[..|kept|] == kept && json[|kept|] == NUL
    ensures ParseText(kept, true) == Parsed(v, |kept|)
  {
    hide ParseText;
    MinifyKeepsMeaning(text, v);
    kept := Minified(text, 0).value;
    Minify(json, text);
  }

  lemma WholeRegion(text: string, end: nat, m: string)
    requires Region(text, 0, end, m) && At(text, end) == NUL
    ensures Minified(text, 0) == Some(m)
  {
    assert m + "" == m;
  }

  lemma WholeText(w: string, own: string, w': string, v: Json)
    requires Spaces(w) && Spaces(w') && Begins(own) && Denotes(own, v)
    ensures ParseText(w + (own + w'), true) == Parsed(v, |w + (own + w')|)
  {
    hide ParseValue;
    var m := w + (own + w');
    assert m[0..0 + |m|] == m;
    SkipSpaces(m, 0, w, own + w');
    StandsSplit(m, |w|, own, w');
    if w' != [] {
      StandsAt(m, |w| + |own|, w', 0);
    }
    SkipOver(m, |w| + |own|, w');
  }
}
