/**
 Where the reader says that a text fails: what stands before that place can still become an accepted text, and what
 stands before it and up to five characters on cannot, whatever follows. Five, because a word is compared whole.
 */
module JsonErrors {
  import opened JsonText
  import opened JsonModel
  import opened JsonParse
  import opened JsonRoundTrip
  import opened JsonLiteral
  import opened JsonMinifyMeaning
  import opened JsonSyntax

  // ----- What stands before the place can be completed ------------------------------------------------------------

  /** The text from i to `at` and c behind it make up m. */
  predicate Completes(text: string, i: nat, at: nat, c: string, m: string) {
    i <= at <= |text| && text[i..at] + c == m
  }

  lemma CompletesJoin(text: string, i: nat, j: nat, at: nat, c: string, a: string, b: string)
    requires Cut(text, i, j, a) && Completes(text, j, at, c, b)
    ensures Completes(text, i, at, c, a + b)
  {
    assert text[i..at] == text[i..j] + text[j..at];
    assert (text[i..j] + text[j..at]) + c == text[i..j] + (text[j..at] + c);
  }

  lemma CompletesMore(text: string, i: nat, at: nat, c: string, m: string, d: string)
    requires Completes(text, i, at, c, m)
    ensures Completes(text, i, at, c + d, m + d)
  {
    assert text[i..at] + (c + d) == (text[i..at] + c) + d;
  }

  lemma CompletesHere(text: string, i: nat, m: string)
    requires i <= |text|
    ensures Completes(text, i, i, m, m)
  {
    assert text[i..i] + m == m;
  }

  /** A value fails where it begins, or inside of an array or an object. */
  lemma ValueFails(text: string, i: nat, at: nat)
    requires i <= |text| && ParseValue(text, i) == Failed(at)
    ensures at != i ==>
              && i < |text|
              && ((text[i] == '[' && ParseArray(text, i) == Failed(at))
                  || (text[i] == '{' && ParseObject(text, i) == Failed(at)))
  {
    hide Stands, ParseItems, ParseMembers, Magnitude, Literal;
  }

  lemma {:induction false} ValueCompletes(text: string, i: nat, at: nat) returns (x: Syn, c: string)
    requires i <= |text| && ParseValue(text, i) == Failed(at)
    ensures ProperSyn(x) && Completes(text, i, at, c, Spelling(x))
    decreases |text| - i, 0
  {
    hide *;
    ValueFails(text, i, at);
    if at == i {
      x, c := SynNull, "null";
      NullIs();
      CompletesHere(text, i, "null");
    } else if text[i] == '[' {
      x, c := ArrayCompletes(text, i, at);
    } else {
      x, c := ObjectCompletes(text, i, at);
    }
  }

  lemma NullIs()
    ensures ProperSyn(SynNull) && Spelling(SynNull) == "null"
  {}

  lemma ArrayFails(text: string, i: nat, at: nat)
    requires i < |text| && text[i] == '[' && ParseArray(text, i) == Failed(at)
    ensures ParseItems(text, Skip(text, i + 1)) == Failed(at)
  {
    hide ParseItems, Skip;
  }

  lemma {:induction false} ArrayCompletes(text: string, i: nat, at: nat) returns (x: Syn, c: string)
    requires i < |text| && text[i] == '[' && ParseArray(text, i) == Failed(at)
    ensures ProperSyn(x) && Completes(text, i, at, c, Spelling(x))
    decreases |text| - i - 1, 3
  {
    hide *;
    ArrayFails(text, i, at);
    var s := Skip(text, i + 1);
    MarkCut(text, i);
    var w := BlankCut(text, i + 1);
    var xs;
    xs, c := ItemsComplete(text, s, at);
    SkipTwice(text, i + 1);
    var ys := Rebefore(xs, w);
    x := ArrayOfSyn(ys);
    CompletesJoin(text, i + 1, s, at, c, w, ItemsText(ys));
    CompletesJoin(text, i, i + 1, at, c, "[", w + ItemsText(ys));
  }

  lemma ArrayOfSyn(xs: SynItems) returns (x: Syn)
    requires xs.SynItem? && ProperItems(xs)
    ensures ProperSyn(x) && Spelling(x) == "[" + (xs.before + ItemsText(xs))
  {
    hide ItemsText;
    NoBlank();
    x := SynArray(xs, "");
  }

  /** How a row of items fails: in the first value, at the mark behind it, or later. */
  lemma ItemsFail(text: string, i: nat, at: nat)
    requires i <= |text| && ParseItems(text, i) == Failed(at)
    ensures i <= Skip(text, i) <= |text| && !ParseValue(text, Skip(text, i)).Outside?
    ensures ParseValue(text, Skip(text, i)).Failed? ==> ParseValue(text, Skip(text, i)).at == at
    ensures ParseValue(text, Skip(text, i)).Parsed? ==>
              var e := ParseValue(text, Skip(text, i)).end;
              var c := Skip(text, e);
              && Skip(text, i) < e <= c <= |text|
              && (at == c || (c < |text| && text[c] == ',' && ParseItems(text, c + 1) == Failed(at)))
  {
    hide ParseValue, Skip;
  }

  lemma {:induction false} ItemsComplete(text: string, i: nat, at: nat) returns (xs: SynItems, c: string)
    requires i <= |text| && ParseItems(text, i) == Failed(at)
    ensures xs.SynItem? && ProperItems(xs) && Completes(text, Skip(text, i), at, c, ItemsText(xs))
    decreases |text| - i, 1
  {
    hide *;
    ItemsFail(text, i, at);
    NoBlank();
    var s := Skip(text, i);
    if ParseValue(text, s).Failed? {
      var x, c0 := ValueCompletes(text, s, at);
      xs := OneSyn(x, "", EndItems);
      c := c0 + "]";
      CompletesMore(text, s, at, c0, Spelling(x), "]");
      assert "" + "]" == "]";
    } else {
      var v, e := ParseValue(text, s).value, ParseValue(text, s).end;
      var x := ValueCut(text, s, v, e);
      var w := BlankCut(text, e);
      var k := Skip(text, e);
      if at == k {
        xs := OneSyn(x, w, EndItems);
        c := "]";
        CompletesHere(text, k, "]");
        CompletesJoin(text, e, k, at, c, w, "]");
        CompletesJoin(text, s, e, at, c, Spelling(x), w + "]");
      } else {
        MarkCut(text, k);
        var w' := BlankCut(text, k + 1);
        var rest;
        rest, c := ItemsComplete(text, k + 1, at);
        var more := Rebefore(rest, w');
        xs := OneSyn(x, w, more);
        JoinCompletes(text, s, e, k, Skip(text, k + 1), at, c, Spelling(x), w, w', ItemsText(rest));
      }
    }
  }

  lemma JoinCompletes(text: string, i: nat, e: nat, k: nat, n: nat, at: nat, c: string, own: string, w: string,
                      w': string, rest: string)
    requires Cut(text, i, e, own) && Cut(text, e, k, w) && Cut(text, k, k + 1, ",")
    requires Cut(text, k + 1, n, w') && Completes(text, n, at, c, rest)
    ensures Completes(text, i, at, c, own + (w + ("," + (w' + rest))))
  {
    hide *;
    CompletesJoin(text, k + 1, n, at, c, w', rest);
    CompletesJoin(text, k, k + 1, at, c, ",", w' + rest);
    CompletesJoin(text, e, k, at, c, w, "," + (w' + rest));
    CompletesJoin(text, i, e, at, c, own, w + ("," + (w' + rest)));
  }

  lemma ObjectFails(text: string, i: nat, at: nat)
    requires i < |text| && text[i] == '{' && ParseObject(text, i) == Failed(at)
    ensures ParseMembers(text, Skip(text, i + 1)) == Failed(at)
  {
    hide ParseMembers, Skip;
  }

  lemma {:induction false} ObjectCompletes(text: string, i: nat, at: nat) returns (x: Syn, c: string)
    requires i < |text| && text[i] == '{' && ParseObject(text, i) == Failed(at)
    ensures ProperSyn(x) && Completes(text, i, at, c, Spelling(x))
    decreases |text| - i - 1, 3
  {
    hide *;
    ObjectFails(text, i, at);
    var s := Skip(text, i + 1);
    MarkCut(text, i);
    var w := BlankCut(text, i + 1);
    var xs;
    xs, c := MembersComplete(text, s, at);
    SkipTwice(text, i + 1);
    var ys := RebeforeMember(xs, w);
    x := ObjectOfSyn(ys);
    CompletesJoin(text, i + 1, s, at, c, w, MembersText(ys));
    CompletesJoin(text, i, i + 1, at, c, "{", w + MembersText(ys));
  }

  lemma ObjectOfSyn(xs: SynMembers) returns (x: Syn)
    requires xs.SynMember? && ProperMembers(xs)
    ensures ProperSyn(x) && Spelling(x) == "{" + (xs.before + MembersText(xs))
  {
    hide MembersText;
    NoBlank();
    x := SynObject(xs, "");
  }

  /** How a member fails: at its name, at the colon, or in its value. */
  lemma PairFails(text: string, i: nat, at: nat)
    requires i <= |text| && ParsePair(text, i) == Failed(at)
    ensures i <= Skip(text, i) <= |text| && !ParseString(text, Skip(text, i)).Outside?
    ensures ParseString(text, Skip(text, i)).Failed? ==> at == Skip(text, i)
    ensures ParseString(text, Skip(text, i)).Parsed? ==>
              var e := ParseString(text, Skip(text, i)).end;
              var c := Skip(text, e);
              && Skip(text, i) < e <= c <= |text|
              && (at == c
                  || (c < |text| && text[c] == ':' && Skip(text, c + 1) <= |text|
                      && ParseValue(text, Skip(text, c + 1)) == Failed(at)))
  {
    hide ParseValue, Literal, Skip;
  }

  /** One member with nothing behind its value. */
  lemma PairSyn(ps: seq<Piece>, mid: string, lead: string, v: Syn) returns (x: SynMembers)
    requires AllProper(ps) && Blank(mid) && Blank(lead) && ProperSyn(v)
    ensures x.SynMember? && ProperMembers(x) && x.before == x.after == "" && x.next.EndMembers?
    ensures PairText(x) == Quoted(ps) + (mid + (":" + (lead + Spelling(v))))
  {
    hide AllProper, ProperSyn, Quoted, Spelling;
    NoBlank();
    x := SynMember("", ps, mid, lead, v, "", EndMembers);
  }

  lemma {:induction false} PairCompletes(text: string, i: nat, at: nat) returns (x: SynMembers, c: string)
    requires i <= |text| && ParsePair(text, i) == Failed(at)
    ensures x.SynMember? && ProperMembers(x) && x.before == x.after == "" && x.next.EndMembers?
    ensures Completes(text, Skip(text, i), at, c, PairText(x))
    decreases |text| - i, 1
  {
    hide *;
    PairFails(text, i, at);
    NoBlank();
    NullIs();
    var s := Skip(text, i);
    if ParseString(text, s).Failed? {
      NoPieces();
      x := PairSyn([], "", "", SynNull);
      c := PairText(x);
      CompletesHere(text, s, c);
    } else {
      var e := ParseString(text, s).end;
      var ps := StringCut(text, s, ParseString(text, s).value, e);
      var w := BlankCut(text, e);
      var k := Skip(text, e);
      if at == k {
        x := PairSyn(ps, w, "", SynNull);
        c := ":" + ("" + "null");
        CompletesHere(text, k, c);
        CompletesJoin(text, e, k, at, c, w, c);
        CompletesJoin(text, s, e, at, c, Quoted(ps), w + c);
      } else {
        MarkCut(text, k);
        var w' := BlankCut(text, k + 1);
        var n := Skip(text, k + 1);
        var v;
        v, c := ValueCompletes(text, n, at);
        x := PairSyn(ps, w, w', v);
        CompletesJoin(text, k + 1, n, at, c, w', Spelling(v));
        CompletesJoin(text, k, k + 1, at, c, ":", w' + Spelling(v));
        CompletesJoin(text, e, k, at, c, w, ":" + (w' + Spelling(v)));
        CompletesJoin(text, s, e, at, c, Quoted(ps), w + (":" + (w' + Spelling(v))));
      }
    }
  }

  lemma NoPieces()
    ensures AllProper([])
  {}

  lemma MembersFail(text: string, i: nat, at: nat)
    requires i <= |text| && ParseMembers(text, i) == Failed(at)
    ensures !ParsePair(text, i).Outside?
    ensures ParsePair(text, i).Failed? ==> ParsePair(text, i).at == at
    ensures ParsePair(text, i).Parsed? ==>
              var e := ParsePair(text, i).end;
              var c := Skip(text, e);
              && i < e <= c <= |text|
              && (at == c || (c < |text| && text[c] == ',' && ParseMembers(text, c + 1) == Failed(at)))
  {
    hide ParsePair, Skip;
  }

  /** A member with what stands behind it. */
  lemma MemberSyn(x: SynMembers, w: string, next: SynMembers) returns (xs: SynMembers)
    requires x.SynMember? && ProperMembers(x) && Blank(w) && (next.SynMember? ==> ProperMembers(next))
    ensures xs == x.(after := w, next := next) && ProperMembers(xs)
    ensures MembersText(xs) ==
            PairText(x) + (w + if next.EndMembers? then "}" else "," + (next.before + MembersText(next)))
  {
    hide PairText, AllProper, ProperSyn, Blank;
    xs := x.(after := w, next := next);
    SamePair(x, xs);
    MembersTextIs(xs);
  }

  lemma {:induction false} MembersComplete(text: string, i: nat, at: nat) returns (xs: SynMembers, c: string)
    requires i <= |text| && ParseMembers(text, i) == Failed(at)
    ensures xs.SynMember? && ProperMembers(xs) && Completes(text, Skip(text, i), at, c, MembersText(xs))
    decreases |text| - i, 2
  {
    hide *;
    MembersFail(text, i, at);
    NoBlank();
    var s := Skip(text, i);
    if ParsePair(text, i).Failed? {
      var x, c0 := PairCompletes(text, i, at);
      xs := MemberSyn(x, "", EndMembers);
      c := c0 + "}";
      CompletesMore(text, s, at, c0, PairText(x), "}");
      assert "" + "}" == "}";
    } else {
      var v, e := ParsePair(text, i).value, ParsePair(text, i).end;
      var x := PairCut(text, i, v.0, v.1, e);
      var w := BlankCut(text, e);
      var k := Skip(text, e);
      if at == k {
        xs := MemberSyn(x, w, EndMembers);
        c := "}";
        CompletesHere(text, k, "}");
        CompletesJoin(text, e, k, at, c, w, "}");
        CompletesJoin(text, s, e, at, c, PairText(x), w + "}");
      } else {
        MarkCut(text, k);
        var w' := BlankCut(text, k + 1);
        var rest;
        rest, c := MembersComplete(text, k + 1, at);
        var more := RebeforeMember(rest, w');
        xs := MemberSyn(x, w, more);
        JoinCompletes(text, s, e, k, Skip(text, k + 1), at, c, PairText(x), w, w', MembersText(rest));
      }
    }
  }

  lemma TextFails(text: string, toTheEnd: bool, at: nat)
    requires ParseText(text, toTheEnd) == Failed(at)
    ensures Skip(text, 0) <= |text| && !ParseValue(text, Skip(text, 0)).Outside?
    ensures ParseValue(text, Skip(text, 0)).Failed? ==> ParseValue(text, Skip(text, 0)).at == at
    ensures ParseValue(text, Skip(text, 0)).Parsed? ==>
              var e := ParseValue(text, Skip(text, 0)).end;
              toTheEnd && Skip(text, 0) < e <= |text| && at == Skip(text, e) && at <= |text|
  {
    hide ParseValue, Skip;
  }

  /** What stands before the place where a text fails can still become an accepted text. */
  lemma FailureIsViable(text: string, toTheEnd: bool, at: nat) returns (c: string)
    requires ParseText(text, toTheEnd) == Failed(at)
    ensures at <= |text| && ParseText(text[..at] + c, true).Parsed?
  {
    hide *;
    TextFails(text, toTheEnd, at);
    NoBlank();
    var s := Skip(text, 0);
    var w := BlankCut(text, 0);
    if ParseValue(text, s).Failed? {
      var x;
      x, c := ValueCompletes(text, s, at);
      CompletesJoin(text, 0, s, at, c, w, Spelling(x));
      assert Spelling(x) + "" == Spelling(x);
      WholeSpelling(text, at, c, w, x, "");
    } else {
      var e := ParseValue(text, s).end;
      var x := ValueCut(text, s, ParseValue(text, s).value, e);
      var w' := BlankCut(text, e);
      c := "";
      CutJoin(text, s, e, at, Spelling(x), w');
      CutJoin(text, 0, s, at, w, Spelling(x) + w');
      CutCompletes(text, 0, at, w + (Spelling(x) + w'));
      WholeSpelling(text, at, c, w, x, w');
    }
  }

  lemma CutCompletes(text: string, i: nat, j: nat, m: string)
    requires Cut(text, i, j, m)
    ensures Completes(text, i, j, "", m)
  {
    assert text[i..j] + "" == text[i..j];
  }

  lemma WholeSpelling(text: string, at: nat, c: string, w: string, x: Syn, w': string)
    requires Blank(w) && Blank(w') && ProperSyn(x)
    requires Completes(text, 0, at, c, w + (Spelling(x) + w'))
    ensures at <= |text| && ParseText(text[..at] + c, true).Parsed?
  {
    hide ProperSyn, Mean, Spelling, ParseText, Blank;
    assert text[0..at] == text[..at];
    SpelledIsAccepted(text[..at] + c, Mean(x), w, x, w');
  }

  // ----- And nothing that follows helps ---------------------------------------------------------------------------

  /** The two texts agree in their first n characters, their ends included. */
  predicate Same(t: string, u: string, n: nat) {
    forall k | 0 <= k < n :: At(t, k) == At(u, k)
  }

  /** They agree as far as a result depends on. */
  predicate Seen<T>(t: string, u: string, r: Parse<T>) {
    match r
    case Parsed(_, end) => Same(t, u, end + 2)
    case Failed(at) => Same(t, u, at + 5)
    case Outside => false
  }

  lemma Reaches(t: string, u: string, n: nat, i: nat)
    requires NoNul(t) && Same(t, u, n) && i <= n && i <= |t|
    ensures i <= |u|
  {
    if i > 0 {
      assert At(t, i - 1) == At(u, i - 1);
    }
  }

  lemma {:induction false} SkipLocal(t: string, u: string, n: nat, i: nat)
    requires Same(t, u, n) && Skip(t, i) < n
    ensures Skip(u, i) == Skip(t, i)
    decreases |t| - i
  {
    assert At(t, i) == At(u, i);
    if i < |t| && IsSpace(t[i]) {
      SkipLocal(t, u, n, i + 1);
    }
  }

  lemma {:induction false} DigitsLocal(t: string, u: string, n: nat, i: nat, x: nat)
    requires Same(t, u, n) && ReadDigits(t, i, x).1 < n
    ensures ReadDigits(u, i, x) == ReadDigits(t, i, x)
    decreases |t| - i
  {
    assert At(t, i) == At(u, i);
    if i < |t| && IsDigit(t[i]) {
      DigitsLocal(t, u, n, i + 1, 10 * x + ValueOf(t[i]));
    }
  }

  lemma StandsToo(t: string, u: string, n: nat, i: nat, s: string)
    requires Same(t, u, n) && i + |s| <= n && NoNul(s) && s != "" && Stands(t, i, s)
    ensures Stands(u, i, s)
  {
    forall k | 0 <= k < |s|
      ensures At(u, i + k) == s[k]
    {
      StandsAt(t, i, s, k);
      assert At(t, i + k) == At(u, i + k);
    }
    assert At(u, i + (|s| - 1)) == s[|s| - 1] != NUL;
    forall k | 0 <= k < |s|
      ensures u[i + k] == s[k]
    {
      assert At(u, i + k) == s[k];
    }
    assert u[i..i + |s|] == s;
  }

  lemma StandsLocal(t: string, u: string, n: nat, i: nat, s: string)
    requires Same(t, u, n) && i + |s| <= n && NoNul(s) && s != ""
    ensures Stands(t, i, s) <==> Stands(u, i, s)
  {
    if Stands(t, i, s) {
      StandsToo(t, u, n, i, s);
    }
    if Stands(u, i, s) {
      assert Same(u, t, n);
      StandsToo(u, t, n, i, s);
    }
  }

  lemma FirstSame(t: string, u: string, n: nat, i: nat)
    requires Same(t, u, n) && i < n
    ensures At(t, i) == At(u, i)
  {}

  /** Less of it agrees, too. */
  lemma SameLess(t: string, u: string, n: nat, m: nat)
    requires Same(t, u, n) && m <= n
    ensures Same(t, u, m)
  {}

  lemma StringLocal(t: string, u: string, i: nat)
    requires NoNul(t) && i <= |t| && Seen(t, u, ParseString(t, i))
    ensures i <= |u| && ParseString(u, i) == ParseString(t, i)
  {
    var r := ParseString(t, i);
    if r.Failed? {
      hide ParseString, NoNul;
      StringFails(t, i);
      Reaches(t, u, i + 5, i);
      FirstSame(t, u, i + 5, i);
      StringFails(u, i);
    } else {
      var ps := StringCut(t, i, r.value, r.end);
      hide ParseString, NoNul, AllProper, Meaning, Quoted;
      Reaches(t, u, r.end + 2, i);
      NoNulPart(t, i, r.end);
      QuotedSome(ps);
      CutStands(t, i, r.end, Quoted(ps));
      StandsToo(t, u, r.end + 2, i, Quoted(ps));
      QuotedDenotes(ps);
      DenotesAt(u, i, ps);
    }
  }

  lemma StringFails(t: string, i: nat)
    requires i <= |t|
    ensures ParseString(t, i).Failed? <==> At(t, i) != '\"'
    ensures ParseString(t, i).Failed? ==> ParseString(t, i).at == i
  {}

  lemma NoNulPart(t: string, i: nat, j: nat)
    requires NoNul(t) && i <= j <= |t|
    ensures NoNul(t[i..j])
  {}

  lemma QuotedSome(ps: seq<Piece>)
    ensures Quoted(ps) != ""
  {}

  lemma CutStands(t: string, i: nat, j: nat, m: string)
    requires Cut(t, i, j, m)
    ensures Stands(t, i, m) && j == i + |m| && t[i..j] == m
  {}

  lemma DenotesAt(u: string, i: nat, ps: seq<Piece>)
    requires AllProper(ps) && DenotesString(Quoted(ps), Meaning(ps)) && Stands(u, i, Quoted(ps))
    ensures i <= |u| && ParseString(u, i) == Parsed(Meaning(ps), i + |Quoted(ps)|)
  {}

  lemma MagnitudeLocal(t: string, u: string, n: nat, i: nat)
    requires i <= |t| && i <= |u| && Same(t, u, n) && Magnitude(t, i).1 < n
    ensures Magnitude(u, i) == Magnitude(t, i)
  {
    hide ReadDigits, ValueOf;
    var j := if At(t, i) == '0' then i + 1 else i;
    FirstSame(t, u, n, i);
    FirstSame(t, u, n, j);
    if '1' <= At(t, j) <= '9' {
      DigitsLocal(t, u, n, j + 1, ValueOf(At(t, j)));
    }
  }

  lemma NumberLocal(t: string, u: string, i: nat)
    requires NoNul(t) && i < |t| && (At(t, i) == '-' || IsDigit(At(t, i))) && Seen(t, u, ParseNumber(t, i))
    ensures i < |u| && At(u, i) == At(t, i) && ParseNumber(u, i) == ParseNumber(t, i)
  {
    hide Magnitude, NoNul, Same;
    var n, end := ParseNumber(t, i).end + 2, ParseNumber(t, i).end;
    FirstSame(t, u, n, i);
    var k := if At(t, i) == '-' then i + 1 else i;
    Reaches(t, u, n, k);
    MagnitudeLocal(t, u, n, k);
    FirstSame(t, u, n, end);
    FirstSame(t, u, n, end + 1);
  }

  /** The first character decides, unless a word stands there. */
  lemma ValueKinds(t: string, i: nat)
    requires i <= |t| && !ParseValue(t, i).Outside?
    ensures var r := ParseValue(t, i);
            if Stands(t, i, "null") then r == Parsed(Null, i + 4)
            else if Stands(t, i, "false") then r == Parsed(Bool(false), i + 5)
            else if Stands(t, i, "true") then r == Parsed(Bool(true), i + 4)
            else if At(t, i) == '\"' then
              ParseString(t, i).Parsed? && r == Parsed(String(ParseString(t, i).value), ParseString(t, i).end)
            else if At(t, i) == '-' || IsDigit(At(t, i)) then i < |t| && r == ParseNumber(t, i)
            else if At(t, i) == '[' then i < |t| && r == ParseArray(t, i)
            else if At(t, i) == '{' then i < |t| && r == ParseObject(t, i)
            else r == Failed(i)
  {
    hide Stands, ParseNumber, ParseArray, ParseObject, Literal;
  }

  lemma IsValue(t: string, i: nat)
    requires i <= |t|
    ensures Stands(t, i, "null") ==> ParseValue(t, i) == Parsed(Null, i + 4)
    ensures Stands(t, i, "false") ==> ParseValue(t, i) == Parsed(Bool(false), i + 5)
    ensures Stands(t, i, "true") ==> ParseValue(t, i) == Parsed(Bool(true), i + 4)
    ensures !Stands(t, i, "null") && !Stands(t, i, "false") && !Stands(t, i, "true") ==>
              ParseValue(t, i) ==
              if At(t, i) == '\"' then
                match ParseString(t, i)
                case Parsed(s, end) => Parsed(String(s), end)
                case Failed(at) => Failed(at)
                case Outside => Outside
              else if At(t, i) == '-' || IsDigit(At(t, i)) then ParseNumber(t, i)
              else if At(t, i) == '[' then ParseArray(t, i)
              else if At(t, i) == '{' then ParseObject(t, i)
              else Failed(i)
  {
    hide Stands, ParseNumber, ParseArray, ParseObject, ParseString;
    WordFirst(t, i);
  }

  /** Words stand in both texts or in neither, if the texts agree for five characters or as far as a value goes. */
  lemma WordsLocal(t: string, u: string, i: nat)
    requires NoNul(t) && i <= |t| && Seen(t, u, ParseValue(t, i))
    ensures i <= |u| && At(t, i) == At(u, i)
    ensures Stands(t, i, "null") <==> Stands(u, i, "null")
    ensures Stands(t, i, "false") <==> Stands(u, i, "false")
    ensures Stands(t, i, "true") <==> Stands(u, i, "true")
  {
    hide ParseValue, Stands, NoNul, Same;
    ValueKinds(t, i);
    ValueBounds(t, i);
    var r := ParseValue(t, i);
    var n := if r.Parsed? then r.end + 2 else r.at + 5;
    Reaches(t, u, n, i);
    FirstSame(t, u, n, i);
    WordsAreWords();
    WordFirst(t, i);
    WordFirst(u, i);
    if n >= i + 5 {
      StandsLocal(t, u, n, i, "null");
      StandsLocal(t, u, n, i, "false");
      StandsLocal(t, u, n, i, "true");
    }
  }

  lemma WordsAreWords()
    ensures NoNul("null") && NoNul("false") && NoNul("true")
  {}

  lemma WordFirst(t: string, i: nat)
    ensures Stands(t, i, "null") ==> At(t, i) == 'n'
    ensures Stands(t, i, "false") ==> At(t, i) == 'f'
    ensures Stands(t, i, "true") ==> At(t, i) == 't'
  {
    hide Stands;
    if Stands(t, i, "null") {
      StandsAt(t, i, "null", 0);
    }
    if Stands(t, i, "false") {
      StandsAt(t, i, "false", 0);
    }
    if Stands(t, i, "true") {
      StandsAt(t, i, "true", 0);
    }
  }

  /** A value ends behind where it begins, and fails there or later. */
  lemma ValueBounds(t: string, i: nat)
    requires i <= |t| && !ParseValue(t, i).Outside?
    ensures var r := ParseValue(t, i);
            (r.Parsed? ==> i < r.end <= |t|) && (r.Failed? ==> i <= r.at <= |t|)
  {
    hide ParseValue;
    if ParseValue(t, i).Failed? {
      var x, c := ValueCompletes(t, i, ParseValue(t, i).at);
    }
  }

  lemma {:induction false} ValueLocal(t: string, u: string, i: nat)
    requires NoNul(t) && i <= |t| && Seen(t, u, ParseValue(t, i))
    ensures i <= |u| && ParseValue(u, i) == ParseValue(t, i)
    decreases |t| - i, 0
  {
    hide ParseValue, ParseNumber, ParseString, ParseArray, ParseObject, Stands, NoNul, Same;
    WordsLocal(t, u, i);
    IsValue(t, i);
    IsValue(u, i);
    if !Stands(t, i, "null") && !Stands(t, i, "false") && !Stands(t, i, "true") {
      if At(t, i) == '\"' {
        ValueKinds(t, i);
        StringLocal(t, u, i);
      } else if At(t, i) == '-' || IsDigit(At(t, i)) {
        NumberLocal(t, u, i);
      } else if At(t, i) == '[' {
        ArrayLocal(t, u, i);
      } else if At(t, i) == '{' {
        ObjectLocal(t, u, i);
      }
    }
  }

  /** What an array is read as, by the row of its items. */
  lemma ArrayIs(t: string, i: nat)
    requires i < |t|
    ensures var s := Skip(t, i + 1);
            && i < s <= |t|
            && ParseArray(t, i) ==
               if At(t, s) == ']' then Parsed(Array(NoItem), s + 1)
               else match ParseItems(t, s)
                    case Parsed(items, end) => Parsed(Array(items), end)
                    case Failed(at) => Failed(at)
                    case Outside => Outside
  {
    hide ParseItems, Skip;
  }

  /** How far two texts agree for a result. */
  function Reach<T>(r: Parse<T>): nat {
    match r
    case Parsed(_, end) => end + 2
    case Failed(at) => at + 5
    case Outside => 0
  }

  lemma {:induction false} ArrayLocal(t: string, u: string, i: nat)
    requires NoNul(t) && i < |t| && Seen(t, u, ParseArray(t, i))
    ensures i < |u| && ParseArray(u, i) == ParseArray(t, i)
    decreases |t| - i - 1, 3
  {
    hide ParseArray, ParseItems, NoNul, Same, Skip;
    var s, n := Skip(t, i + 1), Reach(ParseArray(t, i));
    ArrayIs(t, i);
    if At(t, s) != ']' {
      ItemsBounds(t, s);
      SkipTwice(t, i + 1);
    }
    SkipLocal(t, u, n, i + 1);
    Reaches(t, u, n, s);
    FirstSame(t, u, n, s);
    ArrayIs(u, i);
    if At(t, s) != ']' {
      ItemsLocal(t, u, s);
    }
  }

  lemma ItemsBounds(t: string, i: nat)
    requires i <= |t| && !ParseItems(t, i).Outside?
    ensures var r, s := ParseItems(t, i), Skip(t, i);
            (r.Parsed? ==> s < r.end <= |t|) && (r.Failed? ==> s <= r.at <= |t|)
  {
    hide ParseItems, ParseValue, Skip;
    var r := ParseItems(t, i);
    if r.Failed? {
      var xs, c := ItemsComplete(t, i, r.at);
    } else {
      var s, e, c := ItemsAt(t, i, r.value, r.end);
    }
  }

  /** What a row of items is read as, by its first value and the mark behind it. */
  lemma ItemsAre(t: string, i: nat)
    requires i <= |t|
    ensures var s := Skip(t, i);
            && s <= |t|
            && ParseItems(t, i) ==
               match ParseValue(t, s)
               case Failed(at) => Failed(at)
               case Outside => Outside
               case Parsed(v, e) =>
                 var c := Skip(t, e);
                 if At(t, c) == ',' then
                   match ParseItems(t, c + 1)
                   case Parsed(more, end) => Parsed(Item(v, more), end)
                   case Failed(at) => Failed(at)
                   case Outside => Outside
                 else if At(t, c) == ']' then Parsed(Item(v, NoItem), c + 1)
                 else Failed(c)
  {
    hide ParseValue, Skip;
  }

  lemma {:induction false} ItemsLocal(t: string, u: string, i: nat)
    requires NoNul(t) && i <= |t| && Seen(t, u, ParseItems(t, i))
    ensures i <= |u| && ParseItems(u, i) == ParseItems(t, i)
    decreases |t| - i, 1
  {
    hide ParseItems, ParseValue, NoNul, Same, Skip;
    var s, n := Skip(t, i), Reach(ParseItems(t, i));
    ItemsAre(t, i);
    ItemsBounds(t, i);
    Reaches(t, u, n, i);
    SkipLocal(t, u, n, i);
    ItemsAre(u, i);
    if ParseValue(t, s).Parsed? {
      var e := ParseValue(t, s).end;
      var c := Skip(t, e);
      ValueBounds(t, s);
      if At(t, c) == ',' {
        ItemsBounds(t, c + 1);
      }
      SameLess(t, u, n, e + 2);
      ValueLocal(t, u, s);
      SkipLocal(t, u, n, e);
      FirstSame(t, u, n, c);
      if At(t, c) == ',' {
        ItemsLocal(t, u, c + 1);
      }
    } else {
      ValueLocal(t, u, s);
    }
  }

  /** What an object is read as, by the row of its members. */
  lemma ObjectIs(t: string, i: nat)
    requires i < |t|
    ensures var s := Skip(t, i + 1);
            && i < s <= |t|
            && ParseObject(t, i) ==
               if At(t, s) == '}' then Parsed(Object(NoMember), s + 1)
               else match ParseMembers(t, s)
                    case Parsed(members, end) => Parsed(Object(members), end)
                    case Failed(at) => Failed(at)
                    case Outside => Outside
  {
    hide ParseMembers, Skip;
  }

  lemma {:induction false} ObjectLocal(t: string, u: string, i: nat)
    requires NoNul(t) && i < |t| && Seen(t, u, ParseObject(t, i))
    ensures i < |u| && ParseObject(u, i) == ParseObject(t, i)
    decreases |t| - i - 1, 3
  {
    hide ParseObject, ParseMembers, NoNul, Same, Skip;
    var s, n := Skip(t, i + 1), Reach(ParseObject(t, i));
    ObjectIs(t, i);
    if At(t, s) != '}' {
      MembersBounds(t, s);
      SkipTwice(t, i + 1);
    }
    SkipLocal(t, u, n, i + 1);
    Reaches(t, u, n, s);
    FirstSame(t, u, n, s);
    ObjectIs(u, i);
    if At(t, s) != '}' {
      MembersLocal(t, u, s);
    }
  }

  lemma PairBounds(t: string, i: nat)
    requires i <= |t| && !ParsePair(t, i).Outside?
    ensures var r, s := ParsePair(t, i), Skip(t, i);
            (r.Parsed? ==> s < r.end <= |t|) && (r.Failed? ==> s <= r.at <= |t|)
  {
    hide ParsePair, ParseValue, Skip;
    var r := ParsePair(t, i);
    if r.Failed? {
      var x, c := PairCompletes(t, i, r.at);
    } else {
      var x := PairCut(t, i, r.value.0, r.value.1, r.end);
      PairSome(x);
    }
  }

  lemma PairSome(x: SynMembers)
    requires x.SynMember?
    ensures PairText(x) != "" && MembersText(x) != ""
  {}

  lemma MembersBounds(t: string, i: nat)
    requires i <= |t| && !ParseMembers(t, i).Outside?
    ensures var r, s := ParseMembers(t, i), Skip(t, i);
            (r.Parsed? ==> s < r.end <= |t|) && (r.Failed? ==> s <= r.at <= |t|)
  {
    hide ParseMembers, ParsePair, Skip;
    var r := ParseMembers(t, i);
    if r.Failed? {
      var xs, c := MembersComplete(t, i, r.at);
    } else {
      var xs := MembersCut(t, i, r.value, r.end);
      PairSome(xs);
    }
  }

  /** What a member is read as, by its name, the colon and its value. */
  lemma PairIs(t: string, i: nat)
    requires i <= |t|
    ensures var s := Skip(t, i);
            && s <= |t|
            && ParsePair(t, i) ==
               match ParseString(t, s)
               case Failed(at) => Failed(at)
               case Outside => Outside
               case Parsed(name, e) =>
                 var c := Skip(t, e);
                 if At(t, c) != ':' then Failed(c)
                 else match ParseValue(t, Skip(t, c + 1))
                      case Failed(at) => Failed(at)
                      case Outside => Outside
                      case Parsed(v, end) => Parsed((name, v), end)
  {
    hide ParseValue, ParseString, Skip;
  }

  lemma {:induction false} PairLocal(t: string, u: string, i: nat)
    requires NoNul(t) && i <= |t| && Seen(t, u, ParsePair(t, i))
    ensures i <= |u| && ParsePair(u, i) == ParsePair(t, i)
    decreases |t| - i, 1
  {
    hide ParsePair, ParseValue, ParseString, NoNul, Same, Skip;
    var s, n := Skip(t, i), Reach(ParsePair(t, i));
    PairIs(t, i);
    PairBounds(t, i);
    Reaches(t, u, n, i);
    SkipLocal(t, u, n, i);
    PairIs(u, i);
    if ParseString(t, s).Parsed? {
      var e := ParseString(t, s).end;
      var c := Skip(t, e);
      StringEndsLater(t, s);
      if At(t, c) == ':' {
        ValueBounds(t, Skip(t, c + 1));
      }
      SameLess(t, u, n, e + 2);
      StringLocal(t, u, s);
      SkipLocal(t, u, n, e);
      FirstSame(t, u, n, c);
      if At(t, c) == ':' {
        SkipLocal(t, u, n, c + 1);
        ValueLocal(t, u, Skip(t, c + 1));
      }
    } else {
      StringFails(t, s);
      StringLocal(t, u, s);
    }
  }

  lemma StringEndsLater(t: string, i: nat)
    requires i <= |t| && ParseString(t, i).Parsed?
    ensures i < ParseString(t, i).end <= |t|
  {}

  /** What a row of members is read as. */
  lemma MembersAre(t: string, i: nat)
    requires i <= |t|
    ensures ParseMembers(t, i) ==
            match ParsePair(t, i)
            case Failed(at) => Failed(at)
            case Outside => Outside
            case Parsed((name, v), e) =>
              var c := Skip(t, e);
              if At(t, c) == ',' then
                match ParseMembers(t, c + 1)
                case Parsed(more, end) => Parsed(Member(name, v, more), end)
                case Failed(at) => Failed(at)
                case Outside => Outside
              else if At(t, c) == '}' then Parsed(Member(name, v, NoMember), c + 1)
              else Failed(c)
  {
    hide ParsePair, Skip;
  }

  lemma {:induction false} MembersLocal(t: string, u: string, i: nat)
    requires NoNul(t) && i <= |t| && Seen(t, u, ParseMembers(t, i))
    ensures i <= |u| && ParseMembers(u, i) == ParseMembers(t, i)
    decreases |t| - i, 2
  {
    hide ParseMembers, ParsePair, NoNul, Same, Skip;
    var n := Reach(ParseMembers(t, i));
    MembersAre(t, i);
    MembersBounds(t, i);
    Reaches(t, u, n, i);
    MembersAre(u, i);
    if ParsePair(t, i).Parsed? {
      var e := ParsePair(t, i).end;
      var c := Skip(t, e);
      PairBounds(t, i);
      if At(t, c) == ',' {
        MembersBounds(t, c + 1);
      }
      SameLess(t, u, n, e + 2);
      PairLocal(t, u, i);
      SkipLocal(t, u, n, e);
      FirstSame(t, u, n, c);
      if At(t, c) == ',' {
        MembersLocal(t, u, c + 1);
      }
    } else {
      PairLocal(t, u, i);
    }
  }

  /** A text that agrees with one that fails, up to four characters behind the place where it fails, fails there too. */
  lemma FailureIsFinal(t: string, u: string, toTheEnd: bool, at: nat)
    requires NoNul(t) && ParseText(t, toTheEnd) == Failed(at) && Same(t, u, at + 5)
    ensures ParseText(u, toTheEnd) == Failed(at)
  {
    TextFails(t, toTheEnd, at);
    var s := Skip(t, 0);
    ValueBounds(t, s);
    hide ParseValue, NoNul, Same, Skip;
    SkipLocal(t, u, at + 5, 0);
    if ParseValue(t, s).Failed? {
      ValueLocal(t, u, s);
    } else {
      var e := ParseValue(t, s).end;
      SameLess(t, u, at + 5, e + 2);
      ValueLocal(t, u, s);
      SkipLocal(t, u, at + 5, e);
      FirstSame(t, u, at + 5, at);
    }
  }

  /**
   So the place is exact: what stands before it can be completed, and no text that agrees with this one up to four
   characters behind it is accepted.
   */
  lemma ErrorIsExact(t: string, toTheEnd: bool, at: nat)
    requires NoNul(t) && ParseText(t, toTheEnd) == Failed(at)
    ensures at <= |t| && exists c :: ParseText(t[..at] + c, true).Parsed?
    ensures forall u | Same(t, u, at + 5) :: !ParseText(u, toTheEnd).Parsed?
  {
    hide ParseText, Same, NoNul;
    var c := FailureIsViable(t, toTheEnd, at);
    forall u | Same(t, u, at + 5)
      ensures !ParseText(u, toTheEnd).Parsed?
    {
      FailureIsFinal(t, u, toTheEnd, at);
    }
  }
}
