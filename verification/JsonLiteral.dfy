/**
 What a string literal means: it is a row of pieces, and decoding it gives the meaning of the row, each \u escape or
 surrogate pair as the UTF-8 bytes of its character.
 */
module JsonLiteral {
  import opened Common
  import opened JsonText
  import opened JsonParse

  /** A character for itself, one after a backslash, or a UTF-16 code unit in four hexadecimal digits. */
  datatype Piece = Plain(c: char) | Escaped(c: char) | Unit(h: string)

  predicate Proper(p: Piece) {
    match p
    case Plain(c) => c != '\"' && c != '\\' && c != NUL
    case Escaped(c) => c != 'u' && c != NUL
    case Unit(h) => |h| == 4 && HasHex4(h, 0)
  }

  predicate AllProper(ps: seq<Piece>) {
    forall i | 0 <= i < |ps| :: Proper(ps[i])
  }

  function Spell(p: Piece): string {
    match p
    case Plain(c) => [c]
    case Escaped(c) => ['\\', c]
    case Unit(h) => "\\u" + h
  }

  function SpellAll(ps: seq<Piece>): string {
    if ps == [] then [] else Spell(ps[0]) + SpellAll(ps[1..])
  }

  /** A high surrogate takes the next unit with it: a pair when that is a low one, nothing at all when not. */
  function Meaning(ps: seq<Piece>): string
    requires AllProper(ps)
  {
    if ps == [] then []
    else
      match ps[0]
      case Plain(c) => [c] + Meaning(ps[1..])
      case Escaped(c) => [Unescape(c)] + Meaning(ps[1..])
      case Unit(h) =>
        var u := Hex4(h, 0);
        if u == 0 || IsLow(u) then Meaning(ps[1..])
        else if !IsHigh(u) then Utf8(u) + Meaning(ps[1..])
        else if |ps| == 1 || !ps[1].Unit? then Meaning(ps[1..])
        else if IsLow(Hex4(ps[1].h, 0)) then Utf8(Pair(u, Hex4(ps[1].h, 0))) + Meaning(ps[2..])
        else Meaning(ps[2..])
  }

  lemma HexStands(text: string, i: nat, h: string)
    requires |h| == 4 && Stands(text, i, h)
    ensures HasHex4(text, i) <==> HasHex4(h, 0)
    ensures HasHex4(h, 0) ==> Hex4(text, i) == Hex4(h, 0)
  {
    hide Stands, IsHex, HexValue;
    StandsAt(text, i, h, 0);
    StandsAt(text, i, h, 1);
    StandsAt(text, i, h, 2);
    StandsAt(text, i, h, 3);
  }

  lemma UnitStands(text: string, i: nat, h: string)
    requires Proper(Unit(h)) && Stands(text, i, Spell(Unit(h)))
    ensures StartsUnit(text, i) && HasHex4(text, i + 2) && Hex4(text, i + 2) == Hex4(h, 0)
  {
    hide Stands;
    StandsAt(text, i, "\\u" + h, 0);
    StandsAt(text, i, "\\u" + h, 1);
    StandsSplit(text, i, "\\u", h);
    HexStands(text, i + 2, h);
  }

  /** The first piece of the rest tells whether another \u escape follows. */
  lemma NextUnit(text: string, i: nat, ps: seq<Piece>)
    requires AllProper(ps) && Stands(text, i, SpellAll(ps) + "\"")
    ensures StartsUnit(text, i) <==> ps != [] && ps[0].Unit?
    ensures ps != [] ==> |SpellAll(ps)| == |Spell(ps[0])| + |SpellAll(ps[1..])|
    ensures ps != [] ==> Stands(text, i, Spell(ps[0])) && Stands(text, i + |Spell(ps[0])|, SpellAll(ps[1..]) + "\"")
  {
    hide Stands, SpellAll, Spell, Proper, StartsUnit;
    if ps == [] {
      NoUnit(text, i, ps);
    } else {
      var own, rest := Spell(ps[0]), SpellAll(ps[1..]) + "\"";
      SpellFirst(ps);
      StandsSplit(text, i, own, rest);
      FirstUnit(text, i, ps[0]);
    }
  }

  lemma NoUnit(text: string, i: nat, ps: seq<Piece>)
    requires ps == [] && Stands(text, i, SpellAll(ps) + "\"")
    ensures !StartsUnit(text, i)
  {
    StandsAt(text, i, SpellAll(ps) + "\"", 0);
  }

  lemma SpellFirst(ps: seq<Piece>)
    requires ps != []
    ensures |SpellAll(ps)| == |Spell(ps[0])| + |SpellAll(ps[1..])|
    ensures SpellAll(ps) + "\"" == Spell(ps[0]) + (SpellAll(ps[1..]) + "\"")
  {}

  lemma FirstUnit(text: string, i: nat, p: Piece)
    requires Proper(p) && Stands(text, i, Spell(p))
    ensures StartsUnit(text, i) <==> p.Unit?
  {
    hide Stands;
    StandsAt(text, i, Spell(p), 0);
    if p.Escaped? {
      StandsAt(text, i, Spell(p), 1);
    }
    if p.Unit? {
      UnitStands(text, i, p.h);
    }
  }

  /** The \u escape that begins a row, and the `k` pieces it takes. */
  lemma UnicodeMeans(text: string, i: nat, ps: seq<Piece>) returns (s: string, k: nat)
    requires AllProper(ps) && ps != [] && ps[0].Unit? && Stands(text, i, SpellAll(ps) + "\"")
    ensures 1 <= k <= |ps| && Meaning(ps) == s + Meaning(ps[k..]) && |SpellAll(ps)| == 6 * k + |SpellAll(ps[k..])|
    ensures StartsUnit(text, i) && Unicode(text, i) == Some((s, i + 6 * k))
    ensures Stands(text, i + 6 * k, SpellAll(ps[k..]) + "\"") && i + 6 * k <= |text|
    ensures Literal(text, i) == Before(s, Literal(text, i + 6 * k))
  {
    hide Stands, HasHex4, Hex4, Utf8;
    NextUnit(text, i, ps);
    UnitStands(text, i, ps[0].h);
    StandsAt(text, i, Spell(ps[0]), 1);
    NextUnit(text, i + 6, ps[1..]);
    s, k := "", 1;
    var u := Hex4(ps[0].h, 0);
    if u == 0 || IsLow(u) {
    } else if !IsHigh(u) {
      s := Utf8(u);
    } else if |ps| > 1 && ps[1].Unit? {
      UnitStands(text, i + 6, ps[1].h);
      assert ps[1..][1..] == ps[2..];
      k := 2;
      s := if IsLow(Hex4(ps[1].h, 0)) then Utf8(Pair(u, Hex4(ps[1].h, 0))) else "";
    }
    assert "" + Meaning(ps[k..]) == Meaning(ps[k..]);
  }

  /**
   Decoding a well-formed literal gives the concatenated meanings of its pieces, and stops after its closing quote.
   */
  lemma {:induction false} DecodesMeaning(text: string, i: nat, ps: seq<Piece>)
    requires AllProper(ps) && Stands(text, i, SpellAll(ps) + "\"")
    ensures i <= |text| && Literal(text, i) == Some((Meaning(ps), i + |SpellAll(ps)| + 1))
    decreases |ps|
  {
    hide Literal, SpellAll, Meaning, At, Stands;
    if ps == [] {
      DecodesNothing(text, i);
    } else if ps[0].Unit? {
      var s, k := UnicodeMeans(text, i, ps);
      DecodesMeaning(text, i + 6 * k, ps[k..]);
    } else {
      var s := ShortMeans(text, i, ps);
      DecodesMeaning(text, i + |Spell(ps[0])|, ps[1..]);
    }
  }

  lemma DecodesNothing(text: string, i: nat)
    requires Stands(text, i, SpellAll([]) + "\"")
    ensures i <= |text| && Literal(text, i) == Some((Meaning([]), i + |SpellAll([])| + 1))
  {
    assert SpellAll([]) + "\"" == "\"";
    StandsAt(text, i, "\"", 0);
  }

  /** A row that begins with a character, escaped or not. */
  lemma ShortMeans(text: string, i: nat, ps: seq<Piece>) returns (s: string)
    requires AllProper(ps) && ps != [] && !ps[0].Unit? && Stands(text, i, SpellAll(ps) + "\"")
    ensures Meaning(ps) == s + Meaning(ps[1..]) && |SpellAll(ps)| == |Spell(ps[0])| + |SpellAll(ps[1..])|
    ensures Stands(text, i + |Spell(ps[0])|, SpellAll(ps[1..]) + "\"") && i + |Spell(ps[0])| <= |text|
    ensures Literal(text, i) == Before(s, Literal(text, i + |Spell(ps[0])|))
  {
    hide Stands, Unicode, SpellAll, Utf8, Hex4, HasHex4;
    NextUnit(text, i, ps);
    var own := Spell(ps[0]);
    StandsAt(text, i, own, 0);
    StandsAt(text, i, own, |own| - 1);
    s := if ps[0].Plain? then [ps[0].c] else [Unescape(ps[0].c)];
  }

  /** And whatever decodes is such a row of pieces. */
  lemma {:induction false} DecodedIsSpelled(text: string, i: nat) returns (ps: seq<Piece>)
    requires i <= |text| && Literal(text, i).Some?
    ensures AllProper(ps) && Stands(text, i, SpellAll(ps) + "\"")
    decreases |text| - i
  {
    hide Hex4, Utf8, HexValue, IsHex;
    var c := At(text, i);
    if c == '\"' {
      ps := [];
      assert text[i..i + 1] == "\"";
    } else if c != '\\' {
      ps := DecodedIsSpelled(text, i + 1);
      ps := PieceBefore(text, i, Plain(c), ps);
    } else if At(text, i + 1) != 'u' {
      ps := DecodedIsSpelled(text, i + 2);
      assert text[i..i + 2] == ['\\', At(text, i + 1)];
      ps := PieceBefore(text, i, Escaped(At(text, i + 1)), ps);
    } else {
      var end := Unicode(text, i).value.1;
      ps := DecodedIsSpelled(text, end);
      if end == i + 12 {
        ps := UnitBefore(text, i + 6, ps);
      }
      ps := UnitBefore(text, i, ps);
    }
  }

  lemma PieceBefore(text: string, i: nat, p: Piece, rest: seq<Piece>) returns (ps: seq<Piece>)
    requires Proper(p) && AllProper(rest) && Stands(text, i, Spell(p))
    requires Stands(text, i + |Spell(p)|, SpellAll(rest) + "\"")
    ensures AllProper(ps) && Stands(text, i, SpellAll(ps) + "\"")
  {
    hide *;
    ps := [p] + rest;
    assert ps[0] == p && ps[1..] == rest;
    ProperCons(p, rest);
    SpellFirst(ps);
    StandsJoin(text, i, Spell(p), SpellAll(rest) + "\"");
  }

  lemma ProperCons(p: Piece, rest: seq<Piece>)
    requires Proper(p) && AllProper(rest)
    ensures AllProper([p] + rest)
  {
    hide Proper;
  }

  lemma UnitBefore(text: string, i: nat, rest: seq<Piece>) returns (ps: seq<Piece>)
    requires AllProper(rest) && StartsUnit(text, i) && HasHex4(text, i + 2) && i + 6 <= |text|
    requires Stands(text, i + 6, SpellAll(rest) + "\"")
    ensures AllProper(ps) && Stands(text, i, SpellAll(ps) + "\"")
  {
    var h := text[i + 2..i + 6];
    assert Stands(text, i + 2, h);
    HexStands(text, i + 2, h);
    assert text[i..i + 6] == "\\u" + h;
    ps := PieceBefore(text, i, Unit(h), rest);
  }

  // ----- UTF-8 --------------------------------------------------------------------------------------------

  /** The character that one UTF-8 sequence stands for. */
  function FromUtf8(s: string): nat
    requires 1 <= |s| <= 4
  {
    if |s| == 1 then s[0] as int
    else if |s| == 2 then (s[0] as int % 0x20) * 0x40 + s[1] as int % 0x40
    else if |s| == 3 then (s[0] as int % 0x10) * 0x1000 + (s[1] as int % 0x40) * 0x40 + s[2] as int % 0x40
    else (s[0] as int % 8) * 0x4_0000 + (s[1] as int % 0x40) * 0x1000 + (s[2] as int % 0x40) * 0x40 + s[3] as int % 0x40
  }

  /** The bytes written for a character are a lead byte of their number and continuation bytes, and give it back. */
  lemma Utf8RoundTrip(uc: nat)
    requires uc < 0x11_0000
    ensures var s := Utf8(uc);
            && FromUtf8(s) == uc
            && |s| == (if uc < 0x80 then 1 else if uc < 0x800 then 2 else if uc < 0x1_0000 then 3 else 4)
            && (forall k | 1 <= k < |s| :: 0x80 <= s[k] as int < 0xC0)
            && (|s| == 1 ==> s[0] as int < 0x80) && (|s| == 2 ==> 0xC2 <= s[0] as int < 0xE0)
            && (|s| == 3 ==> 0xE0 <= s[0] as int < 0xF0) && (|s| == 4 ==> 0xF0 <= s[0] as int < 0xF5)
  {
    hide Tail;
    SixBits(uc);
    SixBits(uc / 0x40);
    SixBits(uc / 0x1000);
    TailBits(uc);
    TailBits(uc / 0x40);
    TailBits(uc / 0x1000);
    LeadBits(uc);
  }

  lemma TailBits(n: nat)
    ensures 0x80 <= Tail(n) as int < 0xC0 && Tail(n) as int % 0x40 == n % 0x40
  {}

  lemma LeadBits(uc: nat)
    ensures uc < 0x800 ==> (0xC0 + uc / 0x40) % 0x20 == uc / 0x40
    ensures uc < 0x1_0000 ==> (0xE0 + uc / 0x1000) % 0x10 == uc / 0x1000
    ensures uc < 0x11_0000 ==> (0xF0 + uc / 0x4_0000) % 8 == uc / 0x4_0000
  {}

  lemma SixBits(n: nat)
    ensures n == (n / 0x40) * 0x40 + n % 0x40
    ensures n / 0x40 / 0x40 == n / 0x1000 && n / 0x1000 / 0x40 == n / 0x4_0000
  {}
}
