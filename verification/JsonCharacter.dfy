/**
 The characters of a literal by their code points: hexadecimal digits in either case, UTF-16 code units, the letters
 after a backslash, and the UTF-8 bytes that any escaped character is read as. All of it is given here by tables and
 arithmetic of its own, not by the functions of the reader.
 */
module JsonCharacter {
  import opened JsonText
  import opened JsonModel
  import opened JsonParse
  import opened JsonLiteral
  import opened JsonReader

  // ----- Hexadecimal digits -------------------------------------------------------------------------------------

  const LOWER: string := "0123456789abcdef"
  const UPPER: string := "0123456789ABCDEF"

  /** The value of a digit is its place in the table, in either case; the digits printed are the lower-case ones. */
  lemma HexTable(n: nat)
    requires n < 16
    ensures IsHex(LOWER[n]) && HexValue(LOWER[n]) == n
    ensures IsHex(UPPER[n]) && HexValue(UPPER[n]) == n
    ensures HexDigit(n) == LOWER[n]
  {}

  lemma HexOnly(c: char)
    requires IsHex(c)
    ensures c == LOWER[HexValue(c)] || c == UPPER[HexValue(c)]
  {}

  /** The character is digit n, in either case. */
  predicate IsDigitOf(c: char, n: nat) {
    n < 16 && (c == LOWER[n] || c == UPPER[n])
  }

  lemma DigitHasValue(c: char, n: nat)
    requires IsDigitOf(c, n)
    ensures IsHex(c) && HexValue(c) == n
  {
    hide IsHex, HexValue;
    HexTable(n);
  }

  /** Four digits that spell a number of 16 bits, each in either case. */
  predicate Spelled(h: string, unit: nat) {
    && |h| == 4 && unit < 0x1_0000
    && IsDigitOf(h[0], unit / 0x1000) && IsDigitOf(h[1], unit / 0x100 % 0x10)
    && IsDigitOf(h[2], unit / 0x10 % 0x10) && IsDigitOf(h[3], unit % 0x10)
  }

  /** Four characters are read as a number exactly when they spell it. */
  lemma SpelledExactly(h: string, unit: nat)
    requires |h| == 4
    ensures Spelled(h, unit) <==> HasHex4(h, 0) && Hex4(h, 0) == unit
  {
    hide IsHex, HexValue, IsDigitOf;
    if Spelled(h, unit) {
      DigitHasValue(h[0], unit / 0x1000);
      DigitHasValue(h[1], unit / 0x100 % 0x10);
      DigitHasValue(h[2], unit / 0x10 % 0x10);
      DigitHasValue(h[3], unit % 0x10);
      DigitsOf(unit);
    } else if HasHex4(h, 0) && Hex4(h, 0) == unit {
      DigitsAre(HexValue(h[0]), HexValue(h[1]), HexValue(h[2]), HexValue(h[3]));
      DigitIs(h[0]);
      DigitIs(h[1]);
      DigitIs(h[2]);
      DigitIs(h[3]);
    }
  }

  lemma DigitIs(c: char)
    requires IsHex(c)
    ensures IsDigitOf(c, HexValue(c))
  {
    hide IsHex, HexValue;
    HexOnly(c);
  }

  lemma DigitsOf(n: nat)
    ensures n == 0x1000 * (n / 0x1000) + 0x100 * (n / 0x100 % 0x10) + 0x10 * (n / 0x10 % 0x10) + n % 0x10
  {
    Sixteenths(n);
    Sixteenths(n / 0x10);
    Sixteenths(n / 0x100);
  }

  lemma Sixteenths(n: nat)
    ensures n == 0x10 * (n / 0x10) + n % 0x10
    ensures n / 0x10 / 0x10 == n / 0x100 && n / 0x100 / 0x10 == n / 0x1000
  {}

  lemma Append(n: nat, d: nat)
    requires d < 0x10
    ensures (0x10 * n + d) / 0x10 == n && (0x10 * n + d) % 0x10 == d
  {}

  lemma DigitsAre(a: nat, b: nat, c: nat, d: nat)
    requires a < 16 && b < 16 && c < 16 && d < 16
    ensures var n := 0x1000 * a + 0x100 * b + 0x10 * c + d;
            n / 0x1000 == a && n / 0x100 % 0x10 == b && n / 0x10 % 0x10 == c && n % 0x10 == d
  {
    var ab, abc := 0x10 * a + b, 0x100 * a + 0x10 * b + c;
    Append(a, b);
    Append(ab, c);
    Append(abc, d);
    Sixteenths(0x10 * abc + d);
  }

  // ----- UTF-16 -------------------------------------------------------------------------------------------------

  /** A character of Unicode: a code point that is no surrogate. */
  predicate IsScalar(uc: nat) {
    uc < 0xD800 || 0xE000 <= uc < 0x11_0000
  }

  /** Section 2.1 of RFC 2781. */
  function Utf16(uc: nat): (units: seq<nat>)
    requires IsScalar(uc)
  {
    if uc < 0x1_0000 then [uc] else [0xD800 + (uc - 0x1_0000) / 0x400, 0xDC00 + (uc - 0x1_0000) % 0x400]
  }

  /** A row begins with the code units of a character, as \u escapes in digits of either case. */
  predicate BeginsWith(ps: seq<Piece>, uc: nat)
    requires IsScalar(uc)
  {
    var units := Utf16(uc);
    |units| <= |ps| && forall k | 0 <= k < |units| :: ps[k].Unit? && Spelled(ps[k].h, units[k])
  }

  lemma PairIs(uc: nat)
    requires 0x1_0000 <= uc < 0x11_0000
    ensures var high, low := 0xD800 + (uc - 0x1_0000) / 0x400, 0xDC00 + (uc - 0x1_0000) % 0x400;
            IsHigh(high) && IsLow(low) && !IsHigh(low) && !IsLow(high) && high != 0 && Pair(high, low) == uc
  {
    var n := uc - 0x1_0000;
    assert 0xDC00 % 0x400 == 0 && 0xD800 % 0x400 == 0;
    assert (0xD800 + n / 0x400) % 0x400 == n / 0x400;
    assert (0xDC00 + n % 0x400) % 0x400 == n % 0x400;
  }

  /** Any character but the first, escaped, stands for its UTF-8 bytes. */
  lemma CharacterMeans(ps: seq<Piece>, uc: nat)
    requires AllProper(ps) && IsScalar(uc) && uc != 0 && BeginsWith(ps, uc)
    ensures Meaning(ps) == Utf8(uc) + Meaning(ps[|Utf16(uc)|..])
  {
    hide Spelled, Hex4, Utf8, HasHex4;
    SpelledExactly(ps[0].h, Utf16(uc)[0]);
    if uc >= 0x1_0000 {
      SpelledExactly(ps[1].h, Utf16(uc)[1]);
      PairIs(uc);
    }
  }

  /** What other units stand for: a zero and a low surrogate nothing, and a high one takes along a unit after it. */
  lemma LostUnits(ps: seq<Piece>, unit: nat)
    requires AllProper(ps) && ps != [] && ps[0].Unit? && Spelled(ps[0].h, unit)
    requires unit == 0 || 0xD800 <= unit < 0xE000
    ensures unit == 0 || unit >= 0xDC00 || |ps| == 1 || !ps[1].Unit? ==> Meaning(ps) == Meaning(ps[1..])
    ensures 0xD800 <= unit < 0xDC00 && |ps| > 1 && ps[1].Unit? ==>
              forall low | Spelled(ps[1].h, low) && (low < 0xDC00 || low >= 0xE000) :: Meaning(ps) == Meaning(ps[2..])
  {
    hide Spelled, Hex4, Utf8, HasHex4;
    SpelledExactly(ps[0].h, unit);
    forall low | |ps| > 1 && ps[1].Unit? && Spelled(ps[1].h, low) && (low < 0xDC00 || low >= 0xE000)
      ensures 0xD800 <= unit < 0xDC00 ==> Meaning(ps) == Meaning(ps[2..])
    {
      SpelledExactly(ps[1].h, low);
    }
  }

  // ----- The letters ----------------------------------------------------------------------------------------------

  const LETTERS: string := "bfnrt"
  const CODES: seq<nat> := [8, 12, 10, 13, 9]

  /** The five letters stand for control characters, any other character after a backslash for itself. */
  lemma LetterTable(c: char)
    ensures forall k | 0 <= k < 5 :: Unescape(LETTERS[k]) as int == CODES[k]
    ensures c !in LETTERS ==> Unescape(c) == c
  {}

  /**
   What is printed for a character: a backslash and a letter, a quote or a backslash; the code in six characters for
   the other control characters; and otherwise the character itself.
   */
  lemma EscapeTable(c: char)
    ensures forall k | 0 <= k < 5 :: EscapeChar(CODES[k] as char) == ['\\', LETTERS[k]]
    ensures c == '\"' || c == '\\' ==> EscapeChar(c) == ['\\', c]
    ensures c as int < 32 && c as int !in CODES ==>
              EscapeChar(c) == "\\u00" + [LOWER[c as int / 16], LOWER[c as int % 16]]
    ensures c as int >= 32 && c != '\"' && c != '\\' ==> EscapeChar(c) == [c]
  {
    if c as int < 32 {
      HexTable(c as int / 16);
      HexTable(c as int % 16);
    }
  }

  // ----- Whole literals -------------------------------------------------------------------------------------------

  predicate AllScalar(ucs: seq<nat>) {
    forall k | 0 <= k < |ucs| :: IsScalar(ucs[k]) && ucs[k] != 0
  }

  /** The row is these characters, each escaped. */
  predicate Escapes(ps: seq<Piece>, ucs: seq<nat>)
    requires AllScalar(ucs)
    decreases |ucs|
  {
    if ucs == [] then ps == []
    else BeginsWith(ps, ucs[0]) && Escapes(ps[|Utf16(ucs[0])|..], ucs[1..])
  }

  function Utf8All(ucs: seq<nat>): string
    requires AllScalar(ucs)
    decreases |ucs|
  {
    if ucs == [] then "" else Utf8(ucs[0]) + Utf8All(ucs[1..])
  }

  lemma {:induction false} EscapesMean(ps: seq<Piece>, ucs: seq<nat>)
    requires AllProper(ps) && AllScalar(ucs) && Escapes(ps, ucs)
    ensures Meaning(ps) == Utf8All(ucs)
    decreases |ucs|
  {
    if ucs != [] {
      hide Meaning, Utf8, BeginsWith, Proper;
      CharacterMeans(ps, ucs[0]);
      EscapesMean(ps[|Utf16(ucs[0])|..], ucs[1..]);
    }
  }

  /** A literal that escapes every character of a text, in digits of either case, is read as the text in UTF-8. */
  method ReadEscapes(text: string, start: nat, ghost ps: seq<Piece>, ghost ucs: seq<nat>) returns (r: Parse<string>)
    requires |text| < INT_MAX && AllProper(ps) && AllScalar(ucs) && Escapes(ps, ucs)
    requires Stands(text, start, "\"" + (SpellAll(ps) + "\""))
    ensures r == Parsed(Utf8All(ucs), start + |SpellAll(ps)| + 2)
  {
    hide Meaning, Escapes, AllProper, SpellAll, Literal, Stands;
    StandsSplit(text, start, "\"", SpellAll(ps) + "\"");
    StandsAt(text, start, "\"", 0);
    DecodesMeaning(text, start + 1, ps);
    EscapesMean(ps, ucs);
    r := ReadString(text, start);
  }
}
