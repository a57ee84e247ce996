/**
 C strings as sequences of one-byte characters: what the JSON reader sees at a position, white space, and the two
 notations for numbers that JSON text uses.
 */
module JsonText {

  const NUL := '\0'
  const BACKSPACE := 8 as char
  const FORM_FEED := 12 as char

  /** The text without its terminator: bytes, none of them zero. */
  predicate CString(s: string) {
    forall i | 0 <= i < |s| :: 0 < s[i] as int < 256
  }

  /** No terminator inside. */
  predicate NoNul(s: string) {
    forall i | 0 <= i < |s| :: s[i] != NUL
  }

  lemma NoNulJoin(a: string, b: string)
    ensures NoNul(a + b) <==> NoNul(a) && NoNul(b)
  {
    if NoNul(a + b) {
      forall i | 0 <= i < |a|
        ensures a[i] != NUL
      {
        assert (a + b)[i] == a[i];
      }
      forall i | 0 <= i < |b|
        ensures b[i] != NUL
      {
        assert (a + b)[|a| + i] == b[i];
      }
    }
  }

  /** What a pointer to position i sees; the terminator ends the text. */
  function At(text: string, i: nat): char {
    if i < |text| then text[i] else NUL
  }

  /** `s` stands in the text at position i. */
  predicate Stands(text: string, i: nat, s: string) {
    i + |s| <= |text| && text[i..i + |s|] == s
  }

  lemma StandsSplit(text: string, i: nat, a: string, b: string)
    requires Stands(text, i, a + b)
    ensures Stands(text, i, a) && Stands(text, i + |a|, b)
  {
    var all := text[i..i + |a + b|];
    assert text[i..i + |a|] == all[..|a|] == a;
    assert text[i + |a|..i + |a| + |b|] == all[|a|..] == b;
  }

  lemma StandsJoin(text: string, i: nat, a: string, b: string)
    requires Stands(text, i, a) && Stands(text, i + |a|, b)
    ensures Stands(text, i, a + b)
  {
    assert text[i..i + |a + b|] == text[i..i + |a|] + text[i + |a|..i + |a| + |b|];
  }

  lemma StandsAt(text: string, i: nat, s: string, k: nat)
    requires Stands(text, i, s) && k < |s|
    ensures i + |s| <= |text| && At(text, i + k) == s[k]
  {
    assert text[i..i + |s|][k] == text[i + k];
  }

  predicate IsDigit(c: char) { '0' <= c <= '9' }

  predicate IsSpace(c: char) { c != NUL && c as int <= 32 }

  predicate Spaces(s: string) {
    forall i | 0 <= i < |s| :: IsSpace(s[i])
  }

  /** The first position from i on that is not white space. */
  function Skip(text: string, i: nat): (j: nat)
    ensures i <= j && (i <= |text| ==> j <= |text|) && !IsSpace(At(text, j))
    ensures forall k | i <= k < j :: IsSpace(At(text, k))
    decreases |text| - i
  {
    if i < |text| && IsSpace(text[i]) then Skip(text, i + 1) else i
  }

  function DigitOf(n: nat): (c: char)
    requires n < 10
    ensures IsDigit(c) && c as int - '0' as int == n
  {
    ('0' as int + n) as char
  }

  function ValueOf(c: char): nat
    requires IsDigit(c)
  {
    c as int - '0' as int
  }

  /** Decimal digits of n, without leading zeros. */
  function Decimal(n: nat): (s: string)
    ensures s != [] && (forall i | 0 <= i < |s| :: IsDigit(s[i])) && (n > 0 ==> s[0] != '0') && (n == 0 ==> s == "0")
  {
    if n < 10 then [DigitOf(n)] else Decimal(n / 10) + [DigitOf(n % 10)]
  }

  /** The value of a run of digits, read from the left onto `n`. */
  function ReadDigits(text: string, i: nat, n: nat): (r: (nat, nat))
    ensures i <= r.1 && (i <= |text| ==> r.1 <= |text|) && !IsDigit(At(text, r.1))
    decreases |text| - i
  {
    if i < |text| && IsDigit(text[i]) then ReadDigits(text, i + 1, 10 * n + ValueOf(text[i])) else (n, i)
  }

  predicate IsHex(c: char) { IsDigit(c) || 'A' <= c <= 'F' || 'a' <= c <= 'f' }

  function HexValue(c: char): (n: nat)
    requires IsHex(c)
    ensures n < 16
  {
    if IsDigit(c) then c as int - '0' as int
    else if 'A' <= c <= 'F' then 10 + c as int - 'A' as int
    else 10 + c as int - 'a' as int
  }

  /** A digit of `%04x`. */
  function HexDigit(n: nat): (c: char)
    requires n < 16
    ensures IsHex(c) && HexValue(c) == n
  {
    if n < 10 then ('0' as int + n) as char else ('a' as int + n - 10) as char
  }

  predicate HasHex4(text: string, i: nat) {
    IsHex(At(text, i)) && IsHex(At(text, i + 1)) && IsHex(At(text, i + 2)) && IsHex(At(text, i + 3))
  }

  function Hex4(text: string, i: nat): (n: nat)
    requires HasHex4(text, i)
    ensures n < 0x1_0000
  {
    0x1000 * HexValue(At(text, i)) + 0x100 * HexValue(At(text, i + 1)) + 0x10 * HexValue(At(text, i + 2))
        + HexValue(At(text, i + 3))
  }
}
