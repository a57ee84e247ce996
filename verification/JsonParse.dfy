/**
 What a text denotes: the grammar the reader accepts, as functions from a position to a value and the position after
 it. `Outside` marks the texts that the model leaves out: numbers that are not 32-bit integers and string literals
 that are cut short.
 */
module JsonParse {
  import opened Common
  import opened JsonText
  import opened JsonModel

  /** `at` is the position the error pointer is left at. */
  datatype Parse<+T> = Parsed(value: T, end: nat) | Failed(at: nat) | Outside

  // ----- String literals ------------------------------------------------------------------------------

  /** UTF-8, section 3 of RFC 3629. */
  function Utf8(uc: nat): (s: string)
    requires uc < 0x11_0000
    ensures 1 <= |s| <= 4
  {
    if uc < 0x80 then [uc as char]
    else if uc < 0x800 then [(0xC0 + uc / 0x40) as char, Tail(uc)]
    else if uc < 0x1_0000 then [(0xE0 + uc / 0x1000) as char, Tail(uc / 0x40), Tail(uc)]
    else [(0xF0 + uc / 0x4_0000) as char, Tail(uc / 0x1000), Tail(uc / 0x40), Tail(uc)]
  }

  /** A continuation byte, carrying the low six bits. */
  function Tail(uc: nat): char {
    (0x80 + uc % 0x40) as char
  }

  predicate IsHigh(unit: nat) { 0xD800 <= unit <= 0xDBFF }

  predicate IsLow(unit: nat) { 0xDC00 <= unit <= 0xDFFF }

  /** The character of a surrogate pair, section 7 of RFC 8259. */
  function Pair(high: nat, low: nat): (uc: nat)
    ensures 0x1_0000 <= uc < 0x11_0000
  {
    0x1_0000 + (high % 0x400) * 0x400 + low % 0x400
  }

  /** The character after a backslash, unless it is `u`. */
  function Unescape(c: char): char {
    if c == 'b' then BACKSPACE
    else if c == 'f' then FORM_FEED
    else if c == 'n' then '\n'
    else if c == 'r' then '\r'
    else if c == 't' then '\t'
    else c
  }

  predicate StartsUnit(text: string, i: nat) {
    At(text, i) == '\\' && At(text, i + 1) == 'u'
  }

  /**
   What the \u escape at position i gives, and where the reader goes on. A zero and a lone surrogate give nothing; a
   second escape that is no low surrogate is lost with the first.
   */
  function Unicode(text: string, i: nat): (r: Option<(string, nat)>)
    requires StartsUnit(text, i)
    ensures r.Some? ==> i + 6 <= r.value.1 <= |text| && |r.value.0| <= r.value.1 - i - 2
  {
    if !HasHex4(text, i + 2) then None
    else
      var uc := Hex4(text, i + 2);
      if IsLow(uc) || uc == 0 then Some(("", i + 6))
      else if !IsHigh(uc) then Some((Utf8(uc), i + 6))
      else if !StartsUnit(text, i + 6) then Some(("", i + 6))
      else if !HasHex4(text, i + 8) then None
      else if !IsLow(Hex4(text, i + 8)) then Some(("", i + 12))
      else Some((Utf8(Pair(uc, Hex4(text, i + 8))), i + 12))
  }

  function Before(s: string, r: Option<(string, nat)>): Option<(string, nat)> {
    if r.Some? then Some((s + r.value.0, r.value.1)) else None
  }

  /** The content of a literal from position i on, and the position after its closing quote. */
  function Literal(text: string, i: nat): (r: Option<(string, nat)>)
    requires i <= |text|
    ensures r.Some? ==> i < r.value.1 <= |text|
    decreases |text| - i
  {
    var c := At(text, i);
    if c == '\"' then Some(("", i + 1))
    else if c == NUL then None
    else if c != '\\' then Before([c], Literal(text, i + 1))
    else if At(text, i + 1) == NUL then None
    else if At(text, i + 1) != 'u' then Before([Unescape(At(text, i + 1))], Literal(text, i + 2))
    else
      var u := Unicode(text, i);
      if u.Some? then Before(u.value.0, Literal(text, u.value.1)) else None
  }

  function ParseString(text: string, i: nat): (r: Parse<string>)
    requires i <= |text|
    ensures r.Parsed? ==> i < r.end <= |text|
  {
    if At(text, i) != '\"' then Failed(i)
    else
      var r := Literal(text, i + 1);
      if r.Some? then Parsed(r.value.0, r.value.1) else Outside
  }

  // ----- Numbers --------------------------------------------------------------------------------------

  /** A fraction or an exponent follows. */
  predicate GoesOn(text: string, i: nat) {
    (At(text, i) == '.' && IsDigit(At(text, i + 1))) || At(text, i) == 'e' || At(text, i) == 'E'
  }

  function Magnitude(text: string, i: nat): (r: (nat, nat))
    requires i <= |text|
    ensures i <= r.1 <= |text|
    ensures IsDigit(At(text, i)) ==> i < r.1
  {
    var j := if At(text, i) == '0' then i + 1 else i;
    if '1' <= At(text, j) <= '9' then ReadDigits(text, j + 1, ValueOf(At(text, j))) else (0, j)
  }

  function ParseNumber(text: string, i: nat): (r: Parse<Json>)
    requires i < |text| && (At(text, i) == '-' || IsDigit(At(text, i)))
    ensures r.Parsed? ==> i < r.end <= |text|
  {
    var (n, end) := Magnitude(text, if At(text, i) == '-' then i + 1 else i);
    var value := if At(text, i) == '-' then 0 - n else n as int;
    if GoesOn(text, end) || !(INT_MIN <= value <= INT_MAX) then Outside else Parsed(Number(value), end)
  }

  // ----- Values ---------------------------------------------------------------------------------------

  function ParseValue(text: string, i: nat): (r: Parse<Json>)
    requires i <= |text|
    ensures r.Parsed? ==> i < r.end <= |text|
    decreases |text| - i, 0
  {
    if Stands(text, i, "null") then Parsed(Null, i + 4)
    else if Stands(text, i, "false") then Parsed(Bool(false), i + 5)
    else if Stands(text, i, "true") then Parsed(Bool(true), i + 4)
    else if At(text, i) == '\"' then
      match ParseString(text, i)
      case Parsed(s, end) => Parsed(String(s), end)
      case Failed(at) => Failed(at)
      case Outside => Outside
    else if At(text, i) == '-' || IsDigit(At(text, i)) then ParseNumber(text, i)
    else if At(text, i) == '[' then ParseArray(text, i)
    else if At(text, i) == '{' then ParseObject(text, i)
    else Failed(i)
  }

  function ParseArray(text: string, i: nat): (r: Parse<Json>)
    requires i < |text|
    ensures r.Parsed? ==> i < r.end <= |text|
    decreases |text| - i - 1, 3
  {
    var j := Skip(text, i + 1);
    if At(text, j) == ']' then Parsed(Array(NoItem), j + 1)
    else
      match ParseItems(text, j)
      case Parsed(items, end) => Parsed(Array(items), end)
      case Failed(at) => Failed(at)
      case Outside => Outside
  }

  function ParseObject(text: string, i: nat): (r: Parse<Json>)
    requires i < |text|
    ensures r.Parsed? ==> i < r.end <= |text|
    decreases |text| - i - 1, 3
  {
    var j := Skip(text, i + 1);
    if At(text, j) == '}' then Parsed(Object(NoMember), j + 1)
    else
      match ParseMembers(text, j)
      case Parsed(members, end) => Parsed(Object(members), end)
      case Failed(at) => Failed(at)
      case Outside => Outside
  }

  /** Values separated by commas, up to and with the closing bracket. */
  function ParseItems(text: string, i: nat): (r: Parse<Items>)
    requires i <= |text|
    ensures r.Parsed? ==> i < r.end <= |text|
    decreases |text| - i, 1
  {
    match ParseValue(text, Skip(text, i))
    case Failed(at) => Failed(at)
    case Outside => Outside
    case Parsed(v, end) =>
      var j := Skip(text, end);
      if At(text, j) == ',' then
        match ParseItems(text, j + 1)
        case Parsed(more, end') => Parsed(Item(v, more), end')
        case Failed(at) => Failed(at)
        case Outside => Outside
      else if At(text, j) == ']' then Parsed(Item(v, NoItem), j + 1)
      else Failed(j)
  }

  /** A name, a colon and a value. */
  function ParsePair(text: string, i: nat): (r: Parse<(string, Json)>)
    requires i <= |text|
    ensures r.Parsed? ==> i < r.end <= |text|
    decreases |text| - i, 1
  {
    match ParseString(text, Skip(text, i))
    case Failed(at) => Failed(at)
    case Outside => Outside
    case Parsed(name, end) =>
      var j := Skip(text, end);
      if At(text, j) != ':' then Failed(j)
      else
        match ParseValue(text, Skip(text, j + 1))
        case Failed(at) => Failed(at)
        case Outside => Outside
        case Parsed(v, end') => Parsed((name, v), end')
  }

  /** Members separated by commas, up to and with the closing brace. */
  function ParseMembers(text: string, i: nat): (r: Parse<Members>)
    requires i <= |text|
    ensures r.Parsed? ==> i < r.end <= |text|
    decreases |text| - i, 2
  {
    match ParsePair(text, i)
    case Failed(at) => Failed(at)
    case Outside => Outside
    case Parsed((name, v), end) =>
      var j := Skip(text, end);
      if At(text, j) == ',' then
        match ParseMembers(text, j + 1)
        case Parsed(more, end') => Parsed(Member(name, v, more), end')
        case Failed(at) => Failed(at)
        case Outside => Outside
      else if At(text, j) == '}' then Parsed(Member(name, v, NoMember), j + 1)
      else Failed(j)
  }

  /** A whole text; with `toTheEnd`, nothing but white space may follow the value. */
  function ParseText(text: string, toTheEnd: bool): (r: Parse<Json>)
    ensures r.Parsed? ==> r.end <= |text|
  {
    var r := ParseValue(text, Skip(text, 0));
    if r.Parsed? && toTheEnd then
      var end := Skip(text, r.end);
      if At(text, end) != NUL then Failed(end) else Parsed(r.value, end)
    else r
  }
}
