/**
 The reader itself: cursors moving over the text, a buffer for the string read, children added one by one.
 Each method is proved to return what the grammar says, position and error position included.
 */
module JsonReader {
  import opened Common
  import opened JsonText
  import opened JsonModel
  import opened JsonParse
  import JsonRoundTrip

  method SkipSpace(text: string, start: nat) returns (i: nat)
    ensures i == Skip(text, start)
  {
    i := start;
    while At(text, i) != NUL && At(text, i) as int <= 32
      invariant Skip(text, i) == Skip(text, start)
      decreases |text| - i
    {
      i := i + 1;
    }
  }

  // ----- Numbers --------------------------------------------------------------------------------------

  method ReadNumber(text: string, start: nat) returns (r: Parse<Json>)
    requires start < |text| && (At(text, start) == '-' || IsDigit(At(text, start)))
    requires !ParseNumber(text, start).Outside?
    ensures r == ParseNumber(text, start)
  {
    var n, sign, i := 0, 1, start;
    if At(text, i) == '-' {
      sign := -1;
      i := i + 1;
    }
    if At(text, i) == '0' {
      i := i + 1;
    }
    if '1' <= At(text, i) <= '9' {
      ghost var from := i;
      n := 10 * n + ValueOf(At(text, i));
      i := i + 1;
      while IsDigit(At(text, i))
        invariant 0 <= n && i <= |text|
        invariant ReadDigits(text, i, n) == ReadDigits(text, from + 1, ValueOf(At(text, from)))
        decreases |text| - i
      {
        n := 10 * n + ValueOf(At(text, i));
        i := i + 1;
      }
    }
    r := Parsed(Number(sign * n), i);
  }

  // ----- String literals --------------------------------------------------------------------------------

  method ReadHex4(text: string, i: nat) returns (h: nat)
    ensures h == if HasHex4(text, i) then Hex4(text, i) else 0
  {
    if !IsHex(At(text, i)) {
      return 0;
    }
    h := HexValue(At(text, i));
    h := 0x10 * h;
    if !IsHex(At(text, i + 1)) {
      return 0;
    }
    h := h + HexValue(At(text, i + 1));
    h := 0x10 * h;
    if !IsHex(At(text, i + 2)) {
      return 0;
    }
    h := h + HexValue(At(text, i + 2));
    h := 0x10 * h;
    if !IsHex(At(text, i + 3)) {
      return 0;
    }
    h := h + HexValue(At(text, i + 3));
  }

  /** What the first pass counts: one for each character, an escaped pair being one. */
  function Units(text: string, i: nat): (n: nat)
    ensures n <= if i <= |text| then |text| - i else 0
    decreases |text| - i
  {
    if i >= |text| || text[i] == '\"' || text[i] == NUL then 0
    else 1 + Units(text, if text[i] == '\\' then i + 2 else i + 1)
  }

  /** The first pass: the length to allocate for a literal. */
  method CountUnits(text: string, start: nat) returns (len: CInt)
    requires Units(text, start) <= INT_MAX
    ensures len == Units(text, start)
  {
    len := 0;
    var i := start;
    while At(text, i) != '\"' && At(text, i) != NUL
      invariant len + Units(text, i) == Units(text, start)
      decreases |text| - i
    {
      len := len + 1;
      i := if At(text, i) == '\\' then i + 2 else i + 1;
    }
  }

  lemma HexUnits(text: string, i: nat)
    requires HasHex4(text, i)
    ensures Units(text, i) == 4 + Units(text, i + 4)
  {
    assert Units(text, i) == 1 + Units(text, i + 1);
    assert Units(text, i + 1) == 1 + Units(text, i + 2);
    assert Units(text, i + 2) == 1 + Units(text, i + 3);
    assert Units(text, i + 3) == 1 + Units(text, i + 4);
  }

  /** No escape gives more bytes than the first pass counts for it. */
  lemma UnicodeFits(text: string, i: nat)
    requires StartsUnit(text, i) && Unicode(text, i).Some?
    ensures var u := Unicode(text, i).value;
            |u.0| + Units(text, u.1) <= Units(text, i)
  {
    assert Units(text, i) == 1 + Units(text, i + 2);
    HexUnits(text, i + 2);
    if Unicode(text, i).value.1 == i + 12 {
      assert Units(text, i + 6) == 1 + Units(text, i + 8);
      HexUnits(text, i + 8);
    }
  }

  /** `(b | 0x80) & 0xBF` keeps six bits of b and sets the top one. */
  lemma TailByMask(b: bv8)
    ensures ((b | 0x80) & 0xBF) as nat == 0x80 + (b as nat) % 0x40
  {}

  /** `b | firstByteMark[len]` adds the mark when only the bits below it are left. */
  lemma MarkByOr(b: bv8)
    ensures b < 0x20 ==> (b | 0xC0) as nat == b as nat + 0xC0
    ensures b < 0x10 ==> (b | 0xE0) as nat == b as nat + 0xE0
    ensures b < 0x08 ==> (b | 0xF0) as nat == b as nat + 0xF0
  {}

  /** The low byte of a word. */
  function LowByte(uc: nat): bv8 {
    (uc % 0x100) as bv8
  }

  lemma NextByte(b: bv8)
    requires b != 0xFF
    ensures (b + 1) as nat == b as nat + 1
  {}

  lemma ByteAgain(b: bv8)
    ensures (b as nat) as bv8 == b
  {}

  lemma {:induction false} ByteFor(n: nat) returns (b: bv8)
    requires n < 0x100
    ensures b as nat == n
  {
    b := 0;
    if n > 0 {
      b := ByteFor(n - 1);
      NextByte(b);
      b := b + 1;
    }
  }

  /** A number below 256 survives the conversion. */
  lemma ByteBits(n: nat)
    requires n < 0x100
    ensures (n as bv8) as nat == n
  {
    var b := ByteFor(n);
    ByteAgain(b);
  }

  lemma LowByteIs(uc: nat)
    ensures LowByte(uc) as nat == uc % 0x100
  {
    var low := uc % 0x100;
    ByteBits(low);
    assert LowByte(uc) == low as bv8;
    hide LowByte;
  }

  lemma SixOfEight(uc: nat)
    ensures uc % 0x100 % 0x40 == uc % 0x40
  {}

  lemma TailByteIs(uc: nat)
    ensures ((LowByte(uc) | 0x80) & 0xBF) as nat == 0x80 + uc % 0x40
  {
    TailByMask(LowByte(uc));
    LowByteIs(uc);
    SixOfEight(uc);
    hide LowByte;
  }

  /** The byte that is stored for the low six bits. */
  function TailByte(uc: nat): char {
    TailByteIs(uc);
    ((LowByte(uc) | 0x80) & 0xBF) as nat as char
  }

  lemma TailByteIsTail(uc: nat)
    ensures TailByte(uc) == Tail(uc)
  {
    hide LowByte;
    TailByteIs(uc);
  }

  lemma SmallBits(b: bv8)
    ensures b as nat < 0x20 ==> b < 0x20
    ensures b as nat < 0x10 ==> b < 0x10
    ensures b as nat < 0x08 ==> b < 0x08
  {}

  /** Below a power of two in one reading is below it in the other. */
  lemma LowBits(uc: nat)
    requires uc < 0x80
    ensures (uc as bv8) as nat == uc
    ensures uc < 0x20 ==> uc as bv8 < 0x20
    ensures uc < 0x10 ==> uc as bv8 < 0x10
    ensures uc < 0x08 ==> uc as bv8 < 0x08
  {
    ByteBits(uc);
    SmallBits(uc as bv8);
  }

  /** `b | mark`, for a mark of the given length. */
  function Marked(b: bv8, len: nat): bv8 {
    if len == 1 then b else if len == 2 then b | 0xC0 else if len == 3 then b | 0xE0 else b | 0xF0
  }

  lemma MarkedIs(uc: nat, len: nat)
    requires uc < if len == 1 then 0x80 else if len == 2 then 0x20 else if len == 3 then 0x10 else 0x08
    ensures uc < 0x100
    ensures Marked(uc as bv8, len) as nat ==
            uc + if len == 1 then 0 else if len == 2 then 0xC0 else if len == 3 then 0xE0 else 0xF0
  {
    LowBits(uc);
    MarkByOr(uc as bv8);
  }

  /** The first of `len` bytes: what is left of the character, below its mark. */
  function FirstByte(uc: nat, len: nat): (c: char)
    requires uc < if len == 1 then 0x80 else if len == 2 then 0x20 else if len == 3 then 0x10 else 0x08
    ensures c as int == uc + if len == 1 then 0 else if len == 2 then 0xC0 else if len == 3 then 0xE0 else 0xF0
  {
    MarkedIs(uc, len);
    Marked(uc as bv8, len) as nat as char
  }

  lemma PairByMask(high: bv32, low: bv32)
    ensures ((high & 0x3FF) << 10) | (low & 0x3FF) == (high % 0x400) * 0x400 + low % 0x400
  {}

  lemma SixBitsAtATime(uc: nat)
    ensures uc / 0x40 / 0x40 == uc / 0x1000 && uc / 0x40 / 0x40 / 0x40 == uc / 0x4_0000
  {}

  /** Writes the bytes of one character from the last to the first, six bits at a time. */
  method PutUtf8(out: array<char>, at: nat, code: nat) returns (next: nat)
    requires code < 0x11_0000 && at + |Utf8(code)| <= out.Length
    modifies out
    ensures next == at + |Utf8(code)| && out[at..next] == Utf8(code) && out[..at] == old(out[..at])
  {
    hide Tail, TailByte, FirstByte;
    SixBitsAtATime(code);
    TailByteIsTail(code);
    TailByteIsTail(code / 0x40);
    TailByteIsTail(code / 0x40 / 0x40);
    var uc := code;
    var len := 4;
    if uc < 0x80 {
      len := 1;
    } else if uc < 0x800 {
      len := 2;
    } else if uc < 0x1_0000 {
      len := 3;
    }
    next := at + len;
    var p := next;
    if len == 4 {
      p := p - 1;
      out[p] := TailByte(uc);
      uc := uc / 0x40;
    }
    if len >= 3 {
      p := p - 1;
      out[p] := TailByte(uc);
      uc := uc / 0x40;
    }
    if len >= 2 {
      p := p - 1;
      out[p] := TailByte(uc);
      uc := uc / 0x40;
    }
    p := p - 1;
    out[p] := FirstByte(uc, len);
    assert len >= 2 ==> out[at + len - 1] == Tail(code);
    assert len >= 3 ==> out[at + len - 2] == Tail(code / 0x40);
    assert len >= 4 ==> out[at + len - 3] == Tail(code / 0x1000);
    assert out[at..next] == Utf8(code);
  }

  /** One \u escape of the second pass. */
  method PutUnicode(text: string, i: nat, out: array<char>, at: nat) returns (i': nat, at': nat)
    requires StartsUnit(text, i) && Unicode(text, i).Some? && at + |Unicode(text, i).value.0| <= out.Length
    modifies out
    ensures i' == Unicode(text, i).value.1 && at' == at + |Unicode(text, i).value.0|
    ensures out[..at'] == old(out[..at]) + Unicode(text, i).value.0
  {
    hide Utf8, HasHex4, Hex4;
    var uc := ReadHex4(text, i + 2);
    i', at' := i + 6, at;
    if 0xDC00 <= uc <= 0xDFFF || uc == 0 {
      return;
    }
    if 0xD800 <= uc <= 0xDBFF {
      if At(text, i') != '\\' || At(text, i' + 1) != 'u' {
        return;
      }
      var uc2 := ReadHex4(text, i' + 2);
      i' := i' + 6;
      if uc2 < 0xDC00 || uc2 > 0xDFFF {
        return;
      }
      uc := 0x1_0000 + ((uc % 0x400) * 0x400 + uc2 % 0x400);
    }
    at' := PutUtf8(out, at, uc);
    assert out[..at'] == out[..at] + out[at..at'];
  }

  lemma BeforeTwice(a: string, b: string, r: Option<(string, nat)>)
    ensures Before([], r) == r && Before(a, Before(b, r)) == Before(a + b, r)
  {
    if r.Some? {
      assert [] + r.value.0 == r.value.0;
      assert a + (b + r.value.0) == (a + b) + r.value.0;
    }
  }

  method ReadString(text: string, start: nat) returns (r: Parse<string>)
    requires start <= |text| && !ParseString(text, start).Outside? && Units(text, start + 1) < INT_MAX
    ensures r == ParseString(text, start)
  {
    hide Unicode;
    if At(text, start) != '\"' {
      return Failed(start);
    }
    var len := CountUnits(text, start + 1);
    var size: CInt := len + 1;
    var out := new char[size];
    var i, k := start + 1, 0;
    BeforeTwice([], [], Literal(text, i));
    assert out[..0] == [];
    while At(text, i) != '\"' && At(text, i) != NUL
      invariant i <= |text| && 0 <= k && k + Units(text, i) <= len
      invariant Literal(text, start + 1) == Before(out[..k], Literal(text, i))
      decreases |text| - i
    {
      ghost var was := out[..k];
      if At(text, i) != '\\' {
        BeforeTwice(was, [text[i]], Literal(text, i + 1));
        out[k] := text[i];
        assert out[..k + 1] == was + [text[i]];
        i, k := i + 1, k + 1;
      } else if At(text, i + 1) == 'u' {
        UnicodeFits(text, i);
        BeforeTwice(was, Unicode(text, i).value.0, Literal(text, Unicode(text, i).value.1));
        i, k := PutUnicode(text, i, out, k);
      } else {
        BeforeTwice(was, [Unescape(At(text, i + 1))], Literal(text, i + 2));
        out[k] := Unescape(At(text, i + 1));
        assert out[..k + 1] == was + [Unescape(At(text, i + 1))];
        i, k := i + 2, k + 1;
      }
    }
    ghost var content := out[..k];
    assert content + "" == content;
    out[k] := NUL;
    assert out[..k] == content;
    r := Parsed(out[..k], i + 1);
  }

  // ----- Values -----------------------------------------------------------------------------------------

  function Concat(a: Items, b: Items): Items {
    if a.NoItem? then b else Item(a.value, Concat(a.next, b))
  }

  function ConcatMembers(a: Members, b: Members): Members {
    if a.NoMember? then b else Member(a.name, a.value, ConcatMembers(a.next, b))
  }

  lemma {:induction false} ConcatStep(a: Items, v: Json, b: Items)
    ensures Concat(Concat(a, Item(v, NoItem)), b) == Concat(a, Item(v, b))
    decreases a
  {
    if a.Item? {
      ConcatStep(a.next, v, b);
    }
  }

  lemma {:induction false} ConcatMembersStep(a: Members, name: string, v: Json, b: Members)
    ensures ConcatMembers(ConcatMembers(a, Member(name, v, NoMember)), b) == ConcatMembers(a, Member(name, v, b))
    decreases a
  {
    if a.Member? {
      ConcatMembersStep(a.next, name, v, b);
    }
  }

  /** The result once the children `done` are linked and the cursor stands after the last of them. */
  function ItemsFrom(text: string, done: Items, i: nat): Parse<Items>
    requires i <= |text|
  {
    if At(text, i) == ',' then
      match ParseItems(text, i + 1)
      case Parsed(more, end) => Parsed(Concat(done, more), end)
      case Failed(at) => Failed(at)
      case Outside => Outside
    else if At(text, i) == ']' then Parsed(done, i + 1)
    else Failed(i)
  }

  function MembersFrom(text: string, done: Members, i: nat): Parse<Members>
    requires i <= |text|
  {
    if At(text, i) == ',' then
      match ParseMembers(text, i + 1)
      case Parsed(more, end) => Parsed(ConcatMembers(done, more), end)
      case Failed(at) => Failed(at)
      case Outside => Outside
    else if At(text, i) == '}' then Parsed(done, i + 1)
    else Failed(i)
  }

  /** The reading of a list whose first item is v, by what stands after it. */
  lemma ItemsStep(text: string, i: nat, v: Json, end: nat)
    requires i <= |text| && ParseValue(text, Skip(text, i)) == Parsed(v, end)
    ensures end <= |text|
    ensures var j := Skip(text, end);
            ParseItems(text, i) ==
            if At(text, j) == ',' then
              match ParseItems(text, j + 1)
              case Parsed(more, end') => Parsed(Item(v, more), end')
              case Failed(at) => Failed(at)
              case Outside => Outside
            else if At(text, j) == ']' then Parsed(Item(v, NoItem), j + 1)
            else Failed(j)
  {
    hide ParseValue, Skip;
  }

  lemma ConcatOne(v: Json, more: Items)
    ensures Concat(Item(v, NoItem), more) == Item(v, more)
  {
    assert Concat(Item(v, NoItem), more) == Item(v, Concat(NoItem, more));
  }

  lemma ItemsFirst(text: string, i: nat, v: Json, end: nat)
    requires i <= |text| && ParseValue(text, Skip(text, i)) == Parsed(v, end)
    ensures end <= |text| && ParseItems(text, i) == ItemsFrom(text, Item(v, NoItem), Skip(text, end))
  {
    hide ParseItems, ParseValue, Skip, Concat;
    ItemsStep(text, i, v, end);
    var j := Skip(text, end);
    if At(text, j) == ',' && ParseItems(text, j + 1).Parsed? {
      ConcatOne(v, ParseItems(text, j + 1).value);
    }
  }

  lemma ItemsNext(text: string, done: Items, i: nat, v: Json, end: nat)
    requires i < |text| && At(text, i) == ',' && ParseValue(text, Skip(text, i + 1)) == Parsed(v, end)
    ensures end <= |text|
    ensures ItemsFrom(text, done, i) == ItemsFrom(text, Concat(done, Item(v, NoItem)), Skip(text, end))
  {
    hide ParseValue, ParseItems, Skip;
    ItemsFirst(text, i + 1, v, end);
    var j := Skip(text, end);
    if At(text, j) == ',' && ParseItems(text, j + 1).Parsed? {
      ConcatStep(NoItem, v, ParseItems(text, j + 1).value);
      ConcatStep(done, v, ParseItems(text, j + 1).value);
    }
  }

  lemma MembersFirst(text: string, i: nat, name: string, v: Json, end: nat)
    requires i <= |text| && ParsePair(text, i) == Parsed((name, v), end)
    ensures end <= |text| && ParseMembers(text, i) == MembersFrom(text, Member(name, v, NoMember), Skip(text, end))
  {
    hide ParsePair, Skip;
    var j := Skip(text, end);
    if At(text, j) == ',' && ParseMembers(text, j + 1).Parsed? {
      var more := ParseMembers(text, j + 1).value;
      assert ConcatMembers(Member(name, v, NoMember), more) == Member(name, v, ConcatMembers(NoMember, more));
    }
  }

  lemma MembersNext(text: string, done: Members, i: nat, name: string, v: Json, end: nat)
    requires i < |text| && At(text, i) == ',' && ParsePair(text, i + 1) == Parsed((name, v), end)
    ensures end <= |text|
    ensures MembersFrom(text, done, i) ==
            MembersFrom(text, ConcatMembers(done, Member(name, v, NoMember)), Skip(text, end))
  {
    hide ParsePair, ParseMembers, Skip;
    MembersFirst(text, i + 1, name, v, end);
    var j := Skip(text, end);
    if At(text, j) == ',' && ParseMembers(text, j + 1).Parsed? {
      ConcatMembersStep(NoMember, name, v, ParseMembers(text, j + 1).value);
      ConcatMembersStep(done, name, v, ParseMembers(text, j + 1).value);
    }
  }

  method StartsWith(text: string, i: nat, word: string) returns (r: bool)
    ensures r <==> Stands(text, i, word)
  {
    r := i + |word| <= |text| && text[i..i + |word|] == word;
  }

  method ReadValue(text: string, i: nat) returns (r: Parse<Json>)
    requires i <= |text| <= INT_MAX && !ParseValue(text, i).Outside?
    ensures r == ParseValue(text, i)
    decreases |text| - i, 0
  {
    hide Stands, ParseString, ParseNumber, ParseArray, ParseObject;
    var word := StartsWith(text, i, "null");
    if word {
      return Parsed(Null, i + 4);
    }
    word := StartsWith(text, i, "false");
    if word {
      return Parsed(Bool(false), i + 5);
    }
    word := StartsWith(text, i, "true");
    if word {
      return Parsed(Bool(true), i + 4);
    }
    if At(text, i) == '\"' {
      var s := ReadString(text, i);
      return if s.Parsed? then Parsed(String(s.value), s.end) else Failed(s.at);
    }
    if At(text, i) == '-' || '0' <= At(text, i) <= '9' {
      r := ReadNumber(text, i);
    } else if At(text, i) == '[' {
      r := ReadArray(text, i);
    } else if At(text, i) == '{' {
      r := ReadObject(text, i);
    } else {
      r := Failed(i);
    }
  }

  method ReadArray(text: string, start: nat) returns (r: Parse<Json>)
    requires start < |text| <= INT_MAX && !ParseArray(text, start).Outside?
    ensures r == ParseArray(text, start)
    decreases |text| - start - 1, 3
  {
    hide ParseValue, Skip;
    var i := SkipSpace(text, start + 1);
    if At(text, i) == ']' {
      return Parsed(Array(NoItem), i + 1);
    }
    ghost var start', expected := i, ParseItems(text, i);
    i := SkipSpace(text, i);
    var v := ReadValue(text, i);
    if v.Failed? {
      return Failed(v.at);
    }
    ItemsFirst(text, start', v.value, v.end);
    i := SkipSpace(text, v.end);
    var children := Item(v.value, NoItem);
    while At(text, i) == ','
      invariant start < i <= |text|
      invariant expected == ItemsFrom(text, children, i)
      decreases |text| - i
    {
      var k := SkipSpace(text, i + 1);
      assert !ParseValue(text, k).Outside?;
      v := ReadValue(text, k);
      if v.Failed? {
        return Failed(v.at);
      }
      ItemsNext(text, children, i, v.value, v.end);
      i := SkipSpace(text, v.end);
      children := Concat(children, Item(v.value, NoItem));
    }
    r := if At(text, i) == ']' then Parsed(Array(children), i + 1) else Failed(i);
  }

  method ReadPair(text: string, start: nat) returns (r: Parse<(string, Json)>)
    requires start <= |text| <= INT_MAX && !ParsePair(text, start).Outside?
    ensures r == ParsePair(text, start)
    decreases |text| - start, 1
  {
    hide ParseString, ParseValue;
    var i := SkipSpace(text, start);
    var name := ReadString(text, i);
    if name.Failed? {
      return Failed(name.at);
    }
    i := SkipSpace(text, name.end);
    if At(text, i) != ':' {
      return Failed(i);
    }
    i := SkipSpace(text, i + 1);
    var v := ReadValue(text, i);
    r := if v.Failed? then Failed(v.at) else Parsed((name.value, v.value), v.end);
  }

  method ReadObject(text: string, start: nat) returns (r: Parse<Json>)
    requires start < |text| <= INT_MAX && !ParseObject(text, start).Outside?
    ensures r == ParseObject(text, start)
    decreases |text| - start - 1, 3
  {
    hide ParsePair, Skip;
    var i := SkipSpace(text, start + 1);
    if At(text, i) == '}' {
      return Parsed(Object(NoMember), i + 1);
    }
    ghost var expected := ParseMembers(text, i);
    var pair := ReadPair(text, i);
    if pair.Failed? {
      return Failed(pair.at);
    }
    MembersFirst(text, i, pair.value.0, pair.value.1, pair.end);
    i := SkipSpace(text, pair.end);
    var children := Member(pair.value.0, pair.value.1, NoMember);
    while At(text, i) == ','
      invariant start < i <= |text|
      invariant expected == MembersFrom(text, children, i)
      decreases |text| - i
    {
      pair := ReadPair(text, i + 1);
      if pair.Failed? {
        return Failed(pair.at);
      }
      MembersNext(text, children, i, pair.value.0, pair.value.1, pair.end);
      i := SkipSpace(text, pair.end);
      children := ConcatMembers(children, Member(pair.value.0, pair.value.1, NoMember));
    }
    r := if At(text, i) == '}' then Parsed(Object(children), i + 1) else Failed(i);
  }

  /** `cJSON_ParseWithOpts`. */
  method ParseWithOpts(text: string, requireNullTerminated: bool) returns (r: Parse<Json>)
    requires |text| <= INT_MAX && !ParseText(text, requireNullTerminated).Outside?
    ensures r == ParseText(text, requireNullTerminated)
  {
    hide ParseValue;
    var i := SkipSpace(text, 0);
    r := ReadValue(text, i);
    if r.Parsed? && requireNullTerminated {
      var end := SkipSpace(text, r.end);
      r := if At(text, end) != NUL then Failed(end) else Parsed(r.value, end);
    }
  }

  /** The round trip of the reader itself: the print of any tree is read back as the tree, up to its end. */
  method ReadPrinted(text: string, requireNullTerminated: bool, ghost v: Json, ghost depth: nat, ghost fmt: bool)
    returns (r: Parse<Json>)
    requires Printable(v) && text == Print(v, depth, fmt) && |text| <= INT_MAX
    ensures r == Parsed(v, |text|)
  {
    hide Print, ParseText;
    JsonRoundTrip.ParsePrinted(v, depth, fmt, requireNullTerminated);
    r := ParseWithOpts(text, requireNullTerminated);
  }
}
