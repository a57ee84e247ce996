/**
 The probe's messages as JSON text: what is sent is understood, whatever bytes of the receive buffer follow it, and it
 fits that buffer.
 */
module NatMessage {
  import opened Common
  import opened JsonText
  import opened JsonModel
  import opened JsonParse
  import opened JsonRoundTrip
  import JsonWriter

  datatype Request = Request(msgid: int, networkType: int)

  /** The address and port are those the server sees the client at. */
  datatype Response = Response(msgid: int, ipAddr: nat, port: nat)

  const BUFFER_SIZE: nat := 128

  predicate IsInt(n: int) { INT_MIN <= n <= INT_MAX }

  function ToLower(c: char): char {
    if 'A' <= c <= 'Z' then (c as int + 32) as char else c
  }

  /** Names are compared without regard to case. */
  predicate SameName(a: string, b: string) {
    |a| == |b| && forall i | 0 <= i < |a| :: ToLower(a[i]) == ToLower(b[i])
  }

  /** `cJSON_GetObjectItem`: the first member of that name. */
  function GetObjectItem(members: Members, name: string): Option<Json> {
    if members.NoMember? then None
    else if SameName(members.name, name) then Some(members.value)
    else GetObjectItem(members.next, name)
  }

  /** The field `valueint` as parsing leaves it. */
  function ValueInt(v: Json): int {
    match v
    case Number(n) => n
    case Bool(b) => if b then 1 else 0
    case _ => 0
  }

  /** White space to `isspace`. */
  function SkipBlank(s: string, i: nat): (j: nat)
    decreases |s| - i
  {
    if i < |s| && (s[i] == ' ' || 9 <= s[i] as int <= 13) then SkipBlank(s, i + 1) else i
  }

  const ULONG_MAX: nat := 0xFFFF_FFFF_FFFF_FFFF

  /** `strtoul` to the base ten: a sign negates modulo 2^64, and what is too large is the greatest number. */
  function StrToUl(s: string): nat {
    var i := SkipBlank(s, 0);
    var sign := if At(s, i) == '-' || At(s, i) == '+' then 1 else 0;
    var n := ReadDigits(s, i + sign, 0).0;
    if n > ULONG_MAX then ULONG_MAX else if At(s, i) == '-' && n > 0 then ULONG_MAX + 1 - n else n
  }

  function RequestTree(q: Request): Members {
    Member("msgid", Number(q.msgid), Member("network_type", Number(q.networkType), NoMember))
  }

  function ResponseTree(r: Response): Members {
    Member("msgid", Number(r.msgid), Member("ip", String(Decimal(r.ipAddr)), Member("port", Number(r.port), NoMember)))
  }

  function EncodeRequest(q: Request): string {
    Print(Object(RequestTree(q)), 0, true)
  }

  function EncodeResponse(r: Response): string {
    Print(Object(ResponseTree(r)), 0, true)
  }

  /** The text is among those whose reading is modelled: no fraction, no exponent, no literal cut short on the way. */
  predicate Readable(text: string) { !ParseText(text, false).Outside? }

  /** The members of an object; None for a text that is not read as one. */
  function MembersOf(text: string): Option<Members>
    requires Readable(text)
  {
    var r := ParseText(text, false);
    if r.Parsed? && r.value.Object? then Some(r.value.members) else None
  }

  function DecodeRequest(text: string): Option<Request>
    requires Readable(text)
  {
    match MembersOf(text)
    case None => None
    case Some(m) =>
      var msgid, networkType := GetObjectItem(m, "msgid"), GetObjectItem(m, "network_type");
      if msgid.Some? && networkType.Some? then Some(Request(ValueInt(msgid.value), ValueInt(networkType.value)))
      else None
  }

  function DecodeResponse(text: string): Option<Response>
    requires Readable(text)
  {
    match MembersOf(text)
    case None => None
    case Some(m) =>
      var msgid, ip, port := GetObjectItem(m, "msgid"), GetObjectItem(m, "ip"), GetObjectItem(m, "port");
      if msgid.Some? && ip.Some? && ip.value.String? && port.Some?
      then Some(Response(ValueInt(msgid.value), StrToUl(ip.value.s) % TWO32, ValueInt(port.value) % 0x1_0000))
      else None
  }

  /** An object is read from the front of the buffer, and what comes after it is not looked at. */
  lemma ObjectThenGarbage(members: Members, garbage: string)
    requires PrintableMembers(members)
    ensures Readable(Print(Object(members), 0, true) + garbage)
    ensures MembersOf(Print(Object(members), 0, true) + garbage) == Some(members)
  {
    var s := Print(Object(members), 0, true);
    var text := s + garbage;
    assert s[0] == '{';
    hide Print, PrintMembers, ParseValue;
    assert text[0..0 + |s|] == s;
    assert Skip(text, 0) == 0;
    ReadsObject(text, 0, members, 0, true);
  }

  lemma RequestRoundTrip(q: Request, garbage: string)
    requires IsInt(q.msgid) && IsInt(q.networkType)
    ensures Readable(EncodeRequest(q) + garbage) && DecodeRequest(EncodeRequest(q) + garbage) == Some(q)
  {
    hide Print, ParseText;
    NamesAreCStrings();
    var last := Member("network_type", Number(q.networkType), NoMember);
    assert PrintableMembers(last);
    assert !SameName("msgid", "network_type");
    assert GetObjectItem(last, "network_type") == Some(Number(q.networkType));
    ObjectThenGarbage(RequestTree(q), garbage);
  }

  lemma DecimalIsCString(n: nat)
    ensures CString(Decimal(n)) && (n <= ULONG_MAX ==> StrToUl(Decimal(n)) == n)
  {
    hide Decimal;
    var s := Decimal(n);
    assert s[0..0 + |s|] == s;
    assert IsDigit(s[0]) && SkipBlank(s, 0) == 0;
    ReadsDecimal(s, 0, n);
  }

  // ----- The messages as they are sent ----------------------------------------------------------------------------

  lemma NameText(name: string)
    requires forall i | 0 <= i < |name| :: !JsonWriter.IsSpecial(name[i])
    ensures PrintString(name) == "\"" + name + "\""
  {
    JsonWriter.PlainEscape(name);
  }

  /** One line of a message: a tab, the name in quotes, a colon, a tab, and the value. */
  function WireLine(name: string, value: string, end: string): string {
    "\t\"" + name + "\":\t" + value + end
  }

  lemma MemberLine(name: string, v: Json, end: string)
    requires forall i | 0 <= i < |name| :: !JsonWriter.IsSpecial(name[i])
    ensures PrintMember(name, v, 1, true) + end == WireLine(name, Print(v, 1, true), end)
  {
    hide PrintString, Print, PrintMember;
    NameText(name);
    MemberIs(name, v);
    Regroup("\t", "\"", name, "\"", ":\t", Print(v, 1, true), end);
  }

  lemma MemberIs(name: string, v: Json)
    ensures PrintMember(name, v, 1, true) == "\t" + PrintString(name) + ":\t" + Print(v, 1, true)
  {
    hide PrintString, Print;
    assert Indent(1, true) == "\t";
  }

  lemma Regroup(a: string, b: string, c: string, d: string, e: string, f: string, g: string)
    ensures a + (b + c + d) + e + f + g == (a + b) + c + (d + e) + f + g
  {
    assert a + (b + c + d) + e == (a + b) + c + (d + e);
  }

  lemma LastLine(name: string, v: Json)
    ensures PrintMembers(Member(name, v, NoMember), 1, true) == PrintMember(name, v, 1, true) + "\n"
  {
    hide PrintMember;
  }

  lemma MoreLines(name: string, v: Json, next: Members)
    requires next.Member?
    ensures PrintMembers(Member(name, v, next), 1, true) ==
            (PrintMember(name, v, 1, true) + ",\n") + PrintMembers(next, 1, true)
  {
    hide PrintMember;
    var own, rest := PrintMember(name, v, 1, true), PrintMembers(next, 1, true);
    assert (own + ",") + "\n" == own + ",\n";
  }

  lemma Braces(members: Members)
    requires members.Member?
    ensures Print(Object(members), 0, true) == "{\n" + PrintMembers(members, 1, true) + "}"
  {
    hide PrintMembers;
    var inner := PrintMembers(members, 1, true);
    assert "{" + "\n" == "{\n" && ("{\n" + inner) + "" == "{\n" + inner;
  }

  /** The text of a request, as it goes over the wire. */
  lemma RequestText(q: Request)
    ensures EncodeRequest(q) ==
            "{\n"
            + (WireLine("msgid", PrintNumber(q.msgid), ",\n")
               + WireLine("network_type", PrintNumber(q.networkType), "\n"))
            + "}"
  {
    hide PrintMember, PrintNumber, PrintMembers, WireLine;
    NamesArePlain();
    var last := Member("network_type", Number(q.networkType), NoMember);
    MemberLine("msgid", Number(q.msgid), ",\n");
    MemberLine("network_type", Number(q.networkType), "\n");
    LastLine("network_type", Number(q.networkType));
    MoreLines("msgid", Number(q.msgid), last);
    Braces(RequestTree(q));
  }

  /** The text of a response: the address as a string of decimal digits, the port as a number. */
  lemma ResponseText(r: Response)
    ensures EncodeResponse(r) ==
            "{\n"
            + (WireLine("msgid", PrintNumber(r.msgid), ",\n")
               + (WireLine("ip", "\"" + Decimal(r.ipAddr) + "\"", ",\n") + WireLine("port", PrintNumber(r.port), "\n")))
            + "}"
  {
    hide PrintMember, PrintNumber, PrintMembers, WireLine, Decimal, PrintString;
    NamesArePlain();
    var ip := String(Decimal(r.ipAddr));
    var last := Member("port", Number(r.port), NoMember);
    var rest := Member("ip", ip, last);
    DigitsText(r.ipAddr);
    MemberLine("msgid", Number(r.msgid), ",\n");
    MemberLine("ip", ip, ",\n");
    MemberLine("port", Number(r.port), "\n");
    LastLine("port", Number(r.port));
    MoreLines("ip", ip, last);
    MoreLines("msgid", Number(r.msgid), rest);
    Braces(ResponseTree(r));
  }

  lemma NamesArePlain()
    ensures forall name, i | name in {"msgid", "network_type", "ip", "port"} && 0 <= i < |name| ::
              !JsonWriter.IsSpecial(name[i])
  {}

  lemma DigitsText(n: nat)
    ensures PrintString(Decimal(n)) == "\"" + Decimal(n) + "\""
  {
    hide Decimal;
    NameText(Decimal(n));
  }

  // ----- Names ----------------------------------------------------------------------------------------------------

  /** Letters have their lower case at the same place of the alphabet; nothing else changes. */
  lemma CaseTable(c: char)
    ensures forall k | 0 <= k < 26 ::
              ToLower("ABCDEFGHIJKLMNOPQRSTUVWXYZ"[k]) == "abcdefghijklmnopqrstuvwxyz"[k]
    ensures c !in "ABCDEFGHIJKLMNOPQRSTUVWXYZ" ==> ToLower(c) == c
  {}

  /** A name stands for the first member that has it, in whatever case. */
  lemma {:induction false} FirstOfName(front: Members, name: string, v: Json, rest: Members, wanted: string)
    requires SameName(name, wanted) && GetObjectItem(front, wanted) == None
    ensures GetObjectItem(Chained(front, Member(name, v, rest)), wanted) == Some(v)
    decreases front
  {
    if front.Member? {
      FirstOfName(front.next, name, v, rest, wanted);
    }
  }

  /** What counts as a number in a request: a number for itself, true for one, anything else for zero. */
  lemma OtherKinds(v: Json, u: Json)
    requires Printable(v) && Printable(u)
    ensures var text := Print(Object(Member("msgid", v, Member("network_type", u, NoMember))), 0, true);
            && Readable(text) && DecodeRequest(text).Some?
            && (v.Number? ==> DecodeRequest(text).value.msgid == v.n)
            && (v == Bool(true) ==> DecodeRequest(text).value.msgid == 1)
            && (!v.Number? && v != Bool(true) ==> DecodeRequest(text).value.msgid == 0)
  {
    hide Print, ParseText;
    NamesAreCStrings();
    var last := Member("network_type", u, NoMember);
    assert PrintableMembers(last);
    assert !SameName("msgid", "network_type");
    var text := Print(Object(Member("msgid", v, last)), 0, true);
    assert GetObjectItem(last, "network_type") == Some(u);
    ObjectThenGarbage(Member("msgid", v, last), "");
    assert text + "" == text;
  }

  function Chained(a: Members, b: Members): Members {
    if a.NoMember? then b else Member(a.name, a.value, Chained(a.next, b))
  }

  lemma ResponseRoundTrip(r: Response, garbage: string)
    requires IsInt(r.msgid) && r.ipAddr < TWO32 && r.port < 0x1_0000
    ensures Readable(EncodeResponse(r) + garbage) && DecodeResponse(EncodeResponse(r) + garbage) == Some(r)
  {
    hide Print, ParseText, Decimal, StrToUl, CString;
    DecimalIsCString(r.ipAddr);
    NamesAreCStrings();
    var last := Member("port", Number(r.port), NoMember);
    var rest := Member("ip", String(Decimal(r.ipAddr)), last);
    assert PrintableMembers(last);
    assert PrintableMembers(rest);
    assert !SameName("msgid", "ip") && !SameName("msgid", "port") && !SameName("ip", "port");
    assert GetObjectItem(last, "port") == Some(Number(r.port));
    assert GetObjectItem(rest, "port") == Some(Number(r.port));
    assert GetObjectItem(ResponseTree(r), "msgid") == Some(Number(r.msgid));
    assert GetObjectItem(ResponseTree(r), "ip") == Some(String(Decimal(r.ipAddr)));
    assert GetObjectItem(ResponseTree(r), "port") == Some(Number(r.port));
    ObjectThenGarbage(ResponseTree(r), garbage);
  }

  lemma NamesAreCStrings()
    ensures CString("msgid") && CString("ip") && CString("port") && CString("network_type")
  {}

  // ----- Lengths ------------------------------------------------------------------------------------------------

  lemma NumberLength(n: int)
    requires IsInt(n)
    ensures |PrintNumber(n)| <= 11
  {
    assert JsonWriter.Ten(10) == 10_000_000_000;
    JsonWriter.DecimalLength(if n < 0 then -n else n, 10);
  }

  lemma {:induction false} PlainLength(s: string)
    requires forall i | 0 <= i < |s| :: !JsonWriter.IsSpecial(s[i])
    ensures |PrintString(s)| == |s| + 2
  {
    JsonWriter.PlainEscape(s);
  }

  lemma MemberLength(name: string, v: Json)
    requires forall i | 0 <= i < |name| :: !JsonWriter.IsSpecial(name[i])
    ensures |PrintMember(name, v, 1, true)| == |name| + 5 + |Print(v, 1, true)|
  {
    hide PrintString, Print;
    PlainLength(name);
  }

  lemma RequestFits(q: Request)
    requires IsInt(q.msgid) && IsInt(q.networkType)
    ensures |EncodeRequest(q)| <= BUFFER_SIZE
  {
    hide PrintMember, PrintNumber;
    MemberLength("msgid", Number(q.msgid));
    MemberLength("network_type", Number(q.networkType));
    NumberLength(q.msgid);
    NumberLength(q.networkType);
    var last := Member("network_type", Number(q.networkType), NoMember);
    assert |PrintMembers(last, 1, true)| == |PrintMember("network_type", Number(q.networkType), 1, true)| + 1;
    assert |PrintMembers(RequestTree(q), 1, true)| ==
           |PrintMember("msgid", Number(q.msgid), 1, true)| + 2 + |PrintMembers(last, 1, true)|;
    hide PrintMembers;
    assert |EncodeRequest(q)| == 3 + |PrintMembers(RequestTree(q), 1, true)|;
  }

  lemma ResponseFits(r: Response)
    requires IsInt(r.msgid) && r.ipAddr < TWO32 && r.port < 0x1_0000
    ensures |EncodeResponse(r)| <= BUFFER_SIZE
  {
    hide PrintMember, PrintNumber, Decimal;
    var ip := String(Decimal(r.ipAddr));
    MemberLength("msgid", Number(r.msgid));
    MemberLength("ip", ip);
    MemberLength("port", Number(r.port));
    NumberLength(r.msgid);
    NumberLength(r.port);
    AddressLength(r.ipAddr);
    var last := Member("port", Number(r.port), NoMember);
    var rest := Member("ip", ip, last);
    assert |PrintMembers(last, 1, true)| == |PrintMember("port", Number(r.port), 1, true)| + 1;
    assert |PrintMembers(rest, 1, true)| == |PrintMember("ip", ip, 1, true)| + 2 + |PrintMembers(last, 1, true)|;
    assert |PrintMembers(ResponseTree(r), 1, true)| ==
           |PrintMember("msgid", Number(r.msgid), 1, true)| + 2 + |PrintMembers(rest, 1, true)|;
    hide PrintMembers;
    assert |EncodeResponse(r)| == 3 + |PrintMembers(ResponseTree(r), 1, true)|;
  }

  lemma AddressLength(ip: nat)
    requires ip < TWO32
    ensures |Print(String(Decimal(ip)), 1, true)| <= 12
  {
    assert JsonWriter.Ten(10) == 10_000_000_000;
    JsonWriter.DecimalLength(ip, 10);
    PlainLength(Decimal(ip));
  }
}
