/** Trees, and the text that printing gives them, formatted or not. */
module JsonModel {
  import opened Common
  import opened JsonText

  /** A node with its children in the order of their links. */
  datatype Json =
    | Null
    | Bool(b: bool)
    | Number(n: int)
    | String(s: string)
    | Array(items: Items)
    | Object(members: Members)

  datatype Items = NoItem | Item(value: Json, next: Items)

  datatype Members = NoMember | Member(name: string, value: Json, next: Members)

  const INT_MIN: int := -0x8000_0000
  const INT_MAX: int := 0x7fff_ffff

  /** The C type in which lengths are counted. */
  type CInt = n: int | INT_MIN <= n <= INT_MAX

  /** The trees that the model prints: 32-bit numbers, C strings. */
  predicate Printable(v: Json) {
    match v
    case Null => true
    case Bool(_) => true
    case Number(n) => INT_MIN <= n <= INT_MAX
    case String(s) => CString(s)
    case Array(items) => PrintableItems(items)
    case Object(members) => PrintableMembers(members)
  }

  predicate PrintableItems(items: Items) {
    items.Item? ==> Printable(items.value) && PrintableItems(items.next)
  }

  predicate PrintableMembers(members: Members) {
    members.Member? ==> CString(members.name) && Printable(members.value) && PrintableMembers(members.next)
  }

  // ----- Strings ----------------------------------------------------------------------------------

  /** The letter that stands for c after a backslash, if it has one. */
  function Letter(c: char): Option<char> {
    if c == '\"' then Some('\"')
    else if c == '\\' then Some('\\')
    else if c == BACKSPACE then Some('b')
    else if c == FORM_FEED then Some('f')
    else if c == '\n' then Some('n')
    else if c == '\r' then Some('r')
    else if c == '\t' then Some('t')
    else None
  }

  function EscapeChar(c: char): string {
    if Letter(c).Some? then ['\\', Letter(c).value]
    else if c as int < 32 then ['\\', 'u', '0', '0', HexDigit(c as int / 16), HexDigit(c as int % 16)]
    else [c]
  }

  function Escape(s: string): string {
    if s == [] then [] else EscapeChar(s[0]) + Escape(s[1..])
  }

  function PrintString(s: string): string {
    "\"" + Escape(s) + "\""
  }

  // ----- Values -------------------------------------------------------------------------------------

  function PrintNumber(n: int): string {
    if n < 0 then "-" + Decimal(-n) else Decimal(n)
  }

  function Tabs(n: int): (t: string)
    ensures |t| == if n > 0 then n else 0
    ensures forall i | 0 <= i < |t| :: t[i] == '\t'
  {
    if n <= 0 then [] else seq(n, _ => '\t')
  }

  /** What formatting adds: line breaks, indentation, a tab after a colon and a blank after a comma. */
  function Newline(fmt: bool): (s: string)
    ensures Spaces(s) && |s| == if fmt then 1 else 0
  {
    if fmt then "\n" else ""
  }

  function Indent(depth: int, fmt: bool): (s: string)
    ensures Spaces(s) && |s| == if fmt && depth > 0 then depth else 0
  {
    if fmt then Tabs(depth) else ""
  }

  function Colon(fmt: bool): (s: string)
    ensures |s| == (if fmt then 2 else 1) && s[0] == ':' && Spaces(s[1..])
  {
    if fmt then ":\t" else ":"
  }

  function Comma(fmt: bool): (s: string)
    ensures |s| == (if fmt then 2 else 1) && s[0] == ',' && Spaces(s[1..])
  {
    if fmt then ", " else ","
  }

  function Print(v: Json, depth: nat, fmt: bool): string
    decreases v, 0
  {
    match v
    case Null => "null"
    case Bool(b) => if b then "true" else "false"
    case Number(n) => PrintNumber(n)
    case String(s) => PrintString(s)
    case Array(items) => "[" + PrintItems(items, depth + 1, fmt) + "]"
    case Object(members) =>
      if members.NoMember? then "{" + Newline(fmt) + Indent(depth - 1, fmt) + "}"
      else "{" + Newline(fmt) + PrintMembers(members, depth + 1, fmt) + Indent(depth, fmt) + "}"
  }

  function PrintItems(items: Items, depth: nat, fmt: bool): string
    decreases items
  {
    if items.NoItem? then ""
    else if items.next.NoItem? then Print(items.value, depth, fmt)
    else Print(items.value, depth, fmt) + Comma(fmt) + PrintItems(items.next, depth, fmt)
  }

  /** One line a member when formatted; `depth` is that of the members. */
  function PrintMembers(members: Members, depth: nat, fmt: bool): string
    decreases members
  {
    if members.NoMember? then ""
    else if members.next.NoMember? then PrintMember(members.name, members.value, depth, fmt) + Newline(fmt)
    else
      PrintMember(members.name, members.value, depth, fmt) + "," + Newline(fmt)
      + PrintMembers(members.next, depth, fmt)
  }

  lemma NoMembers(members: Members, depth: nat, fmt: bool)
    requires members.NoMember?
    ensures PrintMembers(members, depth, fmt) == ""
  {}

  lemma MembersCons(members: Members, depth: nat, fmt: bool)
    requires members.Member?
    ensures PrintMembers(members, depth, fmt) ==
            PrintMember(members.name, members.value, depth, fmt)
            + if members.next.NoMember? then Newline(fmt)
              else ("," + Newline(fmt)) + PrintMembers(members.next, depth, fmt)
  {
    hide PrintMember, Newline;
  }

  function PrintMember(name: string, value: Json, depth: nat, fmt: bool): string
    decreases value, 1
  {
    Indent(depth, fmt) + PrintString(name) + Colon(fmt) + Print(value, depth, fmt)
  }
}
