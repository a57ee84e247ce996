/**
 Printing into a buffer that grows. At every moment the text so far stands before `offset`; room is asked for before
 each write; and whatever the size of the first buffer, the result is the same text.
 */
module JsonBuffer {
  import opened JsonText
  import opened JsonModel
  import opened JsonWriter
  import opened JsonUnbuffered
  import opened JsonGrow

  /** Sizes are signed 32-bit numbers, and the next power of two must be one: a buffer can grow as far as this. */
  const LIMIT: nat := 0x4000_0000

  class PrintBuffer {
    var buffer: array<char>
    var length: nat
    var offset: nat

    ghost predicate Valid()
      reads this
    {
      length == buffer.Length && offset <= length <= INT_MAX
    }

    /** The text so far. */
    ghost predicate Text(pre: string)
      reads this, buffer
    {
      Valid() && offset == |pre| && buffer[..offset] == pre
    }

    /** The text is complete and terminated, but `offset` has not reached its end. */
    ghost predicate Printed(pre: string, s: string)
      reads this, buffer
    {
      Valid() && |pre| <= offset <= |pre + s| && Holds(buffer, pre + s)
    }

    constructor (prebuffer: nat)
      requires 0 < prebuffer <= INT_MAX
      ensures Text("") && fresh(buffer) && length == prebuffer
    {
      buffer := new char[prebuffer];
      length := prebuffer;
      offset := 0;
    }

    /** A text of n characters can be held, by this buffer or by one that it grows into. */
    ghost predicate Room(n: nat)
      reads this
    {
      n <= LIMIT || n <= length
    }

    /** The buffer is the same or a new one, and not shorter. */
    twostate predicate Grew()
      reads this
    {
      old(length) <= length && (buffer == old(buffer) || fresh(buffer))
    }

    /** Room for `needed` more characters; a new buffer starts with the whole old one. */
    method Ensure(needed: nat, ghost pre: string)
      requires Text(pre) && 0 < |pre| + needed && Room(|pre| + needed)
      modifies this
      ensures Text(pre) && offset + needed <= length && Grew()
      ensures buffer[..old(length)] == old(buffer[..])
    {
      var total := needed + offset;
      if total <= length {
        return;
      }
      var newsize := Pow2gt(total);
      var newbuffer := new char[newsize];
      Memcpy(newbuffer, 0, buffer, length);
      assert newbuffer[..length] == [] + buffer[..length];
      assert newbuffer[..offset] == newbuffer[..length][..offset];
      length := newsize;
      buffer := newbuffer;
    }

    /** Moves `offset` to the terminator. */
    method Update(ghost pre: string, ghost s: string)
      requires Printed(pre, s) && NoNul(pre + s)
      modifies this`offset
      ensures Text(pre + s)
    {
      ghost var all := pre + s;
      ghost var rest := all[offset..];
      assert buffer[offset..offset + |rest|] == rest by {
        assert buffer[offset..|all|] == buffer[..|all|][offset..];
      }
      assert NoNul(rest);
      var n := Strlen(buffer, offset, rest);
      offset := offset + n;
    }

    /** Asks for `needed` characters, writes `s` and, if there is room for it, the terminator, and advances. */
    method Append(s: string, needed: nat, ghost pre: string)
      requires Text(pre) && |s| <= needed <= |s| + 1 && 0 < |pre| + needed && Room(|pre| + needed)
      modifies this, buffer
      ensures Text(pre + s) && Grew()
    {
      Ensure(needed, pre);
      Put(buffer, offset, s);
      if needed > |s| {
        buffer[offset + |s|] := NUL;
      }
      offset := offset + |s|;
    }

    /** The same without advancing: how the last mark of a text is written. */
    method AppendLast(s: string, ghost pre: string) returns (out: nat)
      requires Text(pre) && Room(|pre| + |s| + 1)
      modifies this, buffer
      ensures Printed(pre, s) && offset == old(offset) && Grew()
      ensures out == |pre|
    {
      Ensure(|s| + 1, pre);
      out := offset;
      Put(buffer, offset, s);
      buffer[offset + |s|] := NUL;
    }

    // ----- Values -----------------------------------------------------------------------------------------

    method PrintNumber(n: int, ghost pre: string) returns (out: nat)
      requires Text(pre) && INT_MIN <= n <= INT_MAX && Room(|pre| + |JsonModel.PrintNumber(n)| + 20)
      modifies this, buffer
      ensures Printed(pre, JsonModel.PrintNumber(n)) && Grew() && out == |pre|
    {
      NumberFits(n);
      hide JsonModel.PrintNumber;
      Ensure(if n == 0 then 2 else 21, pre);
      out := offset;
      Put(buffer, offset, JsonModel.PrintNumber(n));
      buffer[offset + |JsonModel.PrintNumber(n)|] := NUL;
    }

    method PrintStringPtr(str: string, ghost pre: string) returns (out: nat)
      requires Text(pre) && Room(|pre| + |PrintString(str)| + 1)
      modifies this, buffer
      ensures Printed(pre, PrintString(str)) && Grew() && out == |pre|
    {
      hide Escape, HoldsAt, Holds;
      var flag, len := MeasureString(str);
      Ensure(len + 3, pre);
      out := offset;
      FillString(buffer, offset, str, flag);
      HoldsAfter(buffer, pre, PrintString(str));
    }

    /** Where the returned pointer points: at the printed text, except for a formatted object that has members. */
    ghost function Start(v: Json, depth: nat, fmt: bool, pre: string): nat {
      if fmt && v.Object? && v.members.Member? then depth else |pre|
    }

    method PrintValue(v: Json, depth: nat, fmt: bool, ghost pre: string) returns (out: nat)
      requires Text(pre) && Printable(v) && NoNul(pre) && Room(|pre| + |Print(v, depth, fmt)| + 20)
      modifies this, buffer
      ensures Printed(pre, Print(v, depth, fmt)) && Grew()
      ensures out == Start(v, depth, fmt, pre)
      decreases v, 0
    {
      hide PrintItems, PrintMembers, PrintString, JsonModel.PrintNumber;
      match v
      case Null => out := AppendLast("null", pre);
      case Bool(b) => out := AppendLast(if b then "true" else "false", pre);
      case Number(n) => out := PrintNumber(n, pre);
      case String(s) => out := PrintStringPtr(s, pre);
      case Array(items) => out := PrintArray(items, depth, fmt, pre);
      case Object(members) => out := PrintObject(members, depth, fmt, pre);
    }

    /** One value, and `offset` after it; the returned pointer is not looked at. */
    method PrintAndUpdate(v: Json, depth: nat, fmt: bool, ghost pre: string)
      requires Text(pre) && Printable(v) && NoNul(pre) && Room(|pre| + |Print(v, depth, fmt)| + 20)
      modifies this, buffer
      ensures Text(pre + Print(v, depth, fmt)) && NoNul(pre + Print(v, depth, fmt))
              && Grew()
      decreases v, 1
    {
      hide Print;
      var out := PrintValue(v, depth, fmt, pre);
      PrintNoNul(v, depth, fmt);
      NoNulJoin(pre, Print(v, depth, fmt));
      Update(pre, Print(v, depth, fmt));
    }

    // ----- Arrays -------------------------------------------------------------------------------------------

    method PrintArray(items: Items, depth: nat, fmt: bool, ghost pre: string) returns (out: nat)
      requires Text(pre) && PrintableItems(items) && NoNul(pre)
               && Room(|pre| + |Print(Array(items), depth, fmt)| + 20)
      modifies this, buffer
      ensures Printed(pre, Print(Array(items), depth, fmt)) && Grew() && out == |pre|
      decreases items, 1
    {
      hide Print, PrintItems, NoNul, PrintableItems;
      ghost var inner := PrintItems(items, depth + 1, fmt);
      ArrayText(pre, items, depth, fmt);
      if items.NoItem? {
        out := AppendLast("[]", pre);
        return;
      }
      out := offset;
      Append("[", 1, pre);
      NoNulJoin(pre, "[");
      BracketNoNul();
      PrintChildren(items, depth + 1, fmt, pre + "[");
      var last := AppendLast("]", pre + "[" + inner);
      PrintedAs(pre + "[" + inner, "]", pre, Print(Array(items), depth, fmt));
    }

    method PrintChildren(items: Items, depth: nat, fmt: bool, ghost pre: string)
      requires Text(pre) && PrintableItems(items) && NoNul(pre) && Room(|pre| + |PrintItems(items, depth, fmt)| + 20)
      modifies this, buffer
      ensures Text(pre + PrintItems(items, depth, fmt)) && Grew()
      decreases items, 0
    {
      ghost var done, all := pre, pre + PrintItems(items, depth, fmt);
      var child := items;
      while child.Item?
        invariant PrintableItems(child) && (child == items || child < items)
        invariant Text(done) && NoNul(done) && Grew()
        invariant done + PrintItems(child, depth, fmt) == all
        decreases child
      {
        ItemStep(child, depth, fmt, done);
        PrintAndUpdate(child.value, depth, fmt, done);
        done := done + Print(child.value, depth, fmt);
        if child.next.Item? {
          Append(Comma(fmt), (if fmt then 2 else 1) + 1, done);
          MarkNoNul(fmt);
          NoNulJoin(done, Comma(fmt));
          done := done + Comma(fmt);
        }
        child := child.next;
      }
      assert done + "" == done;
    }

    // ----- Objects ------------------------------------------------------------------------------------------

    method PrintEmptyObject(depth: nat, fmt: bool, ghost pre: string) returns (out: nat)
      requires Text(pre) && Room(|pre| + |Print(Object(NoMember), depth, fmt)| + 20)
      modifies this, buffer
      ensures Printed(pre, Print(Object(NoMember), depth, fmt)) && Grew()
              && out == |pre|
    {
      EmptyObjectFits(depth, fmt);
      hide Print;
      Ensure(if fmt then depth + 4 else 3, pre);
      out := offset;
      FillEmptyObject(buffer, offset, depth, fmt);
      ghost var s := Print(Object(NoMember), depth, fmt);
      assert buffer[..|pre + s|] == buffer[..offset] + buffer[offset..offset + |s|];
    }

    /** The variable that keeps the start is also the one that counts the tabs before the closing brace. */
    method PrintObject(members: Members, depth: nat, fmt: bool, ghost pre: string) returns (out: nat)
      requires Text(pre) && PrintableMembers(members) && NoNul(pre)
      requires Room(|pre| + |Print(Object(members), depth, fmt)| + 20)
      modifies this, buffer
      ensures Printed(pre, Print(Object(members), depth, fmt)) && Grew()
      ensures out == Start(Object(members), depth, fmt, pre)
      decreases members, 1
    {
      hide Print, PrintMembers, Newline, Indent, NoNul, PrintableMembers;
      if members.NoMember? {
        out := PrintEmptyObject(depth, fmt, pre);
        return;
      }
      var i := offset;
      ghost var open, inner := "{" + Newline(fmt), PrintMembers(members, depth + 1, fmt);
      ghost var close := Indent(depth, fmt) + "}";
      IndentIsTabs(depth, fmt);
      OpenNoNul(fmt);
      ObjectText(pre, members, depth, fmt);
      Append(if fmt then "{\n" else "{", (if fmt then 2 else 1) + 1, pre);
      NoNulJoin(pre, open);
      PrintLines(members, depth + 1, fmt, pre + open);
      var last := AppendLast((if fmt then Tabs(depth) else "") + "}", pre + open + inner);
      if fmt {
        i := depth;
      }
      out := i;
      PrintedAs(pre + open + inner, close, pre, Print(Object(members), depth, fmt));
    }

    /** The same text, divided otherwise. */
    lemma PrintedAs(a: string, b: string, pre: string, s: string)
      requires Printed(a, b) && a + b == pre + s && |pre| <= |a|
      ensures Printed(pre, s)
    {}

    method PrintLines(members: Members, depth: nat, fmt: bool, ghost pre: string)
      requires Text(pre) && PrintableMembers(members) && NoNul(pre)
      requires Room(|pre| + |PrintMembers(members, depth, fmt)| + 20) && |pre| > 0
      modifies this, buffer
      ensures Text(pre + PrintMembers(members, depth, fmt)) && Grew()
      decreases members, 0
    {
      ghost var done, all := pre, pre + PrintMembers(members, depth, fmt);
      var child := members;
      while child.Member?
        invariant PrintableMembers(child) && (child == members || child < members)
        invariant Text(done) && NoNul(done) && |done| > 0 && Grew()
        invariant done + PrintMembers(child, depth, fmt) == all
        decreases child
      {
        MemberStep(child, depth, fmt, done);
        PrintLine(child.name, child.value, depth, fmt, child.next.NoMember?, done);
        done := done + MemberLine(child, depth, fmt);
        child := child.next;
      }
      assert done + "" == done;
    }

    method PrintLine(name: string, v: Json, depth: nat, fmt: bool, last: bool, ghost pre: string)
      requires Text(pre) && CString(name) && Printable(v) && NoNul(pre) && |pre| > 0
      requires Room(|pre| + |Line(PrintString(name), Print(v, depth, fmt), depth, fmt, last)| + 20)
      modifies this, buffer
      ensures Text(pre + Line(PrintString(name), Print(v, depth, fmt), depth, fmt, last))
      ensures NoNul(pre + Line(PrintString(name), Print(v, depth, fmt), depth, fmt, last))
      ensures Grew()
      decreases v, 2
    {
      hide PrintString, Print, Indent, Colon, Newline, NoNul, Line;
      ghost var quoted, own := PrintString(name), Print(v, depth, fmt);
      LineParts(pre, quoted, own, depth, fmt, last);
      PrintName(name, depth, fmt, pre);
      ghost var text := pre + Indent(depth, fmt) + quoted + Colon(fmt);
      PrintAndUpdate(v, depth, fmt, text);
      ghost var end := (if last then "" else ",") + (if fmt then "\n" else "");
      Append((if last then "" else ",") + (if fmt then "\n" else ""),
          (if fmt then 1 else 0) + (if last then 0 else 1) + 1, text + own);
      EndNoNul(fmt, last);
      NoNulJoin(text + own, end);
    }

    /** The indentation, the name and the colon. */
    method PrintName(name: string, depth: nat, fmt: bool, ghost pre: string)
      requires Text(pre) && CString(name) && NoNul(pre) && |pre| > 0
      requires Room(|pre| + |Indent(depth, fmt)| + |PrintString(name)| + |Colon(fmt)| + 1)
      modifies this, buffer
      ensures Text(pre + Indent(depth, fmt) + PrintString(name) + Colon(fmt))
      ensures NoNul(pre + Indent(depth, fmt) + PrintString(name) + Colon(fmt))
      ensures Grew()
    {
      hide PrintString, Indent, Newline, NoNul;
      ghost var indent, quoted := Indent(depth, fmt), PrintString(name);
      IndentIsTabs(depth, fmt);
      LayoutNoNul(depth, fmt);
      StringNoNul(name);
      NoNulJoin(pre, indent);
      if fmt {
        Append(Tabs(depth), depth, pre);
      } else {
        assert pre + "" == pre;
      }
      var quote := PrintStringPtr(name, pre + indent);
      NoNulJoin(pre + indent, quoted);
      Update(pre + indent, quoted);
      Append(Colon(fmt), if fmt then 2 else 1, pre + indent + quoted);
      NoNulJoin(pre + indent + quoted, Colon(fmt));
    }
  }

  function MemberLine(members: Members, depth: nat, fmt: bool): string
    requires members.Member?
  {
    Line(PrintString(members.name), Print(members.value, depth, fmt), depth, fmt, members.next.NoMember?)
  }

  lemma MemberStep(members: Members, depth: nat, fmt: bool, done: string)
    requires members.Member?
    ensures done + PrintMembers(members, depth, fmt) ==
            done + MemberLine(members, depth, fmt) + PrintMembers(members.next, depth, fmt)
  {
    hide Print, PrintString, Indent, Colon, Newline;
    var own := PrintMember(members.name, members.value, depth, fmt);
    assert own + "" + Newline(fmt) == own + Newline(fmt);
    assert MemberLine(members, depth, fmt) == own + (if members.next.NoMember? then "" else ",") + Newline(fmt);
    assert PrintMembers(members, depth, fmt) ==
           MemberLine(members, depth, fmt) + PrintMembers(members.next, depth, fmt);
  }

  lemma ItemStep(items: Items, depth: nat, fmt: bool, done: string)
    requires items.Item?
    ensures done + PrintItems(items, depth, fmt) ==
            done + Print(items.value, depth, fmt) + (if items.next.NoItem? then "" else Comma(fmt))
                + PrintItems(items.next, depth, fmt)
  {
    hide Print, Comma;
  }

  lemma BracketNoNul()
    ensures NoNul("[")
  {}

  lemma ArrayText(pre: string, items: Items, depth: nat, fmt: bool)
    ensures items.NoItem? ==> Print(Array(items), depth, fmt) == "[]"
    ensures pre + "[" + PrintItems(items, depth + 1, fmt) + "]" == pre + Print(Array(items), depth, fmt)
  {
    hide *;
    var inner := PrintItems(items, depth + 1, fmt);
    Brackets(items, depth, fmt);
    assert pre + ("[" + inner + "]") == pre + "[" + inner + "]";
  }

  lemma Brackets(items: Items, depth: nat, fmt: bool)
    ensures items.NoItem? ==> Print(Array(items), depth, fmt) == "[]"
    ensures Print(Array(items), depth, fmt) == "[" + PrintItems(items, depth + 1, fmt) + "]"
  {}

  lemma ObjectText(pre: string, members: Members, depth: nat, fmt: bool)
    requires members.Member?
    ensures pre + ("{" + Newline(fmt)) + PrintMembers(members, depth + 1, fmt) + (Indent(depth, fmt) + "}") ==
            pre + Print(Object(members), depth, fmt)
  {
    hide PrintMembers, Newline, Indent;
  }

  lemma MarkNoNul(fmt: bool)
    ensures NoNul(Comma(fmt))
  {}

  lemma OpenNoNul(fmt: bool)
    ensures NoNul("{" + Newline(fmt))
  {}

  lemma EndNoNul(fmt: bool, last: bool)
    ensures NoNul((if last then "" else ",") + (if fmt then "\n" else ""))
  {}

  /**
   `cJSON_PrintBuffered`: from any first size the text of the unbuffered print, terminated, at the start of the buffer;
   and the pointer returned is to that start.
   */
  method PrintBuffered(v: Json, prebuffer: nat, fmt: bool) returns (out: array<char>, at: nat)
    requires Printable(v) && 0 < prebuffer <= INT_MAX
    requires |Print(v, 0, fmt)| + 20 <= LIMIT || |Print(v, 0, fmt)| + 20 <= prebuffer
    ensures fresh(out) && Holds(out, Print(v, 0, fmt)) && at == 0
  {
    hide Print;
    var p := new PrintBuffer(prebuffer);
    at := p.PrintValue(v, 0, fmt, "");
    assert "" + Print(v, 0, fmt) == Print(v, 0, fmt);
    out := p.buffer;
  }
}
