/**
 Minifying in place. The function says what is kept of a text; the method does it with a read and a write cursor in one
 buffer; and the formatted text of a tree becomes exactly its unformatted text.
 */
module JsonMinify {
  import opened Common
  import opened JsonText

  predicate IsBlank(c: char) { c == ' ' || c == '\t' || c == '\r' || c == '\n' }

  /** The end of the line, or of the text. */
  function LineEnd(text: string, i: nat): (j: nat)
    requires i <= |text|
    ensures i <= j <= |text| && (At(text, i) != NUL && At(text, i) != '\n' ==> i < j)
    decreases |text| - i
  {
    if At(text, i) == NUL || At(text, i) == '\n' then i else LineEnd(text, i + 1)
  }

  /** The position of the first asterisk and slash, if there is one. */
  function CommentEnd(text: string, i: nat): (j: Option<nat>)
    requires i <= |text|
    ensures j.Some? ==> i <= j.value && j.value + 2 <= |text|
    decreases |text| - i
  {
    if At(text, i) == NUL then None
    else if At(text, i) == '*' && At(text, i + 1) == '/' then Some(i)
    else CommentEnd(text, i + 1)
  }

  /** The position after the closing quote, for a position inside a string. */
  function StringEnd(text: string, i: nat): (j: Option<nat>)
    requires i <= |text|
    ensures j.Some? ==> i < j.value <= |text|
    decreases |text| - i
  {
    if At(text, i) == NUL then None
    else if At(text, i) == '\"' then Some(i + 1)
    else if At(text, i) != '\\' then StringEnd(text, i + 1)
    else if At(text, i + 1) == NUL then None
    else StringEnd(text, i + 2)
  }

  function After(s: string, r: Option<string>): Option<string> {
    if r.Some? then Some(s + r.value) else None
  }

  /**
   What is kept from position i on; None if a string or a comment is cut short, so that the cursor leaves the text.
   */
  function Minified(text: string, i: nat): (r: Option<string>)
    requires i <= |text|
    ensures r.Some? ==> |r.value| <= |text| - i
    decreases |text| - i
  {
    var c := At(text, i);
    if c == NUL then Some("")
    else if IsBlank(c) then Minified(text, i + 1)
    else if c == '/' && At(text, i + 1) == '/' then Minified(text, LineEnd(text, i))
    else if c == '/' && At(text, i + 1) == '*' then
      var end := CommentEnd(text, i);
      if end.Some? then Minified(text, end.value + 2) else None
    else if c == '\"' then
      var end := StringEnd(text, i + 1);
      if end.Some? then After(text[i..end.value], Minified(text, end.value)) else None
    else After([c], Minified(text, i + 1))
  }

  lemma AfterTwice(a: string, b: string, r: Option<string>)
    ensures After([], r) == r && After(a, After(b, r)) == After(a + b, r)
  {
    if r.Some? {
      assert [] + r.value == r.value;
      assert a + (b + r.value) == (a + b) + r.value;
    }
  }

  lemma AfterNothing(s: string)
    ensures After(s, Some("")) == Some(s)
  {
    assert s + "" == s;
  }

  // ----- In place -----------------------------------------------------------------------------------------

  /** The buffer still holds the text, terminator included, from the read cursor on. */
  ghost predicate Unread(json: array<char>, text: string, i: nat)
    reads json
  {
    |text| < json.Length && i <= |text| && json[i..|text|] == text[i..] && json[|text|] == NUL
  }

  lemma ReadsText(json: array<char>, text: string, i: nat, k: nat)
    requires Unread(json, text, i) && i <= k <= |text|
    ensures json[k] == At(text, k) && Unread(json, text, k)
    ensures k < |text| ==> json[k + 1] == At(text, k + 1)
  {
    if k < |text| {
      assert json[k] == json[i..|text|][k - i] == text[i..][k - i];
    }
    if k + 1 < |text| {
      assert json[k + 1] == json[i..|text|][k + 1 - i] == text[i..][k + 1 - i];
    }
    assert json[k..|text|] == json[i..|text|][k - i..] == text[i..][k - i..] == text[k..];
  }

  /** One character copied to the write cursor, which is not past the read cursor. */
  method Copy(json: array<char>, ghost text: string, into: nat, i: nat)
    requires Unread(json, text, i) && into <= i < |text|
    modifies json
    ensures Unread(json, text, i + 1) && json[..into + 1] == old(json[..into]) + [text[i]]
    ensures json[|text| + 1..] == old(json[|text| + 1..])
  {
    ReadsText(json, text, i, i);
    ReadsText(json, text, i, i + 1);
    json[into] := json[i];
  }

  /** One more character of a literal that starts at `from`. */
  method CopyNext(json: array<char>, ghost text: string, into: nat, i: nat, ghost kept: string, ghost from: nat)
    requires Unread(json, text, i) && into <= i < |text| && from <= i && json[..into] == kept + text[from..i]
    modifies json
    ensures Unread(json, text, i + 1) && json[..into + 1] == kept + text[from..i + 1]
    ensures json[|text| + 1..] == old(json[|text| + 1..])
  {
    hide Unread;
    assert text[from..i + 1] == text[from..i] + [text[i]];
    Copy(json, text, into, i);
  }

  /** The next character of a literal, with the one that escapes it. */
  method CopyEscaped(json: array<char>, ghost text: string, into: nat, i: nat, ghost kept: string, ghost from: nat)
    returns (into': nat, i': nat)
    requires Unread(json, text, i) && into <= i < |text| && from <= i && json[..into] == kept + text[from..i]
    requires text[i] == '\\' ==> i + 1 < |text|
    modifies json
    ensures i' == (if text[i] == '\\' then i + 2 else i + 1) && into' - into == i' - i
    ensures Unread(json, text, i') && json[..into'] == kept + text[from..i']
    ensures json[|text| + 1..] == old(json[|text| + 1..])
  {
    into', i' := into, i;
    ReadsText(json, text, i, i);
    hide Unread;
    if json[i] == '\\' {
      CopyNext(json, text, into, i, kept, from);
      into', i' := into + 1, i + 1;
    }
    CopyNext(json, text, into', i', kept, from);
    into', i' := into' + 1, i' + 1;
  }

  /** Copies a string literal, from its opening to its closing quote. */
  method CopyString(json: array<char>, ghost text: string, start: nat, from: nat) returns (into: nat, i: nat)
    requires NoNul(text) && Unread(json, text, from) && start <= from < |text| && text[from] == '\"'
    requires StringEnd(text, from + 1).Some?
    modifies json
    ensures i == StringEnd(text, from + 1).value && into == start + (i - from) && Unread(json, text, i)
    ensures json[..into] == old(json[..start]) + text[from..i]
    ensures json[|text| + 1..] == old(json[|text| + 1..])
  {
    ghost var kept, tail := json[..start], json[|text| + 1..];
    assert kept + text[from..from] == kept;
    CopyNext(json, text, start, from, kept, from);
    into, i := start + 1, from + 1;
    ReadsText(json, text, i, i);
    while json[i] != NUL && json[i] != '\"'
      invariant from < i <= |text| && into == start + (i - from)
      invariant Unread(json, text, i) && json[i] == At(text, i)
      invariant json[..into] == kept + text[from..i] && json[|text| + 1..] == tail
      invariant StringEnd(text, i) == StringEnd(text, from + 1)
      decreases |text| - i
    {
      into, i := CopyEscaped(json, text, into, i, kept, from);
      ReadsText(json, text, i, i);
    }
    CopyNext(json, text, into, i, kept, from);
    into, i := into + 1, i + 1;
  }

  /** One round of the loop: what goes on from position i, after what is kept of it. */
  lemma MinifyRound(text: string, i: nat, was: string)
    requires i < |text| && text[i] != NUL && Minified(text, i).Some?
    ensures var c := text[i];
            if IsBlank(c) then Minified(text, i) == Minified(text, i + 1)
            else if c == '/' && At(text, i + 1) == '/' then Minified(text, i) == Minified(text, LineEnd(text, i))
            else if c == '/' && At(text, i + 1) == '*' then
              var end := CommentEnd(text, i);
              end.Some? && Minified(text, i) == Minified(text, end.value + 2)
            else if c == '\"' then
              var end := StringEnd(text, i + 1);
              end.Some? && After(was, Minified(text, i)) == After(was + text[i..end.value], Minified(text, end.value))
            else After(was, Minified(text, i)) == After(was + [c], Minified(text, i + 1))
  {
    hide StringEnd, CommentEnd, LineEnd, After;
    if text[i] == '\"' {
      var end := StringEnd(text, i + 1);
      if end.Some? {
        AfterTwice(was, text[i..end.value], Minified(text, end.value));
      }
    } else {
      AfterTwice(was, [text[i]], Minified(text, i + 1));
    }
  }

  method Minify(json: array<char>, ghost text: string)
    requires NoNul(text) && Unread(json, text, 0) && Minified(text, 0).Some?
    modifies json
    ensures var r := Minified(text, 0).value;
            |r| <= |text| && json[..|r|] == r && json[|r|] == NUL
    ensures json[|text| + 1..] == old(json[|text| + 1..])
  {
    hide StringEnd, CommentEnd, LineEnd, NoNul, Minified;
    ghost var tail := json[|text| + 1..];
    var into, i := 0, 0;
    AfterTwice([], [], Minified(text, 0));
    ReadsText(json, text, 0, 0);
    while json[i] != NUL
      invariant 0 <= into <= i <= |text| && Unread(json, text, i) && json[i] == At(text, i)
      invariant json[|text| + 1..] == tail
      invariant Minified(text, 0) == After(json[..into], Minified(text, i))
      decreases |text| - i
    {
      ReadsText(json, text, i, i);
      MinifyRound(text, i, json[..into]);
      if IsBlank(json[i]) {
        i := i + 1;
      } else if json[i] == '/' && json[i + 1] == '/' {
        i := SkipLine(json, text, i);
      } else if json[i] == '/' && json[i + 1] == '*' {
        i := SkipComment(json, text, i);
        i := i + 2;
      } else if json[i] == '\"' {
        into, i := CopyString(json, text, into, i);
      } else {
        Copy(json, text, into, i);
        into, i := into + 1, i + 1;
      }
      ReadsText(json, text, i, i);
    }
    ghost var kept := json[..into];
    MinifiedEnd(text, i);
    AfterNothing(kept);
    json[into] := NUL;
    assert json[..into] == kept;
  }

  lemma MinifiedEnd(text: string, i: nat)
    requires i <= |text| && At(text, i) == NUL
    ensures Minified(text, i) == Some("")
  {}

  method SkipLine(json: array<char>, ghost text: string, from: nat) returns (i: nat)
    requires Unread(json, text, from)
    ensures i == LineEnd(text, from) && Unread(json, text, i)
  {
    i := from;
    ReadsText(json, text, i, i);
    while json[i] != NUL && json[i] != '\n'
      invariant from <= i <= |text| && Unread(json, text, i) && json[i] == At(text, i)
      invariant LineEnd(text, i) == LineEnd(text, from)
      decreases |text| - i
    {
      ReadsText(json, text, i, i + 1);
      i := i + 1;
    }
  }

  method SkipComment(json: array<char>, ghost text: string, from: nat) returns (i: nat)
    requires NoNul(text) && Unread(json, text, from) && CommentEnd(text, from).Some?
    ensures i == CommentEnd(text, from).value && Unread(json, text, i + 2)
  {
    i := from;
    ReadsText(json, text, i, i);
    while json[i] != NUL && !(json[i] == '*' && json[i + 1] == '/')
      invariant from <= i < |text| && Unread(json, text, i) && json[i] == At(text, i) && json[i + 1] == At(text, i + 1)
      invariant CommentEnd(text, i) == CommentEnd(text, from)
      decreases |text| - i
    {
      ReadsText(json, text, i, i + 1);
      i := i + 1;
    }
    ReadsText(json, text, i, i + 2);
  }
}
