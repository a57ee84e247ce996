/**
 What minifying does to any text, comments included: a text that it gets through is a row of blanks, comments, literals
 and single characters, and what is left of it is the row without the blanks and the comments. Comments are told here
 by how they are written, not by the functions that look for their ends.
 */
module JsonComments {
  import opened Common
  import opened JsonText
  import opened JsonModel
  import opened JsonParse
  import opened JsonMinify
  import opened JsonMinifyPrint
  import opened JsonMinifyMeaning

  /** A blank, `//` with its line break, `/` and a block that a star opens, a literal, any other character. */
  datatype Part = Blank(c: char) | Line(s: string) | Block(x: string) | Literal(body: string) | Token(c: char)

  function Written(p: Part): string {
    match p
    case Blank(c) => [c]
    case Line(c) => "//" + c + "\n"
    case Block(x) => "/" + x
    case Literal(body) => "\"" + body + "\""
    case Token(c) => [c]
  }

  function Left(p: Part): string {
    match p
    case Literal(_) => Written(p)
    case Token(c) => [c]
    case _ => ""
  }

  /** From the star to the first star and slash, which may share that star. */
  predicate IsBlock(x: string) {
    && |x| >= 2 && x[0] == '*' && x[|x| - 2] == '*' && x[|x| - 1] == '/'
    && forall k | 0 <= k < |x| - 2 :: x[k] != '*' || x[k + 1] != '/'
  }

  /** No quote but behind a backslash, and no backslash at the end. */
  predicate IsBody(body: string) {
    body != "" ==>
      && body[0] != '\"'
      && if body[0] == '\\' then |body| >= 2 && IsBody(body[2..]) else IsBody(body[1..])
  }

  predicate Fits(p: Part, next: string) {
    && NoNul(Written(p))
    && match p
       case Blank(c) => c in " \t\r\n"
       case Line(c) => '\n' !in c
       case Block(x) => IsBlock(x)
       case Literal(body) => IsBody(body)
       case Token(c) => c !in " \t\r\n\"" && (c == '/' ==> next == "" || next[0] !in "/*")
  }

  /** The last line may end in a comment without a line break. */
  predicate IsTail(tail: string) {
    tail == "" || (|tail| >= 2 && tail[0] == '/' && tail[1] == '/' && '\n' !in tail && NoNul(tail))
  }

  function Text(ps: seq<Part>, tail: string): string {
    if ps == [] then tail else Written(ps[0]) + Text(ps[1..], tail)
  }

  predicate Row(ps: seq<Part>, tail: string) {
    if ps == [] then IsTail(tail) else Fits(ps[0], Text(ps[1..], tail)) && Row(ps[1..], tail)
  }

  function AllLeft(ps: seq<Part>): string {
    if ps == [] then "" else Left(ps[0]) + AllLeft(ps[1..])
  }

  // ----- The ends of comments and literals ------------------------------------------------------------------------

  lemma {:induction false} LineEnds(text: string, i: nat, c: string)
    requires Stands(text, i, c) && NoNul(c) && '\n' !in c
    requires At(text, i + |c|) == '\n' || i + |c| == |text|
    ensures i <= |text| && LineEnd(text, i) == i + |c|
    decreases |c|
  {
    hide Stands;
    StandsBounds(text, i, c);
    if c != "" {
      StandsAt(text, i, c, 0);
      assert c == [c[0]] + c[1..];
      StandsSplit(text, i, [c[0]], c[1..]);
      LineEnds(text, i + 1, c[1..]);
    }
  }

  lemma {:induction false} BlockEnds(text: string, i: nat, x: string, k: nat)
    requires Stands(text, i, x) && NoNul(x) && IsBlock(x) && k <= |x| - 2
    ensures i + k <= |text| && CommentEnd(text, i + k) == Some(i + |x| - 2)
    decreases |x| - k
  {
    hide Stands;
    StandsBounds(text, i, x);
    StandsAt(text, i, x, k);
    StandsAt(text, i, x, k + 1);
    if k < |x| - 2 {
      BlockEnds(text, i, x, k + 1);
    }
  }

  lemma {:induction false} BodyEnds(text: string, i: nat, body: string)
    requires Stands(text, i, body + "\"") && NoNul(body) && IsBody(body)
    ensures i <= |text| && StringEnd(text, i) == Some(i + |body| + 1)
    decreases |body|
  {
    hide Stands;
    StandsBounds(text, i, body + "\"");
    StandsAt(text, i, body + "\"", 0);
    if body != "" {
      var n := if body[0] == '\\' then 2 else 1;
      StandsAt(text, i, body + "\"", n - 1);
      assert body + "\"" == body[..n] + (body[n..] + "\"");
      StandsSplit(text, i, body[..n], body[n..] + "\"");
      BodyEnds(text, i + n, body[n..]);
    }
  }

  // ----- A row is minified to what is left of it ------------------------------------------------------------------

  lemma PartGoes(text: string, i: nat, p: Part, rest: string)
    requires Stands(text, i, Written(p) + rest) && i + |Written(p) + rest| == |text| && Fits(p, rest)
    ensures i + |Written(p)| <= |text| && Minified(text, i) == After(Left(p), Minified(text, i + |Written(p)|))
  {
    hide Stands, LineEnd, CommentEnd, StringEnd, IsBody, IsBlock;
    var own := Written(p);
    StandsSplit(text, i, own, rest);
    StandsAt(text, i, own, 0);
    AfterTwice([], [], Minified(text, i + |own|));
    match p
    case Blank(c) =>
    case Token(c) =>
      if c == '/' && rest != "" {
        StandsAt(text, i + 1, rest, 0);
      }
    case Line(c) => LineGoes(text, i, c);
    case Block(x) => BlockGoes(text, i, x);
    case Literal(body) => LiteralStays(text, i, body);
  }

  lemma LineGoes(text: string, i: nat, c: string)
    requires Stands(text, i, Written(Line(c))) && NoNul(Written(Line(c))) && '\n' !in c
    ensures i + |c| + 3 <= |text| && Minified(text, i) == Minified(text, i + |c| + 3)
  {
    hide Stands;
    var own := "//" + c + "\n";
    StandsBounds(text, i, own);
    StandsAt(text, i, own, 0);
    StandsAt(text, i, own, 1);
    StandsAt(text, i, own, |c| + 2);
    NoNulJoin("//" + c, "\n");
    StandsSplit(text, i, "//" + c, "\n");
    LineEnds(text, i, "//" + c);
  }

  lemma BlockGoes(text: string, i: nat, x: string)
    requires Stands(text, i, "/" + x) && NoNul("/" + x) && IsBlock(x)
    ensures i + |x| + 1 <= |text| && Minified(text, i) == Minified(text, i + |x| + 1)
  {
    hide Stands;
    StandsBounds(text, i, "/" + x);
    StandsAt(text, i, "/" + x, 0);
    StandsAt(text, i, "/" + x, 1);
    StandsSplit(text, i, "/", x);
    NoNulJoin("/", x);
    BlockEnds(text, i + 1, x, 0);
  }

  lemma LiteralStays(text: string, i: nat, body: string)
    requires Stands(text, i, Written(Literal(body))) && NoNul(Written(Literal(body))) && IsBody(body)
    ensures var own := Written(Literal(body));
            i + |own| <= |text| && Minified(text, i) == After(own, Minified(text, i + |own|))
  {
    var own := "\"" + body + "\"";
    assert own == "\"" + (body + "\"");
    NoNulJoin("\"", body + "\"");
    NoNulJoin(body, "\"");
    StandsAt(text, i, own, 0);
    StandsSplit(text, i, "\"", body + "\"");
    BodyEnds(text, i + 1, body);
  }

  lemma {:induction false} RowGoes(text: string, i: nat, ps: seq<Part>, tail: string)
    requires Row(ps, tail) && Stands(text, i, Text(ps, tail)) && i + |Text(ps, tail)| == |text|
    ensures i <= |text| && Minified(text, i) == Some(AllLeft(ps))
    decreases |ps|
  {
    hide Stands, Fits, Minified, Written, Left;
    if ps == [] {
      TailGoes(text, i, tail);
    } else {
      var rest := Text(ps[1..], tail);
      StandsSplit(text, i, Written(ps[0]), rest);
      PartGoes(text, i, ps[0], rest);
      RowGoes(text, i + |Written(ps[0])|, ps[1..], tail);
    }
  }

  lemma TailGoes(text: string, i: nat, tail: string)
    requires IsTail(tail) && Stands(text, i, tail) && i + |tail| == |text|
    ensures i <= |text| && Minified(text, i) == Some("")
  {
    hide Stands;
    if tail != "" {
      StandsAt(text, i, tail, 0);
      StandsAt(text, i, tail, 1);
      LineEnds(text, i, tail);
    }
  }

  /** A row of parts is minified to the row without its blanks and comments. */
  lemma MinifiedRow(ps: seq<Part>, tail: string)
    requires Row(ps, tail)
    ensures Minified(Text(ps, tail), 0) == Some(AllLeft(ps))
  {
    hide Row, Minified, AllLeft;
    var text := Text(ps, tail);
    assert text[0..0 + |text|] == text;
    RowGoes(text, 0, ps, tail);
  }

  // ----- And nothing else is minified -----------------------------------------------------------------------------

  lemma {:induction false} LineBefore(text: string, i: nat)
    requires i <= |text| && NoNul(text)
    ensures var j := LineEnd(text, i);
            '\n' !in text[i..j] && (j == |text| || text[j] == '\n')
    decreases |text| - i
  {
    if i < |text| && text[i] != '\n' {
      LineBefore(text, i + 1);
      var j := LineEnd(text, i + 1);
      assert text[i..j] == [text[i]] + text[i + 1..j];
    }
  }

  /** No star and slash stand before the end that is found. */
  lemma {:induction false} BlockBefore(text: string, i: nat)
    requires i <= |text| && CommentEnd(text, i).Some?
    ensures var j := CommentEnd(text, i).value;
            && text[j] == '*' && text[j + 1] == '/'
            && forall k | i <= k < j :: text[k] != '*' || text[k + 1] != '/'
    decreases |text| - i
  {
    if !(At(text, i) == '*' && At(text, i + 1) == '/') {
      BlockBefore(text, i + 1);
    }
  }

  lemma {:induction false} BodyBefore(text: string, i: nat)
    requires i <= |text| && StringEnd(text, i).Some?
    ensures var j := StringEnd(text, i).value;
            IsBody(text[i..j - 1]) && text[j - 1] == '\"'
    decreases |text| - i
  {
    var j := StringEnd(text, i).value;
    if At(text, i) != '\"' {
      var n := if At(text, i) == '\\' then 2 else 1;
      BodyBefore(text, i + n);
      assert text[i..j - 1][n..] == text[i + n..j - 1];
    }
  }

  /** The part that a text begins with. */
  lemma FirstPart(text: string, i: nat) returns (p: Part)
    requires i < |text| && NoNul(text) && Minified(text, i).Some?
    requires !(text[i] == '/' && At(text, i + 1) == '/' && LineEnd(text, i) == |text|)
    ensures i + |Written(p)| <= |text| && text[i..] == Written(p) + text[i + |Written(p)|..]
    ensures Fits(p, text[i + |Written(p)|..]) && Minified(text, i + |Written(p)|).Some?
  {
    hide Minified, LineEnd, Fits, Written, NoNul;
    if text[i] == '/' && At(text, i + 1) == '/' {
      p := LinePart(text, i);
    } else if text[i] == '/' && At(text, i + 1) == '*' {
      p := BlockPart(text, i);
    } else if text[i] == '\"' {
      p := LiteralPart(text, i);
    } else {
      p := ShortPart(text, i);
    }
  }

  lemma LiteralPart(text: string, i: nat) returns (p: Part)
    requires i < |text| && NoNul(text) && text[i] == '\"' && Minified(text, i).Some?
    ensures i + |Written(p)| <= |text| && text[i..] == Written(p) + text[i + |Written(p)|..]
    ensures Fits(p, text[i + |Written(p)|..]) && Minified(text, i + |Written(p)|).Some?
  {
    hide StringEnd, IsBody;
    BodyBefore(text, i + 1);
    var j := StringEnd(text, i + 1).value;
    p := Literal(text[i + 1..j - 1]);
    assert text[i..j] == Written(p);
  }

  lemma ShortPart(text: string, i: nat) returns (p: Part)
    requires i < |text| && NoNul(text) && text[i] != '\"' && Minified(text, i).Some?
    requires text[i] == '/' ==> At(text, i + 1) != '/' && At(text, i + 1) != '*'
    ensures i + |Written(p)| <= |text| && text[i..] == Written(p) + text[i + |Written(p)|..]
    ensures Fits(p, text[i + |Written(p)|..]) && Minified(text, i + |Written(p)|).Some?
  {
    hide LineEnd, CommentEnd, StringEnd, IsBody, IsBlock;
    p := if IsBlank(text[i]) then Blank(text[i]) else Token(text[i]);
    assert Written(p) == [text[i]];
    assert text[i..] == [text[i]] + text[i + 1..];
    assert text[i + 1..] != "" ==> text[i + 1..][0] == At(text, i + 1);
  }

  lemma LinePart(text: string, i: nat) returns (p: Part)
    requires i + 1 < |text| && NoNul(text) && text[i] == '/' && text[i + 1] == '/' && LineEnd(text, i) < |text|
    requires Minified(text, i).Some?
    ensures i + |Written(p)| <= |text| && text[i..] == Written(p) + text[i + |Written(p)|..]
    ensures Fits(p, text[i + |Written(p)|..]) && Minified(text, i + |Written(p)|).Some?
  {
    hide Minified, LineEnd, Fits, Written, NoNul;
    LineBefore(text, i);
    var j := LineEnd(text, i);
    LineIsLong(text, i);
    p := Line(text[i + 2..j]);
    LineFits(text, i, j);
    PartAt(text, i, j + 1, p);
    NoNulAt(text, i);
    NoNulAt(text, j);
    MinifyRound(text, i, "");
    MinifyRound(text, j, "");
  }

  lemma NoNulAt(text: string, i: nat)
    requires NoNul(text) && i < |text|
    ensures text[i] != NUL
  {}

  lemma LineIsLong(text: string, i: nat)
    requires i + 1 < |text| && text[i] == '/' && text[i + 1] == '/'
    ensures LineEnd(text, i) >= i + 2
  {
    assert LineEnd(text, i) == LineEnd(text, i + 1) == LineEnd(text, i + 2);
  }

  lemma NoNulPart(text: string, i: nat, j: nat)
    requires NoNul(text) && i <= j <= |text|
    ensures NoNul(text[i..j])
  {}

  lemma LineFits(text: string, i: nat, j: nat)
    requires NoNul(text) && i + 2 <= j < |text| && text[i] == '/' && text[i + 1] == '/' && text[j] == '\n'
    requires '\n' !in text[i..j]
    ensures var p := Line(text[i + 2..j]);
            text[i..j + 1] == Written(p) && forall next :: Fits(p, next)
  {
    hide NoNul;
    LineWritten(text, i, j);
    NoNulPart(text, i, j + 1);
    NotInPart(text, i, i + 2, j, '\n');
  }

  lemma LineWritten(text: string, i: nat, j: nat)
    requires i + 2 <= j < |text| && text[i] == '/' && text[i + 1] == '/' && text[j] == '\n'
    ensures text[i..j + 1] == Written(Line(text[i + 2..j]))
  {
    assert text[i..i + 2] == "//" && text[j..j + 1] == "\n";
    assert text[i..j + 1] == text[i..i + 2] + text[i + 2..j] + text[j..j + 1];
  }

  lemma NotInPart(text: string, i: nat, at: nat, j: nat, c: char)
    requires i <= at <= j <= |text| && c !in text[i..j]
    ensures c !in text[at..j]
  {
    forall k | 0 <= k < |text[at..j]|
      ensures text[at..j][k] != c
    {
      assert text[at..j][k] == text[i..j][k + (at - i)];
    }
  }

  /** A part that stands at i, and what follows it. */
  lemma PartAt(text: string, i: nat, j: nat, p: Part)
    requires i <= j <= |text| && text[i..j] == Written(p)
    ensures i + |Written(p)| == j && text[i..] == Written(p) + text[j..]
  {
    hide Written;
    assert text[i..] == text[i..j] + text[j..];
  }

  lemma BlockPart(text: string, i: nat) returns (p: Part)
    requires i + 1 < |text| && NoNul(text) && text[i] == '/' && text[i + 1] == '*' && Minified(text, i).Some?
    ensures i + |Written(p)| <= |text| && text[i..] == Written(p) + text[i + |Written(p)|..]
    ensures Fits(p, text[i + |Written(p)|..]) && Minified(text, i + |Written(p)|).Some?
  {
    hide Minified, CommentEnd, Fits, Written, NoNul;
    NoNulAt(text, i);
    MinifyRound(text, i, "");
    BlockBefore(text, i);
    var j := CommentEnd(text, i).value;
    p := Block(text[i + 1..j + 2]);
    BlockFits(text, i, j);
    PartAt(text, i, j + 2, p);
  }

  lemma BlockFits(text: string, i: nat, j: nat)
    requires NoNul(text) && i <= j && j + 1 < |text| && i + 1 < |text| && text[i] == '/' && text[i + 1] == '*'
    requires text[j] == '*' && text[j + 1] == '/' && forall k | i <= k < j :: text[k] != '*' || text[k + 1] != '/'
    ensures var p := Block(text[i + 1..j + 2]);
            text[i..j + 2] == Written(p) && forall next :: Fits(p, next)
  {
    var x := text[i + 1..j + 2];
    assert text[i..j + 2] == Written(Block(x));
    NoNulPart(text, i, j + 2);
    hide NoNul;
    forall k | 0 <= k < |x| - 2
      ensures x[k] != '*' || x[k + 1] != '/'
    {
      assert x[k] == text[i + 1 + k] && x[k + 1] == text[i + 1 + k + 1];
    }
  }

  /** Whatever text minifying gets through is such a row. */
  lemma {:induction false} MinifiedIsRow(text: string, i: nat) returns (ps: seq<Part>, tail: string)
    requires i <= |text| && NoNul(text) && Minified(text, i).Some?
    ensures Row(ps, tail) && Text(ps, tail) == text[i..]
    decreases |text| - i
  {
    hide *;
    ps, tail := [], "";
    if i == |text| {
      EmptyRow("");
    } else if text[i] == '/' && At(text, i + 1) == '/' && LineEnd(text, i) == |text| {
      tail := text[i..];
      LastLine(text, i);
      EmptyRow(tail);
    } else {
      var p := FirstPart(text, i);
      WrittenSome(p);
      var rest;
      rest, tail := MinifiedIsRow(text, i + |Written(p)|);
      ps := [p] + rest;
      RowCons(p, rest, tail);
    }
  }

  lemma EmptyRow(tail: string)
    ensures Row([], tail) <==> IsTail(tail)
    ensures Text([], tail) == tail && IsTail("")
  {}

  lemma WrittenSome(p: Part)
    ensures Written(p) != ""
  {}

  lemma RowCons(p: Part, rest: seq<Part>, tail: string)
    requires Fits(p, Text(rest, tail)) && Row(rest, tail)
    ensures Row([p] + rest, tail) && Text([p] + rest, tail) == Written(p) + Text(rest, tail)
  {
    hide Fits, Written;
    assert ([p] + rest)[1..] == rest;
  }

  lemma LastLine(text: string, i: nat)
    requires i < |text| && NoNul(text) && text[i] == '/' && At(text, i + 1) == '/' && LineEnd(text, i) == |text|
    ensures IsTail(text[i..])
  {
    LineBefore(text, i);
  }

  // ----- Comments are white space ---------------------------------------------------------------------------------

  lemma {:induction false} TextJoin(ps: seq<Part>, qs: seq<Part>, tail: string)
    ensures Text(ps + qs, tail) == Text(ps, "") + Text(qs, tail) && AllLeft(ps + qs) == AllLeft(ps) + AllLeft(qs)
    decreases |ps|
  {
    hide Written, Left;
    if ps == [] {
      assert ps + qs == qs;
    } else {
      assert (ps + qs)[1..] == ps[1..] + qs;
      TextJoin(ps[1..], qs, tail);
      Regroup(Written(ps[0]), Text(ps[1..], ""), Text(qs, tail));
      Regroup(Left(ps[0]), AllLeft(ps[1..]), AllLeft(qs));
    }
  }

  lemma Regroup(a: string, b: string, c: string)
    ensures a + (b + c) == (a + b) + c
  {}

  lemma {:induction false} GapFits(ps: seq<Part>, gap: Part, qs: seq<Part>, tail: string)
    requires Row(ps + qs, tail) && !gap.Literal? && !gap.Token? && Fits(gap, Text(qs, tail))
    requires ps == [] || ps[|ps| - 1] != Token('/')
    ensures Row(ps + [gap] + qs, tail)
    decreases |ps|
  {
    hide *;
    if ps == [] {
      assert ps + qs == qs && ps + [gap] + qs == [gap] + qs;
      RowCons(gap, qs, tail);
    } else {
      var p, rest := ps[0], ps[1..];
      assert ps + qs == [p] + (rest + qs) && ps + [gap] + qs == [p] + (rest + [gap] + qs);
      assert rest != [] ==> rest[|rest| - 1] == ps[|ps| - 1];
      RowUncons(p, rest + qs, tail);
      GapFits(rest, gap, qs, tail);
      NextBefore(rest, gap, qs, tail);
      FitsAlike(p, Text(rest + qs, tail), Text(rest + [gap] + qs, tail));
      RowCons(p, rest + [gap] + qs, tail);
    }
  }

  lemma RowUncons(p: Part, rest: seq<Part>, tail: string)
    requires Row([p] + rest, tail)
    ensures Fits(p, Text(rest, tail)) && Row(rest, tail)
  {
    hide Fits;
    assert ([p] + rest)[1..] == rest;
  }

  lemma FitsAlike(p: Part, next: string, next': string)
    requires Fits(p, next) && (p != Token('/') || (next != "" && next' != "" && next'[0] == next[0]))
    ensures Fits(p, next')
  {}

  /** What comes next begins as before, or it is the gap. */
  lemma NextBefore(ps: seq<Part>, gap: Part, qs: seq<Part>, tail: string)
    ensures ps != [] ==> Text(ps + [gap] + qs, tail) != "" && Text(ps + qs, tail) != ""
                         && Text(ps + [gap] + qs, tail)[0] == Text(ps + qs, tail)[0]
  {
    if ps != [] {
      assert ps + [gap] + qs == [ps[0]] + (ps[1..] + [gap] + qs) && ps + qs == [ps[0]] + (ps[1..] + qs);
      assert Written(ps[0]) != "";
    }
  }

  /** Putting a blank or a comment between two parts changes nothing. */
  lemma GapsAreNothing(ps: seq<Part>, gap: Part, qs: seq<Part>, tail: string)
    requires Row(ps + qs, tail) && !gap.Literal? && !gap.Token? && Fits(gap, Text(qs, tail))
    requires ps == [] || ps[|ps| - 1] != Token('/')
    ensures var a, b := Text(ps, ""), Text(qs, tail);
            Minified(a + Written(gap) + b, 0) == Minified(a + b, 0) == Some(AllLeft(ps + qs))
  {
    hide Row, Text, Minified, Fits, AllLeft;
    GapFits(ps, gap, qs, tail);
    MinifiedRow(ps + [gap] + qs, tail);
    MinifiedRow(ps + qs, tail);
    TextJoin(ps, qs, tail);
    TextJoin(ps + [gap], qs, tail);
    TextJoin(ps, [gap], "");
    GapAlone(gap);
    assert AllLeft(ps) + "" == AllLeft(ps);
  }

  lemma GapAlone(gap: Part)
    requires !gap.Literal? && !gap.Token?
    ensures Text([gap], "") == Written(gap) && AllLeft([gap]) == ""
  {
    assert Written(gap) + "" == Written(gap);
  }

  /**
   Two texts with the same literals and characters, whatever blanks and comments stand between them: if one is accepted
   to its end, what is left of the other is accepted to its end as the same tree.
   */
  lemma CommentsKeepMeaning(ps: seq<Part>, tail: string, qs: seq<Part>, tail': string, v: Json)
    requires Row(ps, tail) && Row(qs, tail') && AllLeft(ps) == AllLeft(qs)
    requires ParseText(Text(qs, tail'), true).Parsed? && ParseText(Text(qs, tail'), true).value == v
    ensures Minified(Text(ps, tail), 0).Some?
    ensures ParseText(Minified(Text(ps, tail), 0).value, true) == Parsed(v, |Minified(Text(ps, tail), 0).value|)
  {
    hide Row, Text, Minified, AllLeft, ParseText;
    MinifiedRow(ps, tail);
    MinifiedRow(qs, tail');
    MinifyKeepsMeaning(Text(qs, tail'), v);
  }

  /** In place: a buffer with comments between the tokens of an accepted text is left with an accepted text. */
  method MinifyCommented(json: array<char>, ghost ps: seq<Part>, ghost tail: string, ghost qs: seq<Part>,
                         ghost tail': string, ghost v: Json)
    returns (ghost kept: string)
    requires Row(ps, tail) && Row(qs, tail') && AllLeft(ps) == AllLeft(qs)
    requires ParseText(Text(qs, tail'), true).Parsed? && ParseText(Text(qs, tail'), true).value == v
    requires NoNul(Text(ps, tail)) && Unread(json, Text(ps, tail), 0)
    modifies json
    ensures kept == AllLeft(ps) && |kept| < json.Length && json[..|kept|] == kept && json[|kept|] == NUL
    ensures ParseText(kept, true) == Parsed(v, |kept|)
  {
    hide Row, Text, Minified, AllLeft, ParseText;
    MinifiedRow(ps, tail);
    CommentsKeepMeaning(ps, tail, qs, tail', v);
    kept := AllLeft(ps);
    Minify(json, Text(ps, tail));
  }

  /** An input: a comment that the star of its opening closes. What was meant to be inside it is left. */
  lemma ShortBlock()
    ensures Minified("1/*/2", 0) == Some("12")
  {
    var ps := [Token('1'), Block("*/"), Token('2')];
    assert ps[1..] == [Block("*/"), Token('2')] && ps[1..][1..] == [Token('2')] && ps[1..][1..][1..] == [];
    assert Text(ps, "") == "1/*/2" && AllLeft(ps) == "12";
    MinifiedRow(ps, "");
  }
}
