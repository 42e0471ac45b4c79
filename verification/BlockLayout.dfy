/** Block strings as the formatter lays them out: one document per template, rendered at
    some indentation, then stripped of trailing white space with the rest of the file. */
module BlockLayout {
  import opened Escapes
  import opened Templates
  import PrettyDoc

  const QUOTES: string := "\"\"\""

  // ----- lines -----

  /** White space as Unicode defines it. */
  predicate IsSpace(c: char) {
    || '\t' <= c <= '\r' || c == ' ' || c == '\U{85}' || c == '\U{A0}' || c == '\U{1680}' || '\U{2000}' <= c <= '\U{200A}'
    || c == '\U{2028}' || c == '\U{2029}' || c == '\U{202F}' || c == '\U{205F}' || c == '\U{3000}'
  }

  function LineEnd(s: string): (k: nat)
    ensures k <= |s| && '\n' !in s[..k] && (k < |s| ==> s[k] == '\n')
  {
    if s == [] || s[0] == '\n' then 0
    else
      var k := LineEnd(s[1..]);
      assert s[..k + 1] == [s[0]] + s[1..][..k];
      1 + k
  }

  function TrimEnd(s: string): string {
    if s != [] && IsSpace(s[|s| - 1]) then TrimEnd(s[..|s| - 1]) else s
  }

  function Strip(s: string): string
    decreases |s|
  {
    var k := LineEnd(s);
    if k == |s| then TrimEnd(s) else TrimEnd(s[..k]) + ("\n" + Strip(s[k + 1..]))
  }

  method TrimLine(line: string) returns (trimmed: string)
    ensures trimmed == TrimEnd(line)
  {
    var n := |line|;
    assert line[..n] == line;
    while n > 0 && IsSpace(line[n - 1])
      invariant 0 <= n <= |line| && TrimEnd(line[..n]) == TrimEnd(line)
    {
      n := n - 1;
      assert line[..n + 1][..n] == line[..n];
    }
    trimmed := line[..n];
  }

  method StripTrailingWhitespace(s: string) returns (out: string)
    ensures out == Strip(s)
  {
    hide LineEnd, Strip, TrimEnd;
    out := "";
    var i := 0;
    var k := LineEnd(s);
    assert s[0..] == s;
    while k < |s|
      invariant 0 <= i <= |s| && i <= k == i + LineEnd(s[i..]) <= |s| && out + Strip(s[i..]) == Strip(s)
      decreases |s| - i
    {
      StripStep(s[i..], out);
      assert s[i..][..k - i] == s[i..k] && s[i..][k - i + 1..] == s[k + 1..];
      var line := TrimLine(s[i..k]);
      out := out + line + "\n";
      i := k + 1;
      k := i + LineEnd(s[i..]);
    }
    StripStep(s[i..], out);
    var line := TrimLine(s[i..]);
    out := out + line;
  }

  lemma StripStep(s: string, out: string)
    ensures var k := LineEnd(s);
            out + Strip(s) == if k == |s| then out + TrimEnd(s) else out + TrimEnd(s[..k]) + "\n" + Strip(s[k + 1..])
  {
    hide Strip, LineEnd, TrimEnd;
    StripUnfolds(s);
    var k := LineEnd(s);
    if k < |s| { Append(out, TrimEnd(s[..k]), "\n", Strip(s[k + 1..])); }
  }

  lemma StripUnfolds(s: string)
    ensures var k := LineEnd(s); Strip(s) == if k == |s| then TrimEnd(s) else TrimEnd(s[..k]) + ("\n" + Strip(s[k + 1..]))
  {
    hide LineEnd, TrimEnd;
  }

  lemma Append(a: string, b: string, c: string, d: string)
    ensures a + (b + (c + d)) == a + b + c + d
  {
  }

  lemma {:induction false} LineEndAt(s: string, n: nat)
    requires n <= |s| && '\n' !in s[..n] && (n < |s| ==> s[n] == '\n')
    ensures LineEnd(s) == n
  {
    if n > 0 {
      assert s[..n][0] == s[0] && s[1..][..n - 1] == s[..n][1..];
      LineEndAt(s[1..], n - 1);
    }
  }

  lemma LineEndIs(line: string, rest: string)
    requires '\n' !in line
    ensures LineEnd(line) == |line| && LineEnd(line + ("\n" + rest)) == |line|
  {
    hide LineEnd;
    var s := line + ("\n" + rest);
    assert line[..|line|] == line && s[..|line|] == line && s[|line|] == '\n';
    LineEndAt(line, |line|);
    LineEndAt(s, |line|);
  }

  lemma StripLine(line: string, rest: string)
    requires '\n' !in line
    ensures Strip(line + ("\n" + rest)) == TrimEnd(line) + ("\n" + Strip(rest))
  {
    LineEndIs(line, rest);
    var s := line + ("\n" + rest);
    assert s[..|line|] == line && s[|line| + 1..] == rest;
  }

  // ----- laid out text -----

  /** Every line break followed by the indentation. */
  function IndentAll(s: string, indent: string): string {
    if s == [] then [] else (if s[0] == '\n' then "\n" + indent else [s[0]]) + IndentAll(s[1..], indent)
  }

  /** The same, but only lines with something on them are indented. `start` says whether
      the text begins a line, `ended` whether the line it ends on has nothing after it. */
  function Indented(s: string, indent: string, start: bool, ended: bool): string {
    if s == [] then (if start && !ended then indent else [])
    else if s[0] == '\n' then "\n" + Indented(s[1..], indent, true, ended)
    else (if start then indent else []) + ([s[0]] + Indented(s[1..], indent, false, ended))
  }

  lemma {:induction false} IndentAllConcat(a: string, b: string, indent: string)
    ensures IndentAll(a + b, indent) == IndentAll(a, indent) + IndentAll(b, indent)
  {
    if a == [] {
      assert a + b == b;
    } else {
      assert (a + b)[1..] == a[1..] + b;
      IndentAllConcat(a[1..], b, indent);
    }
  }

  lemma {:induction false} IndentAllLine(line: string, indent: string)
    requires '\n' !in line
    ensures IndentAll(line, indent) == line
  {
    if line != [] { IndentAllLine(line[1..], indent); }
  }

  lemma {:induction false} EscapedOneLine(s: string)
    ensures '\n' !in Escaped(s, false)
  {
    if s != [] { EscapedOneLine(s[1..]); }
  }

  lemma SplitIndentAll(line: string, rest: string, indent: string)
    requires '\n' !in line
    ensures IndentAll(line + ("\n" + rest), indent) == line + (("\n" + indent) + IndentAll(rest, indent))
  {
    IndentAllConcat(line, "\n" + rest, indent);
    IndentAllLine(line, indent);
    assert ("\n" + rest)[1..] == rest;
  }

  // ----- stripping, character by character -----

  /** Nothing but white space up to the end of the line. */
  predicate Dead(s: string) { s == [] || s[0] == '\n' || (IsSpace(s[0]) && Dead(s[1..])) }

  lemma {:induction false} TrimHead(line: string)
    requires line != [] && '\n' !in line
    ensures TrimEnd(line) == if Dead(line) then [] else [line[0]] + TrimEnd(line[1..])
    ensures Dead(line) ==> TrimEnd(line[1..]) == []
    decreases |line|
  {
    var last := |line| - 1;
    if |line| == 1 {
      assert line[1..] == [] && line[..0] == [] && line == [line[0]];
    } else {
      assert line[1..] != [] && line[1..][0] in line && forall c :: c in line[1..] ==> c in line;
      TrimHead(line[1..]);
      assert line[1..][..last - 1] == line[..last][1..];
      assert forall c :: c in line[..last] ==> c in line;
      TrimHead(line[..last]);
      DeadInit(line);
      assert [line[0]] + line[1..] == line;
    }
  }

  lemma {:induction false} DeadInit(line: string)
    requires line != [] && '\n' !in line
    ensures Dead(line) <==> IsSpace(line[|line| - 1]) && Dead(line[..|line| - 1])
  {
    var last := |line| - 1;
    if last > 0 {
      assert line[0] in line && forall c :: c in line[1..] ==> c in line;
      DeadInit(line[1..]);
      assert line[1..][..last - 1] == line[..last][1..];
    } else {
      assert line[1..] == [] && line[0] in line;
    }
  }

  lemma {:induction false} DeadLine(s: string)
    ensures Dead(s) <==> Dead(s[..LineEnd(s)])
  {
    var k := LineEnd(s);
    if k > 0 {
      assert s[..k][1..] == s[1..][..k - 1];
      DeadLine(s[1..]);
    }
  }

  lemma {:induction false} TrimKeeps(s: string, line: string)
    requires line != [] && TrimEnd(line) == line
    ensures TrimEnd(s + line) == s + line
  {
    if IsSpace(line[|line| - 1]) { TrimShorter(line[..|line| - 1]); }
  }

  lemma {:induction false} TrimShorter(s: string)
    ensures |TrimEnd(s)| <= |s|
  {
    if s != [] && IsSpace(s[|s| - 1]) { TrimShorter(s[..|s| - 1]); }
  }

  lemma NothingTrimmed()
    ensures TrimEnd([]) == []
  {
  }

  lemma StripLast(line: string)
    requires '\n' !in line
    ensures Strip(line) == TrimEnd(line)
  {
    hide TrimEnd;
    LineEndIs(line, []);
  }

  lemma LineBegins(s: string)
    requires s != [] && s[0] != '\n'
    ensures LineEnd(s) > 0
  {
  }

  /** White space with nothing visible behind it on its line goes, and all else stays. */
  lemma StripChar(s: string)
    requires s != []
    ensures Strip(s) == if s[0] == '\n' then "\n" + Strip(s[1..]) else if Dead(s) then Strip(s[1..]) else [s[0]] + Strip(s[1..])
  {
    hide Strip, Dead, TrimEnd, LineEnd, IsSpace;
    var k := LineEnd(s);
    if s[0] == '\n' {
      StripLine([], s[1..]);
      assert [] + ("\n" + s[1..]) == s && TrimEnd([]) == [] by { NothingTrimmed(); }
      assert [] + ("\n" + Strip(s[1..])) == "\n" + Strip(s[1..]);
    } else {
      var line := s[..k];
      LineBegins(s);
      var tail := line[1..];
      assert forall c :: c in tail ==> c in line;
      DeadLine(s);
      TrimHead(line);
      if k == |s| {
        assert line == s;
        StripLast(s);
        StripLast(tail);
      } else {
        var rest := s[k + 1..];
        assert s == line + ("\n" + rest) && s[1..] == tail + ("\n" + rest);
        StripLine(line, rest);
        StripLine(tail, rest);
        KeepsHead(line[0], TrimEnd(tail), "\n" + Strip(rest));
      }
    }
  }

  lemma KeepsHead(c: char, a: string, b: string)
    ensures ([c] + a) + b == [c] + (a + b) && [] + b == b
  {
  }

  lemma {:induction false} StripAlive(c: char, s: string)
    requires c == '\n' || !IsSpace(c) || !Dead(s)
    ensures Strip([c] + s) == [c] + Strip(s)
  {
    hide Strip;
    StripChar([c] + s);
    assert ([c] + s)[1..] == s;
  }

  /** Each space is followed on its line by something. */
  ghost predicate Visible(s: string) {
    s == [] || ((IsSpace(s[0]) && s[0] != '\n' ==> |s| > 1 && s[1] != '\n') && Visible(s[1..]))
  }

  ghost predicate Blank(s: string) { forall c :: c in s ==> IsSpace(c) && c != '\n' }

  lemma {:induction false} StripBlank(indent: string, s: string)
    requires Blank(indent)
    ensures Strip(indent + s) == if Dead(s) then Strip(s) else indent + Strip(s)
    ensures Dead(indent + s) <==> Dead(s)
  {
    hide Strip;
    if indent == [] {
      assert indent + s == s;
    } else {
      assert indent[0] in indent && forall c :: c in indent[1..] ==> c in indent;
      assert (indent + s)[1..] == indent[1..] + s;
      StripBlank(indent[1..], s);
      StripChar(indent + s);
      if !Dead(s) { assert [indent[0]] + (indent[1..] + Strip(s)) == indent + Strip(s); }
    }
  }

  /** A literal run as it goes on: to the end of its line, or to an interpolation. */
  function Stand(ended: bool): string { if ended then [] else "$" }

  ghost predicate Follows(after: string, ended: bool) { after != [] && after[0] == if ended then '\n' else '$' }

  lemma {:induction false} RunDead(e: string, indent: string, after: string, ended: bool)
    requires Visible(e + Stand(ended)) && Follows(after, ended)
    ensures Dead(IndentAll(e, indent) + after) <==> if e == [] then ended else e[0] == '\n'
  {
    var run := e + Stand(ended);
    if e == [] {
      assert IndentAll(e, indent) + after == after;
    } else if e[0] == '\n' {
      assert (IndentAll(e, indent) + after)[0] == '\n';
    } else {
      assert run[1..] == e[1..] + Stand(ended);
      var more := IndentAll(e[1..], indent) + after;
      assert IndentAll(e, indent) + after == [e[0]] + more && ([e[0]] + more)[1..] == more;
      if IsSpace(e[0]) {
        assert run[0] == e[0] && run[1] == run[1..][0];
        RunDead(e[1..], indent, after, ended);
      }
    }
  }

  /** Stripping an indented run leaves the indentation on its non-empty lines only. */
  lemma {:induction false} StripIndented(e: string, indent: string, after: string, start: bool, ended: bool)
    requires Visible(e + Stand(ended)) && Blank(indent) && Follows(after, ended)
    ensures Strip((if start then indent else []) + (IndentAll(e, indent) + after)) == Indented(e, indent, start, ended) + Strip(after)
    decreases |e|, start
  {
    hide Strip, Visible, Dead, IndentAll, Indented, Blank, IsSpace, Follows, Stand;
    if start {
      StripIndented(e, indent, after, false, ended);
      StripStart(e, indent, after, ended);
    } else if e == [] {
      NothingIndented(indent, ended);
      assert [] + ([] + after) == after && [] + Strip(after) == Strip(after);
    } else {
      VisibleTail(e, Stand(ended));
      StripIndented(e[1..], indent, after, e[0] == '\n', ended);
      StripFirst(e, indent, after, ended);
    }
  }

  lemma StripStart(e: string, indent: string, after: string, ended: bool)
    requires Visible(e + Stand(ended)) && Blank(indent) && Follows(after, ended)
    requires Strip([] + (IndentAll(e, indent) + after)) == Indented(e, indent, false, ended) + Strip(after)
    ensures Strip(indent + (IndentAll(e, indent) + after)) == Indented(e, indent, true, ended) + Strip(after)
  {
    hide Strip, Visible, Dead, IndentAll, Indented, Blank, IsSpace, Follows, Stand;
    var text := IndentAll(e, indent) + after;
    assert [] + text == text;
    StripBlank(indent, text);
    RunDead(e, indent, after, ended);
    Starts(e, indent, ended);
    assert indent + (Indented(e, indent, false, ended) + Strip(after)) == (indent + Indented(e, indent, false, ended)) + Strip(after);
  }

  lemma NothingIndented(indent: string, ended: bool)
    ensures Indented([], indent, false, ended) == [] == IndentAll([], indent)
  {
  }

  lemma IndentSteps(e: string, indent: string, ended: bool)
    requires e != []
    ensures IndentAll(e, indent) == (if e[0] == '\n' then "\n" + indent else [e[0]]) + IndentAll(e[1..], indent)
    ensures Indented(e, indent, false, ended) == [e[0]] + Indented(e[1..], indent, e[0] == '\n', ended)
  {
  }

  lemma StripFirst(e: string, indent: string, after: string, ended: bool)
    requires e != [] && Visible(e + Stand(ended)) && Follows(after, ended)
    requires var start := e[0] == '\n';
             Strip((if start then indent else []) + (IndentAll(e[1..], indent) + after)) == Indented(e[1..], indent, start, ended) + Strip(after)
    ensures Strip([] + (IndentAll(e, indent) + after)) == Indented(e, indent, false, ended) + Strip(after)
  {
    hide Strip, Visible, Dead, Indented, IndentAll, IsSpace, Follows, Stand;
    IndentSteps(e, indent, ended);
    var more, text := IndentAll(e[1..], indent) + after, IndentAll(e, indent) + after;
    assert [] + text == text && [] + more == more;
    if e[0] == '\n' {
      assert text == ['\n'] + (indent + more);
      StripAlive('\n', indent + more);
    } else {
      assert text == [e[0]] + more && text[1..] == more;
      RunDead(e, indent, after, ended);
      StripChar(text);
    }
    KeepsHead(e[0], Indented(e[1..], indent, e[0] == '\n', ended), Strip(after));
  }

  lemma VisibleTail(e: string, more: string)
    requires e != [] && Visible(e + more)
    ensures Visible(e[1..] + more)
  {
    assert (e + more)[1..] == e[1..] + more;
  }

  lemma Starts(e: string, indent: string, ended: bool)
    ensures Indented(e, indent, true, ended) ==
            if (if e == [] then ended else e[0] == '\n') then Indented(e, indent, false, ended) else indent + Indented(e, indent, false, ended)
  {
  }

  // ----- interpolated code -----

  /** Is only white space left on this line of the code? */
  predicate DeadCode(ps: seq<Piece>) {
    ps != [] && ps[0].Code? && (ps[0].c == '\n' || (IsSpace(ps[0].c) && DeadCode(ps[1..])))
  }

  /** The code without white space at the ends of its lines. */
  function Tidy(ps: seq<Piece>): seq<Piece>
    decreases ps
  {
    if ps == [] then []
    else if ps[0].Code? && ps[0].c != '\n' && DeadCode(ps) then Tidy(ps[1..])
    else [TidyPiece(ps[0])] + Tidy(ps[1..])
  }

  function TidyPiece(p: Piece): Piece
    decreases p
  {
    match p
    case Code(_) => p
    case Parens(inner) => Parens(Tidy(inner))
    case Quoted(t) => Quoted(TidyHoles(t))
  }

  function TidyHoles(t: Template): Template
    decreases t
  {
    match t
    case End(_) => t
    case More(l, h, r) => More(l, Tidy(h), TidyHoles(r))
  }

  ghost predicate Alive(s: string) { s != [] && !IsSpace(s[0]) }

  lemma {:induction false} CodeDead(ps: seq<Piece>, after: string)
    requires Alive(after)
    ensures Dead(CodeText(ps) + after) <==> DeadCode(ps)
  {
    if ps == [] {
      assert CodeText(ps) + after == after;
    } else {
      var more := CodeText(ps[1..]) + after;
      assert CodeText(ps) + after == PieceText(ps[0]) + more;
      if ps[0].Code? {
        assert ([ps[0].c] + more)[1..] == more;
        CodeDead(ps[1..], after);
      }
    }
  }

  /** Stripping a file tidies the code of its interpolations. */
  lemma {:induction false} StripCode(ps: seq<Piece>, after: string)
    requires Alive(after)
    ensures Strip(CodeText(ps) + after) == CodeText(Tidy(ps)) + Strip(after)
    decreases ps, 1
  {
    hide Strip, Dead, DeadCode, PieceText, TidyPiece, Alive;
    if ps == [] {
      assert CodeText(ps) + after == after && CodeText(Tidy(ps)) + Strip(after) == Strip(after);
    } else {
      hide Tidy;
      var p, more := ps[0], CodeText(ps[1..]) + after;
      assert CodeText(ps) + after == PieceText(p) + more;
      hide CodeText;
      StripCode(ps[1..], after);
      if p.Code? {
        CodeDead(ps, after);
        StripCodeChar(ps, more);
      } else {
        StripPiece(p, more);
        TidyStep(ps);
      }
      if !(p.Code? && p.c != '\n' && DeadCode(ps)) {
        assert PieceText(TidyPiece(p)) + (CodeText(Tidy(ps[1..])) + Strip(after)) == (PieceText(TidyPiece(p)) + CodeText(Tidy(ps[1..]))) + Strip(after);
      }
    }
  }

  lemma StripCodeChar(ps: seq<Piece>, more: string)
    requires ps != [] && ps[0].Code? && (Dead(PieceText(ps[0]) + more) <==> DeadCode(ps))
    ensures var dropped := ps[0].c != '\n' && DeadCode(ps);
            && Strip(PieceText(ps[0]) + more) == (if dropped then [] else PieceText(TidyPiece(ps[0]))) + Strip(more)
            && CodeText(Tidy(ps)) == (if dropped then [] else PieceText(TidyPiece(ps[0]))) + CodeText(Tidy(ps[1..]))
  {
    hide Strip, Dead, DeadCode;
    var c := ps[0].c;
    StripChar([c] + more);
    assert ([c] + more)[1..] == more && [] + Strip(more) == Strip(more);
    if c == '\n' || !DeadCode(ps) { TidyStep(ps); } else { assert [] + CodeText(Tidy(ps[1..])) == CodeText(Tidy(ps[1..])); }
  }

  lemma TidyStep(ps: seq<Piece>)
    requires ps != [] && (ps[0].Code? ==> ps[0].c == '\n' || !DeadCode(ps))
    ensures CodeText(Tidy(ps)) == PieceText(TidyPiece(ps[0])) + CodeText(Tidy(ps[1..]))
  {
    hide DeadCode, TidyPiece;
    var tidied := [TidyPiece(ps[0])] + Tidy(ps[1..]);
    assert tidied[1..] == Tidy(ps[1..]);
  }

  lemma {:induction false} StripPiece(p: Piece, after: string)
    requires !p.Code?
    ensures Strip(PieceText(p) + after) == PieceText(TidyPiece(p)) + Strip(after)
    decreases p, 0
  {
    hide Strip;
    match p
    case Parens(inner) =>
      assert PieceText(p) + after == "(" + (CodeText(inner) + (")" + after));
      StripAlive('(', CodeText(inner) + (")" + after));
      StripCode(inner, ")" + after);
      StripAlive(')', after);
    case Quoted(t) =>
      assert PieceText(p) + after == "\"" + (Body(t, false) + ("\"" + after));
      StripAlive('\"', Body(t, false) + ("\"" + after));
      StripBody(t, "\"" + after);
      StripAlive('\"', after);
  }

  lemma {:induction false} StripBody(t: Template, after: string)
    requires Alive(after)
    ensures Strip(Body(t, false) + after) == Body(TidyHoles(t), false) + Strip(after)
    decreases t, 0
  {
    hide Strip, Escaped, CodeText;
    EscapedOneLine(t.lit);
    match t
    case End(l) => StripRun(Escaped(l, false), after);
    case More(l, h, r) =>
      var more := Body(r, false) + after;
      assert Body(t, false) + after == Escaped(l, false) + (("$(" + (CodeText(h) + ")")) + more);
      StripRun(Escaped(l, false), ("$(" + (CodeText(h) + ")")) + more);
      StripHole(h, more);
      StripBody(r, after);
  }

  lemma StripHole(h: seq<Piece>, after: string)
    ensures Strip(("$(" + (CodeText(h) + ")")) + after) == ("$(" + (CodeText(Tidy(h)) + ")")) + Strip(after)
    decreases h, 2
  {
    hide Strip, CodeText;
    var code := CodeText(h) + (")" + after);
    assert ("$(" + (CodeText(h) + ")")) + after == "$" + ("(" + code);
    StripAlive('$', "(" + code);
    StripAlive('(', code);
    StripCode(h, ")" + after);
    StripAlive(')', after);
  }

  /** Text on one line with something visible behind it stays. */
  lemma {:induction false} StripRun(line: string, after: string)
    requires '\n' !in line && Alive(after)
    ensures Strip(line + after) == line + Strip(after) && !Dead(line + after)
  {
    hide Strip;
    if line == [] {
      assert line + after == after;
    } else {
      var more := line[1..] + after;
      assert line[0] in line && forall c :: c in line[1..] ==> c in line;
      StripRun(line[1..], after);
      assert line + after == [line[0]] + more && ([line[0]] + more)[1..] == more;
      StripAlive(line[0], more);
    }
  }

  /** Tidying keeps what printed templates are made of. */
  lemma {:induction false} TidyGood(t: Template)
    requires GoodHoles(t)
    ensures GoodHoles(TidyHoles(t)) && TidyHoles(t).lit == t.lit && TidyHoles(t).End? == t.End?
    decreases t, 0
  {
    if t.More? {
      TidyGoodPieces(t.hole);
      TidyGood(t.rest);
    }
  }

  lemma {:induction false} TidyGoodPieces(ps: seq<Piece>)
    requires GoodPieces(ps)
    ensures GoodPieces(Tidy(ps))
    ensures ps != [] && !ps[0].Quoted? ==> Tidy(ps) == [] || !Tidy(ps)[0].Quoted?
    decreases ps, 1
  {
    if ps != [] {
      TidyGoodPieces(ps[1..]);
      if !(ps[0].Code? && ps[0].c != '\n' && DeadCode(ps)) {
        TidyGoodPiece(ps[0]);
        assert Tidy(ps)[1..] == Tidy(ps[1..]);
      } else {
        DeadStaysCode(ps[1..]);
      }
    }
  }

  lemma {:induction false} DeadStaysCode(ps: seq<Piece>)
    requires DeadCode(ps)
    ensures Tidy(ps) != [] && Tidy(ps)[0].Code?
  {
    if ps[0].c != '\n' { DeadStaysCode(ps[1..]); }
  }

  lemma {:induction false} TidyGoodPiece(p: Piece)
    requires GoodPiece(p)
    ensures GoodPiece(TidyPiece(p)) && TidyPiece(p).Quoted? == p.Quoted? && (TidyPiece(p) == Quoted(End("")) <==> p == Quoted(End("")))
    decreases p, 0
  {
    match p
    case Code(_) =>
    case Parens(inner) => TidyGoodPieces(inner);
    case Quoted(t) => TidyGood(t);
  }
}
