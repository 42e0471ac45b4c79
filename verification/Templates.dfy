/** Printed string templates, and the proof that the tokenizer finds in them exactly their
    literal portions and interpolations, however deeply they nest. */
module Templates {
  import opened Wrappers
  import opened Escapes
  import opened StringTokens

  /** The code of an interpolation: plain characters, parentheses and nested strings. */
  datatype Piece = Code(c: char) | Parens(inner: seq<Piece>) | Quoted(template: Template)

  datatype Template = End(lit: string) | More(lit: string, hole: seq<Piece>, rest: Template)

  /** Characters of names, numbers, operators, brackets and white space, line breaks included.
      Quotes, parentheses, `#`, `$`, backquotes and backslashes are not among them. */
  predicate CodeChar(c: char) {
    || 'a' <= c <= 'z' || 'A' <= c <= 'Z' || '0' <= c <= '9' || '*' <= c <= '/' || ':' <= c <= '@'
    || c in " \n\t_!%&[]^{|}~"
  }

  // ----- printing -----

  /** A literal run: as it stands in a block string already laid out, or escaped. */
  function Lit(s: string, raw: bool): string { if raw then s else Escaped(s, false) }

  function Body(t: Template, raw: bool): string
    decreases t
  {
    match t
    case End(l) => Lit(l, raw)
    case More(l, h, r) => Lit(l, raw) + ("$(" + (CodeText(h) + (")" + Body(r, raw))))
  }

  function CodeText(ps: seq<Piece>): string
    decreases ps
  {
    if ps == [] then [] else PieceText(ps[0]) + CodeText(ps[1..])
  }

  function PieceText(p: Piece): (text: string)
    ensures text != []
    decreases p
  {
    match p
    case Code(c) => [c]
    case Parens(ps) => "(" + (CodeText(ps) + ")")
    case Quoted(t) => "\"" + (Body(t, false) + "\"")
  }

  /** No empty string stands directly before another one, where three quotes would meet. */
  predicate GoodPieces(ps: seq<Piece>)
    decreases ps
  {
    ps == [] || (GoodPiece(ps[0]) && GoodPieces(ps[1..]) && (|ps| > 1 && ps[0] == Quoted(End("")) ==> !ps[1].Quoted?))
  }

  predicate GoodPiece(p: Piece)
    decreases p
  {
    match p
    case Code(c) => CodeChar(c)
    case Parens(ps) => GoodPieces(ps)
    case Quoted(t) => GoodHoles(t)
  }

  predicate GoodHoles(t: Template)
    decreases t
  {
    match t
    case End(_) => true
    case More(_, h, r) => GoodPieces(h) && GoodHoles(r)
  }

  // ----- the tokens a template stands for -----

  function BodyTokens(t: Template, raw: bool, triple: bool, at: nat): seq<Token>
    decreases t
  {
    match t
    case End(l) => [Literal(triple, at, at + |Lit(l, raw)|)]
    case More(l, h, r) =>
      var e := at + |Lit(l, raw)|;
      var k := e + 2 + |CodeText(h)|;
      [Literal(triple, at, e), InterpolationStart(e + 1, e + 2)]
      + (CodeTokens(h, e + 2) + ([InterpolationEnd(k, k + 1)] + BodyTokens(r, raw, triple, k + 1)))
  }

  function CodeTokens(ps: seq<Piece>, at: nat): seq<Token>
    decreases ps
  {
    if ps == [] then [] else PieceTokens(ps[0], at) + CodeTokens(ps[1..], at + |PieceText(ps[0])|)
  }

  function PieceTokens(p: Piece, at: nat): seq<Token>
    decreases p
  {
    match p
    case Code(_) => []
    case Parens(ps) =>
      var k := at + 1 + |CodeText(ps)|;
      [LeftParen(at, at + 1)] + (CodeTokens(ps, at + 1) + [RightParen(k, k + 1)])
    case Quoted(t) => BodyTokens(t, false, false, at + 1)
  }

  // ----- text in place -----

  ghost predicate Here(src: string, i: nat, text: string) {
    i + |text| <= |src| && src[i..i + |text|] == text
  }

  lemma Split(src: string, i: nat, a: string, b: string)
    requires Here(src, i, a + b)
    ensures Here(src, i, a) && Here(src, i + |a|, b)
  {
    var whole := src[i..i + |a + b|];
    assert src[i..i + |a|] == whole[..|a|];
    assert src[i + |a|..i + |a| + |b|] == whole[|a|..];
  }

  lemma First(src: string, i: nat, text: string)
    requires Here(src, i, text) && text != []
    ensures i < |src| && src[i] == text[0]
  {
    assert src[i..i + |text|][0] == src[i];
  }

  // ----- inside a literal -----

  /** From `i` to `j` nothing ends a literal or opens an interpolation, escapes taken two
      characters at a time. */
  ghost predicate Quiet(src: string, i: nat, j: nat, triple: bool)
    decreases j - i
  {
    i <= j <= |src| &&
    if i == j then true
    else if src[i] == '\\' then
      i + 1 < j && (triple ==> !IsTripleQuote(src, i + 1)) && Quiet(src, i + 2, j, triple)
    else
      && (src[i] == '\"' ==> triple && !IsTripleQuote(src, i))
      && (src[i] == '$' ==> !(i + 1 < |src| && src[i + 1] == '('))
      && Quiet(src, i + 1, j, triple)
  }

  ghost predicate LiteralMode(src: string, st: State, triple: bool) {
    && Valid(src, st) && st.pending == None
    && |st.strings| == |st.interpolations| + 1 && Last(st.triples) == triple
  }

  lemma AfterUnit(src: string, i: nat)
    requires i < |src| && !IsEscaped(src, i)
    ensures src[i] != '\\' ==> !IsEscaped(src, i + 1)
    ensures src[i] == '\\' ==> IsEscaped(src, i + 1)
    ensures src[i] == '\\' && i + 1 < |src| ==> !IsEscaped(src, i + 2)
  {
  }

  lemma PassOver(src: string, st: State, triple: bool)
    requires LiteralMode(src, st, triple) && st.index < |src|
    requires src[st.index] == '\"' ==> !Closes(src, st)
    requires src[st.index] == '$' && st.index + 1 < |src| && src[st.index + 1] == '(' ==> IsEscaped(src, st.index)
    ensures Tokens(src, st) == Tokens(src, st.(index := st.index + 1)) && LiteralMode(src, st.(index := st.index + 1), triple)
  {
    hide Backslashes;
  }

  /** Quiet text is passed over without a token. */
  lemma {:induction false} QuietPasses(src: string, st: State, j: nat, triple: bool)
    requires LiteralMode(src, st, triple) && Quiet(src, st.index, j, triple) && !IsEscaped(src, st.index)
    ensures Tokens(src, st) == Tokens(src, st.(index := j)) && LiteralMode(src, st.(index := j), triple) && !IsEscaped(src, j)
    decreases j - st.index
  {
    hide Tokens, IsTripleQuote, IsEscaped;
    var i := st.index;
    if i < j {
      AfterUnit(src, i);
      PassOver(src, st, triple);
      var next := st.(index := i + 1);
      if src[i] == '\\' {
        PassOver(src, next, triple);
        QuietPasses(src, next.(index := i + 2), j, triple);
      } else {
        QuietPasses(src, next, j, triple);
      }
    } else {
      assert st.(index := j) == st;
    }
  }

  /** Escaped text is quiet when no `(` follows it. */
  lemma {:induction false} EscapedIsQuiet(src: string, i: nat, s: string)
    requires Here(src, i, Escaped(s, false))
    requires var j := i + |Escaped(s, false)|; j < |src| && src[j] != '('
    ensures Quiet(src, i, i + |Escaped(s, false)|, false)
    decreases |s|
  {
    if s != [] {
      var u, rest := Unit(s[0], |s| > 1 && s[1] == '(', false), Escaped(s[1..], false);
      Split(src, i, u, rest);
      EscapedIsQuiet(src, i + |u|, s[1..]);
      First(src, i, u);
      if |s| > 1 {
        assert rest[0] == s[1] || rest[0] == '\\';
        First(src, i + |u|, rest);
      }
    }
  }

  // ----- whole templates -----

  ghost predicate CodeMode(src: string, st: State) {
    Valid(src, st) && st.pending == None && |st.strings| == |st.interpolations|
  }

  /** Each literal portion of the template printed at `at` is quiet. */
  ghost predicate Portions(src: string, at: nat, t: Template, raw: bool, triple: bool)
    decreases t
  {
    match t
    case End(l) => Quiet(src, at, at + |Lit(l, raw)|, triple)
    case More(l, h, r) =>
      Quiet(src, at, at + |Lit(l, raw)|, triple) && Portions(src, at + |Lit(l, raw)| + 3 + |CodeText(h)|, r, raw, triple)
  }

  lemma {:induction false} EscapedPortions(src: string, at: nat, t: Template)
    requires Here(src, at, Body(t, false))
    requires var j := at + |Body(t, false)|; j < |src| && src[j] != '('
    ensures Portions(src, at, t, false, false)
    decreases t
  {
    hide CodeText, Escaped, Quiet;
    match t
    case End(l) => EscapedIsQuiet(src, at, l);
    case More(l, h, r) =>
      SplitMore(src, at, t, false);
      EscapedIsQuiet(src, at, l);
      EscapedPortions(src, at + |Lit(l, false)| + 3 + |CodeText(h)|, r);
  }

  lemma BodyMore(t: Template, raw: bool)
    requires t.More?
    ensures Body(t, raw) == Lit(t.lit, raw) + ("$(" + (CodeText(t.hole) + (")" + Body(t.rest, raw))))
    ensures "$(" == "$" + "("
  {
    hide CodeText, Lit;
  }

  lemma SplitMore(src: string, at: nat, t: Template, raw: bool)
    requires t.More? && Here(src, at, Body(t, raw))
    ensures var e := at + |Lit(t.lit, raw)|; var k := e + 2 + |CodeText(t.hole)|;
            && Here(src, at, Lit(t.lit, raw)) && k < |src|
            && src[e] == '$' && src[e + 1] == '(' && Here(src, e + 2, CodeText(t.hole)) && src[k] == ')'
            && Here(src, k + 1, Body(t.rest, raw)) && k + 1 + |Body(t.rest, raw)| == at + |Body(t, raw)|
  {
    hide CodeText, Lit, Body, Here;
    BodyMore(t, raw);
    var tail := ")" + Body(t.rest, raw);
    var e := at + |Lit(t.lit, raw)|;
    Split(src, at, Lit(t.lit, raw), "$(" + (CodeText(t.hole) + tail));
    Split(src, e, "$(", CodeText(t.hole) + tail);
    Split(src, e, "$", "(");
    First(src, e, "$");
    First(src, e + 1, "(");
    Split(src, e + 2, CodeText(t.hole), tail);
    Split(src, e + 2 + |CodeText(t.hole)|, ")", Body(t.rest, raw));
    First(src, e + 2 + |CodeText(t.hole)|, ")");
  }

  ghost function Closed(st: State, at: nat): State
    requires st.strings != [] && st.triples != []
  {
    st.(strings := Init(st.strings), triples := Init(st.triples), index := at)
  }

  /** The literal before an interpolation, and the interpolation's start. */
  lemma OpensHole(src: string, st: State, triple: bool)
    requires LiteralMode(src, st, triple) && st.index + 2 < |src| && src[st.index] == '$' && src[st.index + 1] == '(' && !IsEscaped(src, st.index)
    ensures var st' := st.(interpolations := st.interpolations + [st.index], depths := st.depths + [0], index := st.index + 2);
            CodeMode(src, st') && Tokens(src, st) ==
            [Literal(triple, Last(st.strings), st.index), InterpolationStart(st.index + 1, st.index + 2)] + Tokens(src, st')
  {
    hide Backslashes, IsTripleQuote;
    var st' := st.(interpolations := st.interpolations + [st.index], depths := st.depths + [0], index := st.index + 2);
    var start := InterpolationStart(st.index + 1, st.index + 2);
    assert Next(src, st) == Emit(Literal(triple, Last(st.strings), st.index), st'.(pending := Some(start)));
    assert Tokens(src, st'.(pending := Some(start))) == [start] + Tokens(src, st');
  }

  lemma ClosesHole(src: string, st: State)
    requires CodeMode(src, st) && st.depths != [] && Last(st.depths) == 0 && st.index < |src| && src[st.index] == ')'
    ensures var st' := st.(strings := Init(st.strings) + [st.index + 1], interpolations := Init(st.interpolations), depths := Init(st.depths), index := st.index + 1);
            LiteralMode(src, st', Last(st.triples)) && Tokens(src, st) == [InterpolationEnd(st.index, st.index + 1)] + Tokens(src, st')
            && !IsEscaped(src, st'.index)
  {
    hide IsTripleQuote;
  }

  lemma ClosesLiteral(src: string, st: State, triple: bool)
    requires LiteralMode(src, st, triple) && st.index < |src| && src[st.index] == '\"' && Closes(src, st)
    ensures Tokens(src, st) == [Literal(triple, Last(st.strings), st.index)] + Tokens(src, Closed(st, st.index + if triple then 3 else 1))
  {
    hide Backslashes;
  }

  lemma Assoc<T>(a: seq<T>, b: seq<T>, c: seq<T>)
    ensures a + (b + c) == (a + b) + c
  {
  }

  /** The tokens of a template's body and of its closing quote. */
  lemma {:induction false} LexesBody(src: string, st: State, t: Template, raw: bool, triple: bool)
    requires LiteralMode(src, st, triple) && Last(st.strings) == st.index && !IsEscaped(src, st.index)
    requires GoodHoles(t) && Here(src, st.index, Body(t, raw)) && Portions(src, st.index, t, raw, triple)
    requires var j := st.index + |Body(t, raw)|;
             if triple then IsTripleQuote(src, j) else j < |src| && src[j] == '\"'
    ensures var j := st.index + |Body(t, raw)| + if triple then 3 else 1;
            && j <= |src| && Valid(src, Closed(st, j))
            && Tokens(src, st) == BodyTokens(t, raw, triple, st.index) + Tokens(src, Closed(st, j))
    decreases t, 1
  {
    hide Tokens, Next, IsEscaped, IsTripleQuote, CodeText, CodeTokens, Lit, Quiet, Body, BodyTokens;
    BodyUnfolds(t, raw, triple, st.index);
    if t.End? {
      LexesEnd(src, st, t.lit, raw, triple);
    } else {
      var k := LexesHole(src, st, t, raw, triple);
      var after := st.(strings := Init(st.strings) + [k + 1], index := k + 1);
      LexesBody(src, after, t.rest, raw, triple);
      var j := st.index + |Body(t, raw)| + if triple then 3 else 1;
      assert Closed(after, j) == Closed(st, j);
      var e := st.index + |Lit(t.lit, raw)|;
      ChainTokens([Literal(triple, st.index, e), InterpolationStart(e + 1, e + 2)], CodeTokens(t.hole, e + 2), InterpolationEnd(k, k + 1),
                  BodyTokens(t.rest, raw, triple, k + 1), Tokens(src, Closed(st, j)));
    }
  }

  lemma BodyUnfolds(t: Template, raw: bool, triple: bool, at: nat)
    ensures t.End? ==> Body(t, raw) == Lit(t.lit, raw) && BodyTokens(t, raw, triple, at) == [Literal(triple, at, at + |Lit(t.lit, raw)|)]
    ensures t.More? ==>
              var e := at + |Lit(t.lit, raw)|; var k := e + 2 + |CodeText(t.hole)|;
              BodyTokens(t, raw, triple, at) ==
              [Literal(triple, at, e), InterpolationStart(e + 1, e + 2)]
              + (CodeTokens(t.hole, e + 2) + ([InterpolationEnd(k, k + 1)] + BodyTokens(t.rest, raw, triple, k + 1)))
  {
    hide Lit, CodeText, CodeTokens;
  }

  lemma LexesEnd(src: string, st: State, lit: string, raw: bool, triple: bool)
    requires LiteralMode(src, st, triple) && Last(st.strings) == st.index && !IsEscaped(src, st.index)
    requires var e := st.index + |Lit(lit, raw)|;
             Quiet(src, st.index, e, triple) && if triple then IsTripleQuote(src, e) else e < |src| && src[e] == '\"'
    ensures var e := st.index + |Lit(lit, raw)|; var j := e + if triple then 3 else 1;
            && j <= |src| && Valid(src, Closed(st, j))
            && Tokens(src, st) == [Literal(triple, st.index, e)] + Tokens(src, Closed(st, j))
  {
    hide Tokens, Next, IsEscaped, IsTripleQuote, Lit, Quiet;
    var e := st.index + |Lit(lit, raw)|;
    QuietPasses(src, st, e, triple);
    QuoteAt(src, st.(index := e), triple);
    ClosesLiteral(src, st.(index := e), triple);
    assert Closed(st.(index := e), e + if triple then 3 else 1) == Closed(st, e + if triple then 3 else 1);
  }

  /** The literal before an interpolation and the interpolation itself. */
  lemma {:induction false} LexesHole(src: string, st: State, t: Template, raw: bool, triple: bool) returns (k: nat)
    requires LiteralMode(src, st, triple) && Last(st.strings) == st.index && !IsEscaped(src, st.index)
    requires t.More? && GoodHoles(t) && Here(src, st.index, Body(t, raw)) && Portions(src, st.index, t, raw, triple)
    ensures var e := st.index + |Lit(t.lit, raw)|;
            && k == e + 2 + |CodeText(t.hole)| && k < |src|
            && var after := st.(strings := Init(st.strings) + [k + 1], index := k + 1);
            && LiteralMode(src, after, triple) && !IsEscaped(src, k + 1) && Here(src, k + 1, Body(t.rest, raw))
            && Portions(src, k + 1, t.rest, raw, triple) && GoodHoles(t.rest)
            && k + 1 + |Body(t.rest, raw)| == st.index + |Body(t, raw)|
            && Tokens(src, st) == [Literal(triple, st.index, e), InterpolationStart(e + 1, e + 2)]
                                  + (CodeTokens(t.hole, e + 2) + ([InterpolationEnd(k, k + 1)] + Tokens(src, after)))
    decreases t, 0
  {
    hide Tokens, Next, IsEscaped, IsTripleQuote, CodeText, CodeTokens, Lit, Quiet, Body;
    var e := st.index + |Lit(t.lit, raw)|;
    k := e + 2 + |CodeText(t.hole)|;
    QuietPasses(src, st, e, triple);
    SplitMore(src, st.index, t, raw);
    OpensHole(src, st.(index := e), triple);
    var inside := st.(interpolations := st.interpolations + [e], depths := st.depths + [0], index := e + 2);
    assert st.(index := e).(interpolations := st.interpolations + [e], depths := st.depths + [0], index := e + 2) == inside;
    LexesCode(src, inside, t.hole);
    var ended := inside.(index := k);
    ClosesHole(src, ended);
    var after := st.(strings := Init(st.strings) + [k + 1], index := k + 1);
    assert after == ended.(strings := Init(ended.strings) + [k + 1], interpolations := Init(ended.interpolations), depths := Init(ended.depths), index := k + 1);
  }

  lemma ChainTokens(a: seq<Token>, b: seq<Token>, t: Token, c: seq<Token>, rest: seq<Token>)
    ensures a + (b + ([t] + (c + rest))) == (a + (b + ([t] + c))) + rest
  {
  }

  lemma QuoteAt(src: string, st: State, triple: bool)
    requires LiteralMode(src, st, triple) && !IsEscaped(src, st.index)
    requires if triple then IsTripleQuote(src, st.index) else st.index < |src| && src[st.index] == '\"'
    ensures st.index < |src| && src[st.index] == '\"' && Closes(src, st)
    ensures triple ==> st.index + 3 <= |src|
  {
  }

  /** The code of an interpolation yields its own tokens and leaves the stacks as they were. */
  lemma {:induction false} LexesCode(src: string, st: State, ps: seq<Piece>)
    requires CodeMode(src, st) && GoodPieces(ps) && Here(src, st.index, CodeText(ps))
    requires var j := st.index + |CodeText(ps)|; j < |src| ==> src[j] != '\"'
    ensures var st' := st.(index := st.index + |CodeText(ps)|);
            CodeMode(src, st') && Tokens(src, st) == CodeTokens(ps, st.index) + Tokens(src, st')
    decreases ps, 1
  {
    hide Tokens, Next, IsEscaped, IsTripleQuote, PieceText, PieceTokens;
    if ps == [] {
      assert st.(index := st.index + |CodeText(ps)|) == st;
    } else {
      var p := ps[0];
      Split(src, st.index, PieceText(p), CodeText(ps[1..]));
      var next := st.(index := st.index + |PieceText(p)|);
      if |ps| > 1 {
        Split(src, next.index, PieceText(ps[1]), CodeText(ps[1..][1..]));
        PieceBegins(src, next.index, ps[1]);
      }
      LexesPiece(src, st, p);
      LexesCode(src, next, ps[1..]);
      Assoc(PieceTokens(p, st.index), CodeTokens(ps[1..], next.index), Tokens(src, next.(index := next.index + |CodeText(ps[1..])|)));
    }
  }

  lemma PieceBegins(src: string, i: nat, p: Piece)
    requires Here(src, i, PieceText(p)) && GoodPiece(p)
    ensures i < |src| && (src[i] == '\"' <==> p.Quoted?)
  {
    First(src, i, PieceText(p));
  }

  lemma {:induction false} LexesPiece(src: string, st: State, p: Piece)
    requires CodeMode(src, st) && GoodPiece(p) && Here(src, st.index, PieceText(p))
    requires var j := st.index + |PieceText(p)|; p == Quoted(End("")) && j < |src| ==> src[j] != '\"'
    ensures var st' := st.(index := st.index + |PieceText(p)|);
            CodeMode(src, st') && Tokens(src, st) == PieceTokens(p, st.index) + Tokens(src, st')
    decreases p, 0
  {
    hide Tokens, Next, IsEscaped, IsTripleQuote, Body, CodeText, BodyTokens, CodeTokens, Valid;
    match p
    case Code(c) => CodeCharPasses(src, st, c);
    case Parens(inner) => LexesParens(src, st, inner);
    case Quoted(t) =>
      EmptyQuoted();
      LexesQuoted(src, st, t);
  }

  lemma EmptyQuoted()
    ensures |PieceText(Quoted(End("")))| == 2
  {
  }

  lemma CodeCharPasses(src: string, st: State, c: char)
    requires CodeMode(src, st) && CodeChar(c) && Here(src, st.index, [c])
    ensures CodeMode(src, st.(index := st.index + 1)) && Tokens(src, st) == Tokens(src, st.(index := st.index + 1))
  {
    hide IsEscaped, IsTripleQuote;
    First(src, st.index, [c]);
    assert Next(src, st) == Go(st.(index := st.index + 1));
  }

  lemma OpensParen(src: string, st: State)
    requires CodeMode(src, st) && st.index < |src| && src[st.index] == '('
    ensures var inside := st.(depths := Deeper(st.depths), index := st.index + 1);
            CodeMode(src, inside) && Tokens(src, st) == [LeftParen(st.index, st.index + 1)] + Tokens(src, inside)
  {
    hide IsEscaped, IsTripleQuote;
  }

  lemma ClosesParen(src: string, st: State)
    requires CodeMode(src, st) && st.index < |src| && src[st.index] == ')' && (st.depths != [] ==> Last(st.depths) > 0)
    ensures var after := st.(depths := Shallower(st.depths), index := st.index + 1);
            CodeMode(src, after) && Tokens(src, st) == [RightParen(st.index, st.index + 1)] + Tokens(src, after)
  {
    hide IsEscaped, IsTripleQuote;
  }

  lemma {:induction false} LexesParens(src: string, st: State, inner: seq<Piece>)
    requires CodeMode(src, st) && GoodPieces(inner) && Here(src, st.index, PieceText(Parens(inner)))
    ensures var st' := st.(index := st.index + |PieceText(Parens(inner))|);
            CodeMode(src, st') && Tokens(src, st) == PieceTokens(Parens(inner), st.index) + Tokens(src, st')
    decreases inner, 2
  {
    hide Tokens, Next, IsEscaped, IsTripleQuote, CodeText, CodeTokens, Here, Valid;
    var at, n := st.index, |CodeText(inner)|;
    SplitParens(src, at, inner);
    OpensParen(src, st);
    var inside := st.(depths := Deeper(st.depths), index := at + 1);
    LexesCode(src, inside, inner);
    ClosesParen(src, inside.(index := at + 1 + n));
    var st' := st.(index := at + 2 + n);
    DeeperAndBack(st.depths);
    assert inside.(index := at + 1 + n).(depths := Shallower(inside.depths), index := at + 2 + n) == st';
    ChainParens([LeftParen(at, at + 1)], CodeTokens(inner, at + 1), [RightParen(at + 1 + n, at + 2 + n)], Tokens(src, st'));
  }

  lemma SplitParens(src: string, at: nat, inner: seq<Piece>)
    requires Here(src, at, PieceText(Parens(inner)))
    ensures var k := at + 1 + |CodeText(inner)|;
            k < |src| && src[at] == '(' && Here(src, at + 1, CodeText(inner)) && src[k] == ')'
  {
    hide CodeText;
    Split(src, at, "(", CodeText(inner) + ")");
    First(src, at, "(");
    Split(src, at + 1, CodeText(inner), ")");
    First(src, at + 1 + |CodeText(inner)|, ")");
  }

  ghost function Deeper(depths: seq<nat>): seq<nat> { if depths == [] then [] else Init(depths) + [Last(depths) + 1] }

  ghost function Shallower(depths: seq<nat>): seq<nat>
    requires depths != [] ==> Last(depths) > 0
  {
    if depths == [] then [] else Init(depths) + [Last(depths) - 1]
  }

  lemma DeeperAndBack(depths: seq<nat>)
    ensures Deeper(depths) != [] ==> Last(Deeper(depths)) > 0
    ensures Shallower(Deeper(depths)) == depths
  {
  }

  lemma ChainParens(a: seq<Token>, b: seq<Token>, c: seq<Token>, rest: seq<Token>)
    ensures a + (b + (c + rest)) == (a + (b + c)) + rest
  {
  }

  /** A nested string opens as an ordinary one: its first quote is not one of three. */
  lemma OpensQuoted(src: string, st: State, t: Template)
    requires CodeMode(src, st) && Here(src, st.index, PieceText(Quoted(t)))
    requires t == End("") && st.index + 2 < |src| ==> src[st.index + 2] != '\"'
    ensures var st' := st.(strings := st.strings + [st.index + 1], triples := st.triples + [false], index := st.index + 1);
            LiteralMode(src, st', false) && Tokens(src, st) == Tokens(src, st') && !IsEscaped(src, st.index + 1)
    ensures Here(src, st.index + 1, Body(t, false))
    ensures var j := st.index + 1 + |Body(t, false)|; j < |src| && src[j] == '\"'
  {
    hide Body, IsEscaped, IsTripleQuote, Tokens, Here, PieceText, Next, LiteralMode;
    SplitQuoted(src, st.index, t);
    OpensLiteral(src, st);
  }

  lemma OpensLiteral(src: string, st: State)
    requires CodeMode(src, st) && st.index < |src| && src[st.index] == '\"' && !IsTripleQuote(src, st.index)
    ensures var st' := st.(strings := st.strings + [st.index + 1], triples := st.triples + [false], index := st.index + 1);
            LiteralMode(src, st', false) && Tokens(src, st) == Tokens(src, st') && !IsEscaped(src, st.index + 1)
  {
    hide IsEscaped, IsTripleQuote, Tokens;
    TokensStep(src, st);
    assert Next(src, st) == Go(Opened(src, st));
    AfterQuote(src, st.index);
  }

  lemma AfterQuote(src: string, i: nat)
    requires i < |src| && src[i] == '\"'
    ensures !IsEscaped(src, i + 1)
  {
  }

  lemma SplitQuoted(src: string, at: nat, t: Template)
    requires Here(src, at, PieceText(Quoted(t)))
    requires t == End("") && at + 2 < |src| ==> src[at + 2] != '\"'
    ensures at < |src| && src[at] == '\"' && !IsTripleQuote(src, at) && Here(src, at + 1, Body(t, false))
    ensures var j := at + 1 + |Body(t, false)|; j < |src| && src[j] == '\"'
  {
    hide Body;
    var body := Body(t, false);
    Split(src, at, "\"", body + "\"");
    First(src, at, "\"");
    Split(src, at + 1, body, "\"");
    First(src, at + 1 + |body|, "\"");
    if body != [] {
      First(src, at + 1, body);
      BodyBegins(t);
    } else {
      EmptyBody(t);
    }
  }

  lemma BodyBegins(t: Template)
    requires Body(t, false) != []
    ensures Body(t, false)[0] != '\"'
  {
    if t.lit != [] { assert Lit(t.lit, false)[0] == Unit(t.lit[0], |t.lit| > 1 && t.lit[1] == '(', false)[0]; }
  }

  lemma EmptyBody(t: Template)
    requires Body(t, false) == []
    ensures t == End("")
  {
    assert t.lit != [] ==> |Lit(t.lit, false)| > 0;
  }

  lemma {:induction false} LexesQuoted(src: string, st: State, t: Template)
    requires CodeMode(src, st) && GoodHoles(t) && Here(src, st.index, PieceText(Quoted(t)))
    requires t == End("") && st.index + 2 < |src| ==> src[st.index + 2] != '\"'
    ensures var st' := st.(index := st.index + |PieceText(Quoted(t))|);
            CodeMode(src, st') && Tokens(src, st) == PieceTokens(Quoted(t), st.index) + Tokens(src, st')
    decreases t, 2
  {
    hide Tokens, Next, IsEscaped, IsTripleQuote, Body, BodyTokens;
    OpensQuoted(src, st, t);
    var inside := st.(strings := st.strings + [st.index + 1], triples := st.triples + [false], index := st.index + 1);
    EscapedPortions(src, st.index + 1, t);
    LexesBody(src, inside, t, false, false);
    var st' := st.(index := st.index + |PieceText(Quoted(t))|);
    assert Closed(inside, st'.index) == st';
  }
}
