/** The two string forms read back: tokens, parts, dedent and decode return the values a
    template was printed from, for ordinary strings and for block strings in a file. */
module BlockStrings {
  import opened Wrappers
  import opened Escapes
  import opened StringTokens
  import opened Templates
  import opened BlockLayout
  import opened BlockText
  import opened BlockDedent
  import PrettyDoc

  // ----- the parser's reading of a token run -----

  /** The raw text of the literal portions outside every interpolation. */
  function Parts(src: string, ts: seq<Token>, depth: nat): seq<string> {
    if ts == [] then []
    else
      match ts[0]
      case InterpolationStart(_, _) => Parts(src, ts[1..], depth + 1)
      case InterpolationEnd(_, _) => Parts(src, ts[1..], if depth > 0 then depth - 1 else 0)
      case StringLiteral(a, b) => (if depth == 0 && a <= b <= |src| then [src[a..b]] else []) + Parts(src, ts[1..], depth)
      case TripleStringLiteral(a, b) => (if depth == 0 && a <= b <= |src| then [src[a..b]] else []) + Parts(src, ts[1..], depth)
      case _ => Parts(src, ts[1..], depth)
  }

  function DecodeAll(parts: seq<string>): seq<string> {
    if parts == [] then [] else [Decoded(parts[0])] + DecodeAll(parts[1..])
  }

  /** The literal runs of a template, in order. */
  function Runs(t: Template): seq<string> {
    match t
    case End(l) => [l]
    case More(l, _, r) => [l] + Runs(r)
  }

  function RawRuns(t: Template, raw: bool): seq<string> {
    match t
    case End(l) => [Lit(l, raw)]
    case More(l, _, r) => [Lit(l, raw)] + RawRuns(r, raw)
  }

  /** Inside an interpolation nothing is collected, and the depth comes back. */
  lemma {:induction false} CodeSkipped(src: string, ps: seq<Piece>, at: nat, rest: seq<Token>, depth: nat)
    requires depth > 0
    ensures Parts(src, CodeTokens(ps, at) + rest, depth) == Parts(src, rest, depth)
    decreases ps, 1
  {
    if ps == [] {
      assert CodeTokens(ps, at) + rest == rest;
    } else {
      var more := CodeTokens(ps[1..], at + |PieceText(ps[0])|);
      assert CodeTokens(ps, at) + rest == PieceTokens(ps[0], at) + (more + rest);
      PieceSkipped(src, ps[0], at, more + rest, depth);
      CodeSkipped(src, ps[1..], at + |PieceText(ps[0])|, rest, depth);
    }
  }

  lemma {:induction false} PieceSkipped(src: string, p: Piece, at: nat, rest: seq<Token>, depth: nat)
    requires depth > 0
    ensures Parts(src, PieceTokens(p, at) + rest, depth) == Parts(src, rest, depth)
    decreases p, 0
  {
    match p
    case Code(_) => assert PieceTokens(p, at) + rest == rest;
    case Parens(inner) =>
      var k := at + 1 + |CodeText(inner)|;
      var close := [RightParen(k, k + 1)];
      assert PieceTokens(p, at) + rest == [LeftParen(at, at + 1)] + (CodeTokens(inner, at + 1) + (close + rest));
      CodeSkipped(src, inner, at + 1, close + rest, depth);
    case Quoted(t) => BodySkipped(src, t, at + 1, rest, depth);
  }

  lemma {:induction false} BodySkipped(src: string, t: Template, at: nat, rest: seq<Token>, depth: nat)
    requires depth > 0
    ensures Parts(src, BodyTokens(t, false, false, at) + rest, depth) == Parts(src, rest, depth)
    decreases t, 0
  {
    if t.More? {
      var e := at + |Lit(t.lit, false)|;
      var k := e + 2 + |CodeText(t.hole)|;
      BodyUnfolds(t, false, false, at);
      var tail := [InterpolationEnd(k, k + 1)] + (BodyTokens(t.rest, false, false, k + 1) + rest);
      MoreTokens(t, false, false, at, rest);
      CodeSkipped(src, t.hole, e + 2, tail, depth + 1);
      BodySkipped(src, t.rest, k + 1, rest, depth);
    } else {
      assert BodyTokens(t, false, false, at) + rest == [StringLiteral(at, at + |Lit(t.lit, false)|)] + rest;
    }
  }

  lemma MoreTokens(t: Template, raw: bool, triple: bool, at: nat, rest: seq<Token>)
    requires t.More?
    ensures var e := at + |Lit(t.lit, raw)|; var k := e + 2 + |CodeText(t.hole)|;
            BodyTokens(t, raw, triple, at) + rest ==
            [Literal(triple, at, e)] + ([InterpolationStart(e + 1, e + 2)]
            + (CodeTokens(t.hole, e + 2) + ([InterpolationEnd(k, k + 1)] + (BodyTokens(t.rest, raw, triple, k + 1) + rest))))
  {
    hide Lit, CodeText, CodeTokens;
    BodyUnfolds(t, raw, triple, at);
  }

  /** Outside, the parts of a template's tokens are the text of its literal runs. */
  lemma {:induction false} BodyParts(src: string, t: Template, raw: bool, triple: bool, at: nat, rest: seq<Token>)
    requires Here(src, at, Body(t, raw))
    ensures Parts(src, BodyTokens(t, raw, triple, at) + rest, 0) == RawRuns(t, raw) + Parts(src, rest, 0)
    decreases t
  {
    hide Body, BodyTokens, Lit, CodeText, CodeTokens, Parts;
    var e := at + |Lit(t.lit, raw)|;
    if t.More? {
      SplitMore(src, at, t, raw);
      var k := e + 2 + |CodeText(t.hole)|;
      var more := BodyTokens(t.rest, raw, triple, k + 1) + rest;
      MoreTokens(t, raw, triple, at, rest);
      PartsStep(src, t, raw, triple, at, [InterpolationEnd(k, k + 1)] + more);
      CodeSkipped(src, t.hole, e + 2, [InterpolationEnd(k, k + 1)] + more, 1);
      EndStep(src, k, more);
      BodyParts(src, t.rest, raw, triple, k + 1, rest);
    } else {
      BodyUnfolds(t, raw, triple, at);
      LiteralStep(src, t.lit, raw, triple, at, rest);
    }
  }

  lemma EndStep(src: string, k: nat, more: seq<Token>)
    ensures Parts(src, [InterpolationEnd(k, k + 1)] + more, 1) == Parts(src, more, 0)
  {
    assert ([InterpolationEnd(k, k + 1)] + more)[1..] == more;
  }

  lemma LiteralStep(src: string, lit: string, raw: bool, triple: bool, at: nat, rest: seq<Token>)
    requires Here(src, at, Lit(lit, raw))
    ensures Parts(src, [Literal(triple, at, at + |Lit(lit, raw)|)] + rest, 0) == [Lit(lit, raw)] + Parts(src, rest, 0)
  {
    var e := at + |Lit(lit, raw)|;
    assert src[at..e] == Lit(lit, raw);
    assert ([Literal(triple, at, e)] + rest)[1..] == rest;
  }

  lemma PartsStep(src: string, t: Template, raw: bool, triple: bool, at: nat, tail: seq<Token>)
    requires Here(src, at, Lit(t.lit, raw)) && t.More?
    ensures var e := at + |Lit(t.lit, raw)|;
            Parts(src, [Literal(triple, at, e)] + ([InterpolationStart(e + 1, e + 2)] + (CodeTokens(t.hole, e + 2) + tail)), 0)
            == [Lit(t.lit, raw)] + Parts(src, CodeTokens(t.hole, e + 2) + tail, 1)
  {
    var e := at + |Lit(t.lit, raw)|;
    var code := CodeTokens(t.hole, e + 2) + tail;
    assert ([InterpolationStart(e + 1, e + 2)] + code)[1..] == code;
    assert ([Literal(triple, at, e)] + ([InterpolationStart(e + 1, e + 2)] + code))[1..] == [InterpolationStart(e + 1, e + 2)] + code;
  }

  // ----- ordinary strings -----

  lemma {:induction false} EscapedRunsDecode(t: Template)
    ensures DecodeAll(RawRuns(t, false)) == Runs(t)
  {
    DecodeUndoesEscape(t.lit, false);
    if t.More? {
      EscapedRunsDecode(t.rest);
      assert ([Lit(t.lit, false)] + RawRuns(t.rest, false))[1..] == RawRuns(t.rest, false);
    }
  }

  /** An ordinary string, interpolations nested to any depth: tokenizing its printed form
      yields its tokens and goes on behind it, and their parts decode to its runs. */
  lemma OrdinaryRoundTrip(src: string, st: State, t: Template)
    requires CodeMode(src, st) && GoodHoles(t) && Here(src, st.index, PieceText(Quoted(t)))
    requires t == End("") && st.index + 2 < |src| ==> src[st.index + 2] != '\"'
    ensures var st' := st.(index := st.index + |PieceText(Quoted(t))|); var tokens := BodyTokens(t, false, false, st.index + 1);
            && CodeMode(src, st') && Tokens(src, st) == tokens + Tokens(src, st')
            && DecodeAll(Parts(src, tokens, 0)) == Runs(t)
  {
    hide Tokens, Here, BodyTokens, Parts;
    LexesQuoted(src, st, t);
    SplitQuoted(src, st.index, t);
    BodyParts(src, t, false, false, st.index + 1, []);
    EscapedRunsDecode(t);
    var tokens := BodyTokens(t, false, false, st.index + 1);
    assert tokens + [] == tokens && RawRuns(t, false) + [] == RawRuns(t, false);
    NoParts(src);
  }

  lemma NoParts(src: string)
    ensures Parts(src, [], 0) == []
  {
  }
}
