/** Block strings end to end: a template that passes the block test is laid out, stripped
    with its file, tokenized, dedented and decoded back to its own literal runs. */
module BlockRoundTrip {
  import opened Wrappers
  import opened Escapes
  import opened StringTokens
  import opened Templates
  import opened BlockLayout
  import opened BlockText
  import opened BlockDedent
  import opened BlockStrings
  import PrettyDoc

  // ----- the block test -----

  /** The literal runs with a visible stand-in for each interpolation. */
  function Synth(t: Template): string {
    match t
    case End(l) => l
    case More(l, _, r) => l + ("\U{1}" + Synth(r))
  }

  predicate StartsTriple(s: string) { |s| >= 3 && s[0] == '\"' && s[1] == '\"' && s[2] == '\"' }

  predicate NoTriple(s: string) { s == [] || (!StartsTriple(s) && NoTriple(s[1..])) }

  predicate LinesTrimmed(s: string)
    decreases |s|
  {
    var k := LineEnd(s);
    s[..k] == TrimEnd(s[..k]) && (k == |s| || LinesTrimmed(s[k + 1..]))
  }

  predicate RunsWithoutTriple(t: Template) {
    match t
    case End(l) => NoTriple(l)
    case More(l, _, r) => NoTriple(l) && RunsWithoutTriple(r)
  }

  /** The test both kinds of string literal must pass to be written as a block. */
  predicate BlockSafe(t: Template) {
    RunsWithoutTriple(t) && Synth(t) != [] && '\r' !in Synth(t) && LinesTrimmed(Synth(t))
  }

  // ----- what the test says of the spaces -----

  lemma {:induction false} VisibleSuffix(a: string, b: string)
    requires Visible(a + b)
    ensures Visible(b)
  {
    if a == [] { assert a + b == b; } else {
      assert (a + b)[1..] == a[1..] + b;
      VisibleSuffix(a[1..], b);
    }
  }

  lemma {:induction false} LineVisible(line: string, rest: string)
    requires '\n' !in line && Visible(rest) && (rest != [] ==> rest[0] == '\n')
    ensures Visible(line + rest) <==> line == TrimEnd(line)
  {
    if line == [] {
      assert line + rest == rest;
    } else {
      assert (line + rest)[1..] == line[1..] + rest;
      LineVisible(line[1..], rest);
      TrimTail(line);
    }
  }

  lemma {:induction false} TrimTail(line: string)
    requires line != []
    ensures line == TrimEnd(line) <==> !IsSpace(line[|line| - 1])
    ensures |line| > 1 ==> (line[1..] == TrimEnd(line[1..]) <==> !IsSpace(line[|line| - 1]))
  {
    TrimShorter(line[..|line| - 1]);
    if |line| > 1 {
      var tail := line[1..];
      TrimShorter(tail[..|tail| - 1]);
    }
  }

  lemma {:induction false} TrimmedIsVisible(s: string)
    ensures LinesTrimmed(s) <==> Visible(s)
    decreases |s|
  {
    hide Visible, LineEnd, TrimEnd;
    var k := LineEnd(s);
    if k == |s| {
      assert s[..k] == s && s + [] == s;
      NothingVisible();
      LineVisible(s, []);
    } else {
      var rest := s[k + 1..];
      TrimmedIsVisible(rest);
      BreakVisible(rest);
      assert s[k..] == "\n" + rest;
      assert s == s[..k] + s[k..];
      if Visible(s) {
        VisibleSuffix(s[..k], s[k..]);
        LineVisible(s[..k], s[k..]);
      } else if Visible(rest) {
        LineVisible(s[..k], s[k..]);
      }
    }
  }

  lemma BreakVisible(rest: string)
    ensures Visible("\n" + rest) <==> Visible(rest)
  {
    assert ("\n" + rest)[1..] == rest;
  }

  predicate TripleAt(s: string, i: nat) { i + 2 < |s| && s[i] == s[i + 1] == s[i + 2] == '\"' }

  lemma {:induction false} NoTripleMeans(s: string)
    ensures NoTriple(s) <==> forall i :: 0 <= i < |s| ==> !TripleAt(s, i)
  {
    if s != [] {
      NoTripleMeans(s[1..]);
      assert forall i :: 0 < i < |s| ==> (TripleAt(s, i) <==> TripleAt(s[1..], i - 1));
      assert forall i :: 0 <= i < |s[1..]| ==> (TripleAt(s[1..], i) <==> TripleAt(s, i + 1));
      assert TripleAt(s, 0) <==> StartsTriple(s);
    }
  }

  /** White space at `i` with nothing behind it on its line. */
  predicate TrailsAt(s: string, i: nat) { i < |s| && IsSpace(s[i]) && s[i] != '\n' && (i + 1 == |s| || s[i + 1] == '\n') }

  lemma {:induction false} VisibleMeans(s: string)
    ensures Visible(s) <==> forall i :: 0 <= i < |s| ==> !TrailsAt(s, i)
  {
    hide IsSpace;
    if s != [] {
      VisibleMeans(s[1..]);
      assert forall i :: 0 < i < |s| ==> (TrailsAt(s, i) <==> TrailsAt(s[1..], i - 1));
      assert forall i :: 0 <= i < |s[1..]| ==> (TrailsAt(s[1..], i) <==> TrailsAt(s, i + 1));
      assert TrailsAt(s, 0) <==> IsSpace(s[0]) && s[0] != '\n' && (|s| == 1 || s[1] == '\n');
    }
  }

  ghost predicate HoldsTriple(s: string) { exists i :: 0 <= i < |s| && TripleAt(s, i) }

  /** The block test, told by places: some text, no carriage return, no three quotes in a row
      within one literal run, and no white space but line breaks at the end of a line. */
  lemma BlockSafeExactly(t: Template)
    ensures BlockSafe(t) <==>
            && Synth(t) != [] && '\r' !in Synth(t)
            && (forall r :: r in Runs(t) ==> !HoldsTriple(r))
            && (forall i :: 0 <= i < |Synth(t)| ==> !TrailsAt(Synth(t), i))
  {
    hide Visible, LinesTrimmed, IsSpace, NoTriple;
    TrimmedIsVisible(Synth(t));
    VisibleMeans(Synth(t));
    forall r: string ensures NoTriple(r) <==> !HoldsTriple(r) { NoTripleMeans(r); }
    RunsMean(t);
  }

  lemma {:induction false} RunsMean(t: Template)
    ensures RunsWithoutTriple(t) <==> forall r :: r in Runs(t) ==> NoTriple(r)
  {
    hide NoTriple;
    match t
    case End(l) => assert Runs(t) == [l] && l in Runs(t);
    case More(l, _, rest) =>
      RunsMean(rest);
      assert Runs(t) == [l] + Runs(rest) && Runs(t)[0] == l;
      forall r ensures r in Runs(t) <==> r == l || r in Runs(rest) {}
      assert RunsWithoutTriple(t) <==> NoTriple(l) && RunsWithoutTriple(rest);
      if forall r :: r in Runs(t) ==> NoTriple(r) {
        forall r | r in Runs(rest) ensures NoTriple(r) { assert r in Runs(t); }
        assert l in Runs(t);
      }
  }

  /** Two continuations that end the current line alike. */
  ghost predicate Alike(a: string, b: string) {
    (a == [] <==> b == []) && (a != [] ==> (a[0] == '\n' <==> b[0] == '\n'))
  }

  lemma {:induction false} EscapedVisible(l: string, tail: string, tail': string)
    requires Visible(l + tail') && Visible(tail) && Alike(tail, tail')
    ensures Visible(Escaped(l, true) + tail) && Alike(Escaped(l, true) + tail, l + tail')
    decreases |l|
  {
    if l == [] {
      assert Escaped(l, true) + tail == tail && l + tail' == tail';
    } else {
      assert (l + tail')[1..] == l[1..] + tail';
      EscapedVisible(l[1..], tail, tail');
      var u, more := Unit(l[0], |l| > 1 && l[1] == '(', true), Escaped(l[1..], true) + tail;
      assert Escaped(l, true) + tail == u + more;
      if |u| == 1 {
        assert u == [l[0]] && (u + more)[1..] == more;
      } else {
        assert (u + more)[1..][1..] == more;
      }
    }
  }

  /** No line of a literal run ends in white space, unless an interpolation is next on it. */
  ghost predicate RunsVisible(t: Template) {
    match t
    case End(l) => Visible(Escaped(l, true) + Stand(true))
    case More(l, _, r) => Visible(Escaped(l, true) + Stand(false)) && RunsVisible(r)
  }

  lemma {:induction false} BodyVisible(t: Template)
    requires Visible(Synth(t))
    ensures RunsVisible(t)
  {
    hide Visible, Escaped;
    match t
    case End(l) =>
      assert l + [] == l;
      assert Visible([]) by { NothingVisible(); }
      EscapedVisible(l, [], []);
    case More(l, _, r) =>
      VisibleSuffix(l + "\U{1}", Synth(r)) by { assert (l + "\U{1}") + Synth(r) == Synth(t); }
      BodyVisible(r);
      assert Visible("$") by { OneVisible('$', []); NothingVisible(); assert ['$'] + [] == "$"; }
      EscapedVisible(l, "$", "\U{1}" + Synth(r));
  }

  lemma NothingVisible()
    ensures Visible([])
  {
  }

  lemma OneVisible(c: char, s: string)
    requires !IsSpace(c) && Visible(s)
    ensures Visible([c] + s)
  {
    assert ([c] + s)[1..] == s;
  }

  // ----- the laid out parts -----

  /** The raw literal runs between a block's quotes, once laid out with `indent`. */
  function Laid(t: Template, indent: string, first: bool): Template {
    var open := if first then "\n" else "";
    match t
    case End(l) => End(open + (Indented(Escaped(l, true), indent, first, true) + ("\n" + indent)))
    case More(l, h, r) => More(open + Indented(Escaped(l, true), indent, first, false), h, Laid(r, indent, false))
  }

  /** Stripping the body of a rendered block, up to the closing quotes, lays it out. */
  lemma {:induction false} StripSpread(t: Template, indent: string, first: bool, post: string)
    requires RunsVisible(t) && Blank(indent)
    ensures Strip((if first then "\n" + indent else []) + (Spread(t, indent) + Closing(indent, post)))
            == Body(Laid(TidyHoles(t), indent, first), true) + (QUOTES + Strip(post))
    decreases t
  {
    hide Strip, Escaped, IndentAll, Indented, Visible, Blank, CodeText, Tidy, Closing, Stand, Follows;
    var e, close := Escaped(t.lit, true), Closing(indent, post);
    Followed(t, indent, post);
    if t.End? {
      StripFront(e, indent, close, first, true);
      StripClosing(indent, post);
    } else {
      var more := Spread(t.rest, indent) + close;
      StripSpread(t.rest, indent, false, post);
      assert [] + more == more;
      var hole := "$(" + (CodeText(t.hole) + ")");
      assert Spread(t, indent) + close == IndentAll(e, indent) + (hole + more);
      StripFront(e, indent, hole + more, first, false);
      StripHole(t.hole, more);
    }
  }

  lemma StripFront(e: string, indent: string, after: string, first: bool, ended: bool)
    requires Visible(e + Stand(ended)) && Blank(indent) && Follows(after, ended)
    ensures Strip((if first then "\n" + indent else []) + (IndentAll(e, indent) + after))
            == ((if first then "\n" else "") + Indented(e, indent, first, ended)) + Strip(after)
  {
    hide Strip, IndentAll, Indented, Visible, Blank, Stand, Follows;
    var text := IndentAll(e, indent) + after;
    StripIndented(e, indent, after, first, ended);
    if first {
      assert ("\n" + indent) + text == ['\n'] + (indent + text);
      StripAlive('\n', indent + text);
    }
  }

  /** What stands behind a block's body: its last line and the text after it. */
  function Closing(indent: string, post: string): string { ("\n" + indent) + (QUOTES + post) }

  lemma StripClosing(indent: string, post: string)
    requires Blank(indent)
    ensures Strip(Closing(indent, post)) == ("\n" + indent) + (QUOTES + Strip(post))
  {
    hide Strip;
    var text := QUOTES + post;
    assert Closing(indent, post) == ['\n'] + (indent + text);
    StripAlive('\n', indent + text);
    StripBlank(indent, text);
    assert text == ['\"'] + (['\"'] + (['\"'] + post));
    StripAlive('\"', ['\"'] + (['\"'] + post));
    StripAlive('\"', ['\"'] + post);
    StripAlive('\"', post);
  }

  lemma Followed(t: Template, indent: string, post: string)
    ensures t.End? ==> Follows(Closing(indent, post), true)
    ensures t.More? ==> Follows(("$(" + (CodeText(t.hole) + ")")) + (Spread(t.rest, indent) + Closing(indent, post)), false)
  {
    hide CodeText, Spread;
  }

  // ----- dedent undoes the layout -----

  lemma {:induction false} OutdentMargin(indent: string, s: string, n: nat)
    requires AllMargin(indent) && |indent| <= n
    ensures Outdent(indent + s, n, |indent|) == Outdent(s, n, 0)
  {
    if indent == [] { assert indent + s == s; } else {
      assert (indent + s)[1..] == indent[1..] + s;
      OutdentMargin(indent[1..], s, n);
    }
  }

  lemma OutdentBreak(s: string, n: nat, left: nat)
    ensures Outdent("\n" + s, n, left) == "\n" + Outdent(s, n, n)
  {
    assert ("\n" + s)[1..] == s;
  }

  lemma {:induction false} OutdentUndoes(e: string, indent: string, start: bool, ended: bool)
    requires AllMargin(indent)
    ensures Outdent(Indented(e, indent, start, ended), |indent|, if start then |indent| else 0) == e
    decreases |e|
  {
    if e == [] {
      if start && !ended {
        assert indent + [] == indent;
        OutdentMargin(indent, [], |indent|);
      }
    } else if e[0] == '\n' {
      OutdentUndoes(e[1..], indent, true, ended);
      OutdentBreak(Indented(e[1..], indent, true, ended), |indent|, if start then |indent| else 0);
      assert e == "\n" + e[1..];
    } else {
      var more := Indented(e[1..], indent, false, ended);
      OutdentUndoes(e[1..], indent, false, ended);
      assert ([e[0]] + more)[1..] == more;
      assert Outdent([e[0]] + more, |indent|, 0) == [e[0]] + e[1..] == e;
      assert Indented(e, indent, start, ended) == (if start then indent else []) + ([e[0]] + more);
      assert "" + ([e[0]] + more) == [e[0]] + more;
      if start { OutdentMargin(indent, [e[0]] + more, |indent|); }
    }
  }

  /** The parts without the opening line break and the closing line. */
  function Bare(t: Template, indent: string, start: bool): seq<string> {
    match t
    case End(l) => [Indented(Escaped(l, true), indent, start, true)]
    case More(l, _, r) => [Indented(Escaped(l, true), indent, start, false)] + Bare(r, indent, false)
  }

  lemma {:induction false} BareOutdents(t: Template, indent: string, start: bool)
    requires AllMargin(indent)
    ensures OutdentAll(Bare(t, indent, start), |indent|, if start then |indent| else 0) == RawRuns(BlockEscaped(t), true)
    decreases t
  {
    hide Indented, Outdent, Escaped;
    OutdentUndoes(Escaped(t.lit, true), indent, start, t.End?);
    if t.More? {
      BareOutdents(t.rest, indent, false);
      assert Bare(t, indent, start)[1..] == Bare(t.rest, indent, false);
    }
  }

  lemma LastBreakAt(s: string, indent: string)
    requires AllMargin(indent)
    ensures LastBreak(s + ("\n" + indent)) == Some(|s|) && EndsInMargin(s + ("\n" + indent))
    ensures IndentLen(s + ("\n" + indent)) == |indent| && DropClosing(s + ("\n" + indent)) == s
  {
    hide LastBreak, EndsInMargin, IndentLen, DropClosing, AllMargin;
    var whole := s + ("\n" + indent);
    FindLastBreak(s, indent);
    assert whole[|s| + 1..] == indent && whole[..|s|] == s;
    ClosingMargin(whole, |s|, indent);
  }

  lemma ClosingMargin(whole: string, p: nat, indent: string)
    requires LastBreak(whole) == Some(p) && whole[p + 1..] == indent && AllMargin(indent)
    ensures EndsInMargin(whole) && IndentLen(whole) == |indent| && DropClosing(whole) == whole[..p]
  {
    hide LastBreak;
  }

  lemma FindLastBreak(s: string, indent: string)
    requires AllMargin(indent)
    ensures LastBreak(s + ("\n" + indent)) == Some(|s|)
  {
    hide LastBreak;
    var whole := s + ("\n" + indent);
    forall i | |s| < i < |whole| ensures whole[i] != '\n' { assert whole[i] == indent[i - |s| - 1]; }
    LastBreakIs(whole, |s|);
  }

  lemma {:induction false} LastBreakIs(s: string, k: nat)
    requires k < |s| && s[k] == '\n' && forall i :: k < i < |s| ==> s[i] != '\n'
    ensures LastBreak(s) == Some(k)
  {
    if k + 1 < |s| { LastBreakIs(s[..|s| - 1], k); }
  }

  lemma {:induction false} LastLaid(t: Template, indent: string, first: bool)
    ensures var laid, bare := RawRuns(Laid(t, indent, first), true), Bare(t, indent, first);
            && |laid| == |bare| > 0
            && laid[|laid| - 1] == (if first && t.End? then "\n" else "") + (bare[|bare| - 1] + ("\n" + indent))
            && laid[0] == (if first then "\n" else "") + (bare[0] + (if t.End? then "\n" + indent else ""))
            && (forall i :: 0 < i < |laid| - 1 ==> laid[i] == bare[i])
            && (t.End? <==> |laid| == 1)
    decreases t
  {
    hide Indented, Escaped;
    if t.More? {
      LastLaid(t.rest, indent, false);
      var laid, bare := RawRuns(Laid(t.rest, indent, false), true), Bare(t.rest, indent, false);
      assert RawRuns(Laid(t, indent, first), true)[1..] == laid && Bare(t, indent, first)[1..] == bare;
      forall i | 0 < i < |laid| ensures RawRuns(Laid(t, indent, first), true)[i] == Bare(t, indent, first)[i] {
        assert RawRuns(Laid(t, indent, first), true)[i] == laid[i - 1] && Bare(t, indent, first)[i] == bare[i - 1];
      }
    }
  }

  lemma FramedIsBare(t: Template, indent: string)
    requires AllMargin(indent)
    ensures var laid := RawRuns(Laid(t, indent, true), true);
            && OpensBlock(laid[0]) && IndentLen(laid[|laid| - 1]) == |indent| && Framed(laid) == Bare(t, indent, true)
  {
    hide Laid, Bare, RawRuns, OpensBlock, IndentLen, DropClosing, LastBreak, EndsInMargin, LineEnd, Framed;
    var laid, bare := RawRuns(Laid(t, indent, true), true), Bare(t, indent, true);
    LastLaid(t, indent, true);
    if t.End? {
      OneFrame(laid, bare[0], indent);
      assert bare == [bare[0]];
    } else {
      ManyFrame(laid, bare, indent, t);
    }
  }

  lemma OneFrame(laid: seq<string>, bare: string, indent: string)
    requires AllMargin(indent) && laid == ["\n" + (bare + ("\n" + indent))]
    ensures OpensBlock(laid[0]) && IndentLen(laid[0]) == |indent| && Framed(laid) == [bare]
  {
    hide LastBreak, EndsInMargin, DropClosing, IndentLen;
    assert laid[0] == ("\n" + bare) + ("\n" + indent);
    LastBreakAt("\n" + bare, indent);
    LastBreakAt(bare, indent);
    assert DropOpening(laid[0]) == bare + ("\n" + indent) by { assert LineEnd(laid[0]) == 0; }
  }

  lemma ManyFrame(laid: seq<string>, bare: seq<string>, indent: string, t: Template)
    requires AllMargin(indent) && |laid| == |bare| > 1
    requires laid[|laid| - 1] == bare[|bare| - 1] + ("\n" + indent) && laid[0] == "\n" + bare[0]
    requires forall i :: 0 < i < |laid| - 1 ==> laid[i] == bare[i]
    ensures OpensBlock(laid[0]) && IndentLen(laid[|laid| - 1]) == |indent| && Framed(laid) == bare
  {
    hide LastBreak, EndsInMargin, DropClosing, IndentLen;
    LastBreakAt(bare[|bare| - 1], indent);
    assert DropOpening(laid[0]) == bare[0] by { assert LineEnd(laid[0]) == 0; }
    assert Framed(laid) == bare;
  }

  /** Dedenting the parts of a laid out block gives back its escaped literal runs. */
  lemma DedentUndoesLayout(t: Template, indent: string)
    requires AllMargin(indent)
    ensures Dedent(RawRuns(Laid(t, indent, true), true)) == RawRuns(BlockEscaped(t), true)
  {
    FramedIsBare(t, indent);
    BareOutdents(t, indent, true);
  }

  lemma {:induction false} BlockRunsDecode(t: Template)
    ensures DecodeAll(RawRuns(BlockEscaped(t), true)) == Runs(t)
  {
    DecodeUndoesEscape(t.lit, true);
    if t.More? {
      BlockRunsDecode(t.rest);
      assert RawRuns(BlockEscaped(t), true)[1..] == RawRuns(BlockEscaped(t.rest), true);
    }
  }

  // ----- nothing in the laid out parts looks like a delimiter -----

  /** Escapes are whole, and no bare `$` stands before a `(`. */
  ghost predicate Calm(r: string)
    decreases |r|
  {
    r == [] ||
    if r[0] == '\\' then |r| > 1 && (r[1] == '\\' || r[1] == '$') && Calm(r[2..])
    else (r[0] == '$' && |r| > 1 ==> r[1] != '(') && Calm(r[1..])
  }

  lemma {:induction false} EscapedCalm(l: string)
    ensures Calm(Escaped(l, true))
    decreases |l|
  {
    if l != [] {
      EscapedCalm(l[1..]);
      var u, rest := Unit(l[0], |l| > 1 && l[1] == '(', true), Escaped(l[1..], true);
      if |u| == 1 {
        assert (u + rest)[1..] == rest;
        if |l| > 1 { assert rest[0] == l[1] || rest[0] == '\\'; }
      } else {
        assert (u + rest)[2..] == rest;
      }
    }
  }

  lemma {:induction false} EscapedStart(l: string)
    ensures StartsTriple(Escaped(l, true)) ==> StartsTriple(l)
  {
    var e := Escaped(l, true);
    if StartsTriple(e) {
      assert e[1..] == Escaped(l[1..], true);
      assert e[2..] == e[1..][1..] == Escaped(l[1..][1..], true);
      assert l[1..][0] == '\"' && l[1..][1..][0] == '\"';
    }
  }

  lemma {:induction false} EscapedNoTriple(l: string)
    requires NoTriple(l)
    ensures NoTriple(Escaped(l, true))
    decreases |l|
  {
    if l != [] {
      EscapedNoTriple(l[1..]);
      EscapedStart(l);
      var u, rest := Unit(l[0], |l| > 1 && l[1] == '(', true), Escaped(l[1..], true);
      if |u| == 1 {
        assert (u + rest)[1..] == rest;
      } else {
        assert (u + rest)[1..][1..] == rest && (u + rest)[1..][0] != '\"';
      }
    }
  }

  ghost predicate Tabbed(indent: string) { indent != [] && forall c :: c in indent ==> c == '\t' }

  lemma {:induction false} MarginCalm(indent: string, s: string)
    requires (forall c :: c in indent ==> c == '\t') && Calm(s) && NoTriple(s)
    ensures Calm(indent + s) && NoTriple(indent + s)
  {
    if indent == [] { assert indent + s == s; } else {
      assert (indent + s)[1..] == indent[1..] + s && indent[0] in indent;
      assert forall c :: c in indent[1..] ==> c in indent;
      MarginCalm(indent[1..], s);
    }
  }

  function LeadQuotes(s: string): nat { if s != [] && s[0] == '\"' then 1 + LeadQuotes(s[1..]) else 0 }

  lemma LeadsAreTriples(s: string)
    ensures StartsTriple(s) <==> LeadQuotes(s) >= 3
  {
    if |s| >= 3 {
      var t := s[1..];
      var u := t[1..];
      assert t[0] == s[1] && u[0] == s[2];
      assert s[0] == '\"' ==> LeadQuotes(s) == 1 + LeadQuotes(t);
      assert t[0] == '\"' ==> LeadQuotes(t) == 1 + LeadQuotes(u);
    } else {
      FewQuotes(s);
    }
  }

  lemma {:induction false} FewQuotes(s: string)
    ensures LeadQuotes(s) <= |s|
  {
    if s != [] { FewQuotes(s[1..]); }
  }

  /** Indenting keeps a text calm and free of triple quotes. */
  lemma {:induction false} IndentedCalm(e: string, indent: string, start: bool, ended: bool)
    requires Tabbed(indent) && Calm(e) && NoTriple(e)
    ensures Calm(Indented(e, indent, start, ended)) && NoTriple(Indented(e, indent, start, ended))
    ensures !start ==> LeadQuotes(Indented(e, indent, start, ended)) == LeadQuotes(e)
    decreases |e|, start, 1
  {
    if e == [] {
      if start && !ended {
        assert indent + [] == indent;
        MarginCalm(indent, []);
      }
    } else if e[0] == '\n' {
      IndentedCalm(e[1..], indent, true, ended);
      assert ("\n" + Indented(e[1..], indent, true, ended))[1..] == Indented(e[1..], indent, true, ended);
    } else if start {
      IndentedCalm(e, indent, false, ended);
      MarginCalm(indent, Indented(e, indent, false, ended));
      assert Indented(e, indent, true, ended) == indent + Indented(e, indent, false, ended);
    } else if e[0] == '\\' {
      EscapePairCalm(e, indent, ended);
    } else {
      IndentedCalm(e[1..], indent, false, ended);
      PlainCharCalm(e, Indented(e[1..], indent, false, ended), indent, ended);
    }
  }

  lemma PlainCharCalm(e: string, more: string, indent: string, ended: bool)
    requires e != [] && e[0] != '\n' && e[0] != '\\' && Calm(e) && NoTriple(e)
    requires more == Indented(e[1..], indent, false, ended) && Calm(more) && NoTriple(more) && LeadQuotes(more) == LeadQuotes(e[1..])
    ensures var r := Indented(e, indent, false, ended);
            Calm(r) && NoTriple(r) && LeadQuotes(r) == LeadQuotes(e)
  {
    var r := [e[0]] + more;
    assert r[1..] == more && Indented(e, indent, false, ended) == r;
    LeadsAreTriples(r);
    LeadsAreTriples(e);
    if |e| > 1 { assert more[0] == e[1]; }
  }

  lemma {:induction false} EscapePairCalm(e: string, indent: string, ended: bool)
    requires Tabbed(indent) && Calm(e) && NoTriple(e) && e != [] && e[0] == '\\'
    ensures var r := Indented(e, indent, false, ended);
            Calm(r) && NoTriple(r) && LeadQuotes(r) == LeadQuotes(e)
    decreases |e|, false, 0
  {
    assert e[1..][1..] == e[2..] && e[1..][0] == e[1];
    IndentedCalm(e[2..], indent, false, ended);
    var more := Indented(e[2..], indent, false, ended);
    var r := [e[0]] + ([e[1]] + more);
    assert Indented(e[1..], indent, false, ended) == [e[1]] + more;
    assert Indented(e, indent, false, ended) == r;
    assert r[1..] == [e[1]] + more && r[1..][1..] == more && r[2..] == more;
  }

  // ----- quiet in place -----

  /** Calm text without three quotes is quiet inside a triple-quoted literal, if neither a
      `(` nor a quote can join its end. */
  lemma {:induction false} CalmIsQuiet(src: string, i: nat, r: string)
    requires Here(src, i, r) && Calm(r) && NoTriple(r)
    requires var j := i + |r|; j < |src| && src[j] != '(' && (r == [] || r[|r| - 1] != '\"' || src[j] != '\"')
    ensures Quiet(src, i, i + |r|, true)
    decreases |r|
  {
    if r != [] {
      First(src, i, r);
      if r[0] == '\\' {
        Split(src, i, r[..2], r[2..]) by { assert r == r[..2] + r[2..]; }
        First(src, i + 1, r[1..]) by { Split(src, i, r[..1], r[1..]); assert r == r[..1] + r[1..]; }
        NoTriple2(r);
        CalmIsQuiet(src, i + 2, r[2..]);
      } else {
        Split(src, i, r[..1], r[1..]) by { assert r == r[..1] + r[1..]; }
        if |r| > 1 { First(src, i + 1, r[1..]); }
        CalmIsQuiet(src, i + 1, r[1..]);
        NotTripleHere(src, i, r);
      }
    }
  }

  lemma NoTriple2(r: string)
    requires |r| > 1 && NoTriple(r)
    ensures NoTriple(r[2..])
  {
    assert r[1..][1..] == r[2..];
  }

  lemma NotTripleHere(src: string, i: nat, r: string)
    requires Here(src, i, r) && r != [] && !StartsTriple(r)
    requires var j := i + |r|; j < |src| && (r[|r| - 1] != '\"' || src[j] != '\"')
    ensures !IsTripleQuote(src, i)
  {
    var at := src[i..i + |r|];
    forall k | 0 <= k < |r| ensures src[i + k] == r[k] { assert at[k] == src[i + k]; }
  }

  lemma {:induction false} LaidPortions(src: string, at: nat, t: Template, indent: string, first: bool)
    requires Tabbed(indent) && RunsWithoutTriple(t) && Here(src, at, Body(Laid(t, indent, first), true))
    requires var j := at + |Body(Laid(t, indent, first), true)|; j < |src| && src[j] == '\"'
    ensures Portions(src, at, Laid(t, indent, first), true, true)
    decreases t
  {
    hide Indented, Escaped, Quiet, Calm, NoTriple, CodeText;
    var laid := Laid(t, indent, first);
    LaidCalm(t, indent, first);
    if t.More? {
      SplitMore(src, at, laid, true);
      CalmIsQuiet(src, at, laid.lit);
      LaidPortions(src, at + |laid.lit| + 3 + |CodeText(t.hole)|, t.rest, indent, false);
    } else {
      CalmIsQuiet(src, at, laid.lit);
    }
  }

  lemma LaidCalm(t: Template, indent: string, first: bool)
    requires Tabbed(indent) && RunsWithoutTriple(t)
    ensures var lit := Laid(t, indent, first).lit;
            Calm(lit) && NoTriple(lit) && (t.End? ==> lit != [] && lit[|lit| - 1] != '\"')
  {
    hide Escaped, Indented, Calm, NoTriple, Tabbed, Laid;
    EscapedCalm(t.lit);
    EscapedNoTriple(t.lit);
    var text := Indented(Escaped(t.lit, true), indent, first, t.End?);
    IndentedCalm(Escaped(t.lit, true), indent, first, t.End?);
    LaidLit(t, indent, first);
    if t.End? {
      ClosingCalm(indent);
      JoinCalm(text, indent);
      BreakCalm(text + ("\n" + indent));
    } else {
      BreakCalm(text);
    }
  }

  lemma LaidLit(t: Template, indent: string, first: bool)
    requires Tabbed(indent)
    ensures var text := Indented(Escaped(t.lit, true), indent, first, t.End?);
            var ended := if t.End? then text + ("\n" + indent) else text;
            var lit := Laid(t, indent, first).lit;
            && lit == (if first then "\n" + ended else ended)
            && (t.End? ==> lit != [] && lit[|lit| - 1] != '\"')
  {
    hide Escaped, Indented, Tabbed;
    var text := Indented(Escaped(t.lit, true), indent, first, t.End?);
    var ended := if t.End? then text + ("\n" + indent) else text;
    assert "" + ended == ended;
    EndsInTab(text, indent);
    EndsInTab("\n" + text, indent);
    assert ("\n" + text) + ("\n" + indent) == "\n" + (text + ("\n" + indent));
  }

  lemma EndsInTab(s: string, indent: string)
    requires Tabbed(indent)
    ensures var text := s + ("\n" + indent); text[|text| - 1] == '\t'
  {
    assert indent[|indent| - 1] in indent;
  }

  lemma ClosingCalm(indent: string)
    requires Tabbed(indent)
    ensures Calm("\n" + indent) && NoTriple("\n" + indent)
  {
    MarginCalm(indent, []);
    assert indent + [] == indent;
    BreakCalm(indent);
  }

  lemma BreakCalm(s: string)
    requires Calm(s) && NoTriple(s)
    ensures Calm("\n" + s) && NoTriple("\n" + s)
  {
    assert ("\n" + s)[1..] == s;
  }

  lemma {:induction false} JoinCalm(a: string, indent: string)
    requires Calm(a) && NoTriple(a) && Calm("\n" + indent) && NoTriple("\n" + indent)
    ensures Calm(a + ("\n" + indent)) && NoTriple(a + ("\n" + indent))
    decreases |a|
  {
    var b := "\n" + indent;
    if a == [] {
      assert a + b == b;
    } else if a[0] == '\\' {
      NoTriple2(a);
      JoinCalm(a[2..], indent);
      assert (a + b)[2..] == a[2..] + b && (a + b)[1..][1..] == a[2..] + b && (a + b)[1..][0] == a[1];
    } else {
      JoinCalm(a[1..], indent);
      assert (a + b)[1..] == a[1..] + b;
    }
  }

  // ----- the block in its file -----

  /** What stripping makes of the text before a block: its last line is kept as it is. */
  function Kept(pre: string): string
    decreases |pre|
  {
    var k := LineEnd(pre);
    if k == |pre| then pre else TrimEnd(pre[..k]) + ("\n" + Kept(pre[k + 1..]))
  }

  lemma {:induction false} StripBehind(pre: string, line: string, rest: string)
    requires '\n' !in line && line != [] && !IsSpace(line[|line| - 1])
    ensures Strip(pre + (line + ("\n" + rest))) == Kept(pre) + (line + ("\n" + Strip(rest)))
    decreases |pre|
  {
    hide Strip, TrimEnd, LineEnd;
    var k := LineEnd(pre);
    if k == |pre| {
      assert pre[..k] == pre;
      assert pre + (line + ("\n" + rest)) == (pre + line) + ("\n" + rest);
      StripLine(pre + line, rest);
      TrimKeeps(pre, line) by { TrimVisible(line); }
    } else {
      var first, more := pre[..k], pre[k + 1..];
      assert pre == first + ("\n" + more);
      assert pre + (line + ("\n" + rest)) == first + ("\n" + (more + (line + ("\n" + rest))));
      StripLine(first, more + (line + ("\n" + rest)));
      StripBehind(more, line, rest);
    }
  }

  lemma TrimVisible(line: string)
    requires line != [] && !IsSpace(line[|line| - 1])
    ensures TrimEnd(line) == line
  {
  }

  /** A block between its quotes, as a file holds it. */
  function BlockLiteral(t: Template, indent: string): string {
    QUOTES + (Body(Laid(TidyHoles(t), indent, true), true) + QUOTES)
  }

  /** Stripping the file turns the rendered block into the laid out one. */
  lemma StripLaysOut(pre: string, t: Template, n: nat, post: string)
    requires BlockSafe(t)
    ensures var indent := PrettyDoc.Tabs(n + 1);
            Strip(pre + ((QUOTES + (("\n" + indent) + (Spread(t, indent) + (("\n" + indent) + QUOTES)))) + post))
            == Kept(pre) + (BlockLiteral(t, indent) + Strip(post))
  {
    hide Strip, Spread, Kept, LinesTrimmed, Body, Laid, TidyHoles, Blank, PrettyDoc.Tabs, Visible, RunsVisible;
    var indent := PrettyDoc.Tabs(n + 1);
    TabsAre(n + 1);
    TrimmedIsVisible(Synth(t));
    BodyVisible(t);
    StripSpread(t, indent, true, post);
    var rest := indent + (Spread(t, indent) + Closing(indent, post));
    assert ("\n" + indent) + (Spread(t, indent) + Closing(indent, post)) == ['\n'] + rest;
    StripAlive('\n', rest);
    BeforeStrip(pre, indent, Spread(t, indent), post);
    StripBehind(pre, QUOTES, rest);
    AfterStrip(Body(Laid(TidyHoles(t), indent, true), true), Strip(post));
  }

  lemma BeforeStrip(pre: string, indent: string, body: string, post: string)
    ensures pre + ((QUOTES + (("\n" + indent) + (body + (("\n" + indent) + QUOTES)))) + post)
         == pre + (QUOTES + ("\n" + (indent + (body + Closing(indent, post)))))
  {
  }

  lemma AfterStrip(body: string, post: string)
    ensures QUOTES + (body + (QUOTES + post)) == (QUOTES + (body + QUOTES)) + post
  {
  }

  lemma TabsAre(n: nat)
    requires n > 0
    ensures Tabbed(PrettyDoc.Tabs(n)) && Blank(PrettyDoc.Tabs(n)) && AllMargin(PrettyDoc.Tabs(n)) && '\n' !in PrettyDoc.Tabs(n)
  {
  }

  /** A block string round trip: for every template that passes the block test, at any
      indentation and width, between any text before and after it, the stripped file holds
      a triple-quoted literal whose tokens' parts dedent and decode to the template's own
      literal runs, and tokenizing goes on behind it. Of the interpolated code, which may go
      over several lines, the file holds all but the white space at the ends of lines. */
  lemma BlockRoundTrip(t: Template, n: nat, col: nat, lead: PrettyDoc.Lead, width: nat, pre: string, post: string, st: State)
    requires BlockSafe(t) && GoodHoles(t)
    requires var file := pre + (PrettyDoc.Spell(PrettyDoc.Lay(BlockDoc(Segs(t)), n, col, lead, width)) + post);
             CodeMode(Strip(file), st) && st.index == |Kept(pre)|
    ensures var src := Strip(pre + (PrettyDoc.Spell(PrettyDoc.Lay(BlockDoc(Segs(t)), n, col, lead, width)) + post));
            var text := BlockLiteral(t, PrettyDoc.Tabs(n + 1));
            var tokens := BodyTokens(Laid(TidyHoles(t), PrettyDoc.Tabs(n + 1), true), true, true, st.index + 3);
            && src == Kept(pre) + (text + Strip(post))
            && CodeMode(src, st.(index := st.index + |text|))
            && Tokens(src, st) == tokens + Tokens(src, st.(index := st.index + |text|))
            && DecodeAll(Dedent(Parts(src, tokens, 0))) == Runs(t)
  {
    hide PrettyDoc.Spell, PrettyDoc.Lay, Strip, Kept, Body, Laid, Spread, TidyHoles, Tokens, BodyTokens, Parts, Dedent, DecodeAll, PrettyDoc.Tabs;
    var indent := PrettyDoc.Tabs(n + 1);
    TabsAre(n + 1);
    BlockSpells(t, n, col, lead, width);
    StripLaysOut(pre, t, n, post);
    var src := Kept(pre) + (BlockLiteral(t, indent) + Strip(post));
    TidyGood(t);
    TidyKeeps(t);
    BlockLexes(src, st, TidyHoles(t), indent, Strip(post), Kept(pre));
  }

  /** Tidying changes code alone. */
  lemma {:induction false} TidyKeeps(t: Template)
    ensures Runs(TidyHoles(t)) == Runs(t) && (RunsWithoutTriple(TidyHoles(t)) <==> RunsWithoutTriple(t))
  {
    if t.More? { TidyKeeps(t.rest); }
  }

  lemma BlockLexes(src: string, st: State, t: Template, indent: string, post: string, pre: string)
    requires src == pre + ((QUOTES + (Body(Laid(t, indent, true), true) + QUOTES)) + post) && CodeMode(src, st) && st.index == |pre|
    requires Tabbed(indent) && AllMargin(indent) && RunsWithoutTriple(t) && GoodHoles(t)
    ensures var j := st.index + |QUOTES + (Body(Laid(t, indent, true), true) + QUOTES)|; var tokens := BodyTokens(Laid(t, indent, true), true, true, st.index + 3);
            && CodeMode(src, st.(index := j)) && Tokens(src, st) == tokens + Tokens(src, st.(index := j))
            && DecodeAll(Dedent(Parts(src, tokens, 0))) == Runs(t)
  {
    hide Body, Laid, Tokens, BodyTokens, Parts, Dedent, DecodeAll, Portions, GoodHoles, RawRuns;
    var at, laid := st.index, Laid(t, indent, true);
    var inside := st.(strings := st.strings + [at + 3], triples := st.triples + [true], index := at + 3);
    BlockPlaces(src, pre, Body(laid, true), post);
    OpensTriple(src, st);
    LaidPortions(src, at + 3, t, indent, true);
    LaidHoles(t, indent, true);
    LexesBody(src, inside, laid, true, true);
    var j := at + |QUOTES + (Body(Laid(t, indent, true), true) + QUOTES)|;
    assert Closed(inside, j) == st.(index := j);
    BodyParts(src, laid, true, true, at + 3, []);
    var tokens := BodyTokens(laid, true, true, at + 3);
    assert tokens + [] == tokens && RawRuns(laid, true) + [] == RawRuns(laid, true);
    NoParts(src);
    DedentUndoesLayout(t, indent);
    BlockRunsDecode(t);
  }

  lemma BlockPlaces(src: string, pre: string, body: string, post: string)
    requires src == pre + ((QUOTES + (body + QUOTES)) + post)
    ensures var at := |pre|; var j := at + 3 + |body|;
            IsTripleQuote(src, at) && Here(src, at + 3, body) && IsTripleQuote(src, j)
  {
  }

  lemma OpensTriple(src: string, st: State)
    requires CodeMode(src, st) && IsTripleQuote(src, st.index)
    ensures var st' := st.(strings := st.strings + [st.index + 3], triples := st.triples + [true], index := st.index + 3);
            LiteralMode(src, st', true) && Tokens(src, st) == Tokens(src, st') && !IsEscaped(src, st.index + 3)
  {
    hide Tokens;
    TokensStep(src, st);
    assert Next(src, st) == Go(Opened(src, st));
  }

  lemma {:induction false} LaidHoles(t: Template, indent: string, first: bool)
    requires GoodHoles(t)
    ensures GoodHoles(Laid(t, indent, first))
    decreases t
  {
    hide Indented, Escaped;
    if t.More? { LaidHoles(t.rest, indent, false); }
  }
}
