/** The text a block string is rendered to: its document, the document's spelling at any
    indentation, and the test that lets a template be written as a block. */
module BlockText {
  import opened Escapes
  import opened Templates
  import opened BlockLayout
  import PrettyDoc

  datatype BlockSeg = LitSeg(s: string) | ExprSeg(inner: string)

  function Segs(t: Template): seq<BlockSeg> {
    match t
    case End(l) => [LitSeg(l)]
    case More(l, h, r) => [LitSeg(l), ExprSeg(CodeText(h))] + Segs(r)
  }

  // ----- the document -----

  /** A literal run: its lines as texts with hard line breaks between, empty texts left out. */
  function LineDocs(e: string): seq<PrettyDoc.Doc>
    decreases |e|
  {
    var k := LineEnd(e);
    if k == |e| then LineText(e) else LineText(e[..k]) + ([PrettyDoc.HardLine] + LineDocs(e[k + 1..]))
  }

  function LineText(line: string): seq<PrettyDoc.Doc> { if line == [] then [] else [PrettyDoc.Text(line)] }

  function SegDoc(seg: BlockSeg): seq<PrettyDoc.Doc> {
    match seg
    case LitSeg(s) => LineDocs(Escaped(s, true))
    case ExprSeg(inner) => [PrettyDoc.Text("$(" + (inner + ")"))]
  }

  function SegDocs(segs: seq<BlockSeg>): seq<PrettyDoc.Doc> {
    if segs == [] then [] else SegDoc(segs[0]) + SegDocs(segs[1..])
  }

  function BlockDoc(segs: seq<BlockSeg>): PrettyDoc.Doc {
    PrettyDoc.Concat([
      PrettyDoc.Text(QUOTES),
      PrettyDoc.Nest(1, PrettyDoc.Concat([PrettyDoc.HardLine] + SegDocs(segs) + [PrettyDoc.HardLine, PrettyDoc.Text(QUOTES)]))])
  }

  method RenderBlockString(segs: seq<BlockSeg>) returns (doc: PrettyDoc.Doc)
    ensures doc == BlockDoc(segs)
  {
    hide LineDocs, SegDocs;
    var body := [PrettyDoc.HardLine];
    assert segs[0..] == segs;
    for i := 0 to |segs|
      invariant body + SegDocs(segs[i..]) == [PrettyDoc.HardLine] + SegDocs(segs)
    {
      SegStep(segs, i, body);
      match segs[i] {
        case LitSeg(s) =>
          var escaped := EscapeBlockSegment(s);
          var lines := SplitLines(escaped);
          body := body + lines;
        case ExprSeg(inner) => body := body + [PrettyDoc.Text("$(" + (inner + ")"))];
      }
    }
    NoSegs(segs[|segs|..]);
    assert body + [] == body;
    body := body + [PrettyDoc.HardLine, PrettyDoc.Text(QUOTES)];
    doc := PrettyDoc.Concat([PrettyDoc.Text(QUOTES), PrettyDoc.Nest(1, PrettyDoc.Concat(body))]);
  }

  lemma SegStep(segs: seq<BlockSeg>, i: nat, body: seq<PrettyDoc.Doc>)
    requires i < |segs|
    ensures body + SegDocs(segs[i..]) == (body + SegDoc(segs[i])) + SegDocs(segs[i + 1..])
  {
    hide SegDoc;
    assert segs[i..][1..] == segs[i + 1..];
    Assoc(body, SegDoc(segs[i]), SegDocs(segs[i + 1..]));
  }

  lemma NoSegs(segs: seq<BlockSeg>)
    requires segs == []
    ensures SegDocs(segs) == []
  {
  }

  method SplitLines(escaped: string) returns (docs: seq<PrettyDoc.Doc>)
    ensures docs == LineDocs(escaped)
  {
    hide LineDocs, LineEnd;
    docs := [];
    var rest, more := escaped, true;
    while more
      invariant if more then docs + LineDocs(rest) == LineDocs(escaped) else docs == LineDocs(escaped)
      decreases more, |rest|
    {
      LineStep(rest, docs);
      var k := LineEnd(rest);
      docs := docs + LineText(rest[..k]);
      if k == |rest| {
        more := false;
      } else {
        docs := docs + [PrettyDoc.HardLine];
        rest := rest[k + 1..];
      }
    }
  }

  lemma LineStep(e: string, docs: seq<PrettyDoc.Doc>)
    ensures var k := LineEnd(e);
            && (k == |e| ==> docs + LineDocs(e) == docs + LineText(e[..k]))
            && (k < |e| ==> docs + LineDocs(e) == docs + LineText(e[..k]) + [PrettyDoc.HardLine] + LineDocs(e[k + 1..]))
  {
    hide LineEnd, LineText;
    var k := LineEnd(e);
    assert e[..|e|] == e;
    if k < |e| {
      var rest := LineDocs(e[k + 1..]);
      Assoc(LineText(e[..k]), [PrettyDoc.HardLine], rest);
      Assoc(docs, LineText(e[..k]) + [PrettyDoc.HardLine], rest);
      Assoc(docs, LineText(e[..k]), [PrettyDoc.HardLine]);
    }
  }

  // ----- its spelling -----

  ghost predicate Unbroken(ds: seq<PrettyDoc.Doc>) { forall d :: d in ds ==> d.Text? || d.HardLine? }

  ghost function Spelled(ds: seq<PrettyDoc.Doc>, indent: string): string
    requires Unbroken(ds)
  {
    if ds == [] then [] else (if ds[0].Text? then ds[0].s else "\n" + indent) + Spelled(ds[1..], indent)
  }

  lemma {:induction false} SpelledConcat(a: seq<PrettyDoc.Doc>, b: seq<PrettyDoc.Doc>, indent: string)
    requires Unbroken(a) && Unbroken(b)
    ensures Unbroken(a + b) && Spelled(a + b, indent) == Spelled(a, indent) + Spelled(b, indent)
  {
    if a == [] {
      assert a + b == b;
    } else {
      assert (a + b)[1..] == a[1..] + b;
      SpelledConcat(a[1..], b, indent);
    }
  }

  /** Texts and hard line breaks are spelled the same at every width. */
  lemma {:induction false} LaySpells(ds: seq<PrettyDoc.Doc>, n: nat, col: nat, after: PrettyDoc.Lead, width: nat)
    requires Unbroken(ds)
    ensures PrettyDoc.Spell(PrettyDoc.LayAll(ds, n, col, after, width)) == Spelled(ds, PrettyDoc.Tabs(n))
    decreases |ds|
  {
    if ds != [] {
      assert ds[0] in ds;
      var first := PrettyDoc.Lay(ds[0], n, col, PrettyDoc.Then(PrettyDoc.FirstLineAll(ds[1..], PrettyDoc.Break), after), width);
      assert first == [if ds[0].Text? then PrettyDoc.Chunk(ds[0].s) else PrettyDoc.Newline(n)];
      LaySpells(ds[1..], n, PrettyDoc.ColumnAfter(col, first), after, width);
      PrettyDoc.SpellConcat(first, PrettyDoc.LayAll(ds[1..], n, PrettyDoc.ColumnAfter(col, first), after, width));
      assert first[1..] == [] && PrettyDoc.Spell(first) == PrettyDoc.Glyphs(first[0]);
    }
  }

  lemma {:induction false} LinesSpell(e: string, indent: string)
    ensures Unbroken(LineDocs(e)) && Spelled(LineDocs(e), indent) == IndentAll(e, indent)
    decreases |e|
  {
    hide LineEnd, IndentAll, Spelled;
    var k := LineEnd(e);
    var line := e[..k];
    IndentAllLine(line, indent);
    LineSpells(line, indent);
    if k == |e| {
      assert line == e;
    } else {
      var rest := e[k + 1..];
      LinesSpell(rest, indent);
      assert e == line + ("\n" + rest);
      SplitIndentAll(line, rest, indent);
      BreakSpells(LineDocs(rest), indent);
      SpelledConcat(LineText(line), [PrettyDoc.HardLine] + LineDocs(rest), indent);
    }
  }

  lemma LineSpells(line: string, indent: string)
    ensures Unbroken(LineText(line)) && Spelled(LineText(line), indent) == line
  {
    if line != [] { assert LineText(line)[1..] == []; }
  }

  lemma BreakSpells(ds: seq<PrettyDoc.Doc>, indent: string)
    requires Unbroken(ds)
    ensures Unbroken([PrettyDoc.HardLine] + ds) && Spelled([PrettyDoc.HardLine] + ds, indent) == ("\n" + indent) + Spelled(ds, indent)
  {
    assert ([PrettyDoc.HardLine] + ds)[1..] == ds;
  }

  /** The template with its literal runs escaped for a block. */
  function BlockEscaped(t: Template): Template {
    match t
    case End(l) => End(Escaped(l, true))
    case More(l, h, r) => More(Escaped(l, true), h, BlockEscaped(r))
  }

  /** The block's body as rendered: literal runs indented, code as it was printed. */
  function Spread(t: Template, indent: string): string {
    match t
    case End(l) => IndentAll(Escaped(l, true), indent)
    case More(l, h, r) => IndentAll(Escaped(l, true), indent) + (("$(" + (CodeText(h) + ")")) + Spread(r, indent))
  }

  lemma {:induction false} SegsSpell(t: Template, indent: string)
    ensures Unbroken(SegDocs(Segs(t))) && Spelled(SegDocs(Segs(t)), indent) == Spread(t, indent)
    decreases t
  {
    hide IndentAll, Spelled, LineDocs, Escaped, CodeText;
    var lines := LineDocs(Escaped(t.lit, true));
    LinesSpell(Escaped(t.lit, true), indent);
    if t.End? {
      assert SegDocs(Segs(t)) == lines;
    } else {
      SegsSpell(t.rest, indent);
      var hole := "$(" + (CodeText(t.hole) + ")");
      TextSpells(hole, indent);
      SegsMore(t);
      SpelledConcat(lines, [PrettyDoc.Text(hole)] + SegDocs(Segs(t.rest)), indent);
      SpelledConcat([PrettyDoc.Text(hole)], SegDocs(Segs(t.rest)), indent);
    }
  }

  lemma SegsMore(t: Template)
    requires t.More?
    ensures SegDocs(Segs(t)) == LineDocs(Escaped(t.lit, true)) + ([PrettyDoc.Text("$(" + (CodeText(t.hole) + ")"))] + SegDocs(Segs(t.rest)))
  {
    hide LineDocs, Escaped, CodeText;
    var segs := Segs(t);
    assert segs[1..][1..] == Segs(t.rest) && segs[1..][0] == ExprSeg(CodeText(t.hole));
  }

  lemma TextSpells(text: string, indent: string)
    ensures Unbroken([PrettyDoc.Text(text)]) && Spelled([PrettyDoc.Text(text)], indent) == text
  {
    var one: seq<PrettyDoc.Doc> := [PrettyDoc.Text(text)];
    assert one[1..] == [];
  }

  /** The block at indentation `n`, at any width: quotes, the indented body, quotes. */
  lemma BlockSpells(t: Template, n: nat, col: nat, after: PrettyDoc.Lead, width: nat)
    ensures var indent := PrettyDoc.Tabs(n + 1);
            PrettyDoc.Spell(PrettyDoc.Lay(BlockDoc(Segs(t)), n, col, after, width))
            == QUOTES + (("\n" + indent) + (Spread(t, indent) + (("\n" + indent) + QUOTES)))
  {
    hide Spread, SegDocs, Spelled, PrettyDoc.Tabs;
    var indent, docs := PrettyDoc.Tabs(n + 1), SegDocs(Segs(t));
    SegsSpell(t, indent);
    InnerSpells(docs, indent);
    NestSpells([PrettyDoc.HardLine] + docs + [PrettyDoc.HardLine, PrettyDoc.Text(QUOTES)], n, col, after, width);
  }

  lemma InnerSpells(docs: seq<PrettyDoc.Doc>, indent: string)
    requires Unbroken(docs)
    ensures var inner := [PrettyDoc.HardLine] + docs + [PrettyDoc.HardLine, PrettyDoc.Text(QUOTES)];
            Unbroken(inner) && Spelled(inner, indent) == ("\n" + indent) + (Spelled(docs, indent) + (("\n" + indent) + QUOTES))
  {
    var open: seq<PrettyDoc.Doc>, close: seq<PrettyDoc.Doc> := [PrettyDoc.HardLine], [PrettyDoc.HardLine, PrettyDoc.Text(QUOTES)];
    assert open[1..] == [] && Spelled(open, indent) == "\n" + indent;
    assert close[1..] == [PrettyDoc.Text(QUOTES)] && close[1..][1..] == [];
    assert Spelled(close[1..], indent) == QUOTES;
    assert Spelled(close, indent) == ("\n" + indent) + QUOTES;
    SpelledConcat(open, docs, indent);
    SpelledConcat(open + docs, close, indent);
  }

  lemma NestSpells(inner: seq<PrettyDoc.Doc>, n: nat, col: nat, after: PrettyDoc.Lead, width: nat)
    requires Unbroken(inner)
    ensures PrettyDoc.Spell(PrettyDoc.Lay(PrettyDoc.Concat([PrettyDoc.Text(QUOTES), PrettyDoc.Nest(1, PrettyDoc.Concat(inner))]), n, col, after, width))
            == QUOTES + Spelled(inner, PrettyDoc.Tabs(n + 1))
  {
    hide Spelled;
    var nest := PrettyDoc.Nest(1, PrettyDoc.Concat(inner));
    var parts, first := [PrettyDoc.Text(QUOTES), nest], [PrettyDoc.Chunk(QUOTES)];
    var col' := PrettyDoc.ColumnAfter(col, first);
    var laid := PrettyDoc.LayAll(inner, n + 1, col', after, width);
    LaySpells(inner, n + 1, col', after, width);
    LastPart(nest, n, col', after, width);
    assert parts[1..] == [nest];
    assert PrettyDoc.LayAll(parts, n, col, after, width) == first + PrettyDoc.LayAll([nest], n, col', after, width);
    PrettyDoc.SpellConcat(first, laid);
    assert first[1..] == [] && PrettyDoc.Spell(first) == QUOTES;
  }

  lemma LastPart(d: PrettyDoc.Doc, n: nat, col: nat, after: PrettyDoc.Lead, width: nat)
    ensures PrettyDoc.LayAll([d], n, col, after, width) == PrettyDoc.Lay(d, n, col, after, width)
  {
    var one := [d];
    assert one[1..] == [];
    PrettyDoc.ThenAssociates(PrettyDoc.NOTHING, after, PrettyDoc.NOTHING);
    assert PrettyDoc.Then(PrettyDoc.FirstLineAll(one[1..], PrettyDoc.Break), after) == after;
  }
}
