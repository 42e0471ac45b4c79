/** What the recursive layout guarantees: line width, conservation of text, flatness. */
module Layout {
  import opened PrettyDoc

  /** One line of output: leading tabs, text, and whether a group was laid out flat on it. */
  datatype OutLine = OutLine(indent: nat, text: string, flat: bool)

  /** The columns of a line; each tab counts as four. */
  function Columns(l: OutLine): nat { 4 * l.indent + |l.text| }

  ghost function Lines(ps: seq<Piece>, cur: OutLine): (ls: seq<OutLine>)
    ensures |ls| > 0
    decreases ps
  {
    if ps == [] then [cur] else
      match ps[0]
      case Chunk(s) => Lines(ps[1..], cur.(text := cur.text + s))
      case Blank => Lines(ps[1..], cur.(text := cur.text + " "))
      case FlatGroup => Lines(ps[1..], cur.(flat := true))
      case Newline(n) => [cur] + Lines(ps[1..], OutLine(n, "", false))
  }

  ghost function Last(ls: seq<OutLine>): OutLine
    requires ls != []
  {
    ls[|ls| - 1]
  }

  ghost predicate WithinWidth(ls: seq<OutLine>, width: nat) {
    forall l :: l in ls ==> l.flat ==> Columns(l) <= width
  }

  lemma {:induction false} LinesConcat(ps: seq<Piece>, qs: seq<Piece>, cur: OutLine)
    ensures var first := Lines(ps, cur);
            Lines(ps + qs, cur) == first[..|first| - 1] + Lines(qs, Last(first))
    decreases ps
  {
    if ps == [] {
      assert ps + qs == qs;
    } else {
      assert (ps + qs)[1..] == ps[1..] + qs;
      match ps[0]
      case Chunk(s) => LinesConcat(ps[1..], qs, cur.(text := cur.text + s));
      case Blank => LinesConcat(ps[1..], qs, cur.(text := cur.text + " "));
      case FlatGroup => LinesConcat(ps[1..], qs, cur.(flat := true));
      case Newline(n) => LinesConcat(ps[1..], qs, OutLine(n, "", false));
    }
  }

  lemma {:induction false} LastColumn(ps: seq<Piece>, cur: OutLine)
    ensures Columns(Last(Lines(ps, cur))) == ColumnAfter(Columns(cur), ps)
    decreases ps
  {
    if ps != [] {
      match ps[0]
      case Chunk(s) => LastColumn(ps[1..], cur.(text := cur.text + s));
      case Blank => LastColumn(ps[1..], cur.(text := cur.text + " "));
      case FlatGroup => LastColumn(ps[1..], cur.(flat := true));
      case Newline(n) => LastColumn(ps[1..], OutLine(n, "", false));
    }
  }

  /** Pieces without a newline leave one line. */
  lemma {:induction false} OneLine(ps: seq<Piece>, cur: OutLine)
    requires forall p :: p in ps ==> !p.Newline?
    ensures |Lines(ps, cur)| == 1
    ensures cur.flat ==> Last(Lines(ps, cur)).flat
    decreases ps
  {
    if ps != [] {
      assert ps[0] in ps;
      assert forall p :: p in ps[1..] ==> p in ps;
      match ps[0]
      case Chunk(s) => OneLine(ps[1..], cur.(text := cur.text + s));
      case Blank => OneLine(ps[1..], cur.(text := cur.text + " "));
      case FlatGroup => OneLine(ps[1..], cur.(flat := true));
    }
  }

  // ----- width -----

  /** A line that carries a flat group still has room for what is left of it. */
  ghost predicate HasRoom(l: OutLine, rest: Lead, width: nat) {
    l.flat ==> LeadFits(rest, width - Columns(l))
  }

  /** Laying out a document finishes only lines within the width, and leaves the current
      line with room for what follows. */
  ghost predicate Keeps(ps: seq<Piece>, cur: OutLine, after: Lead, width: nat) {
    var ls := Lines(ps, cur);
    WithinWidth(ls[..|ls| - 1], width) && HasRoom(Last(ls), after, width)
  }

  lemma KeepsConcat(ps: seq<Piece>, qs: seq<Piece>, cur: OutLine, middle: Lead, after: Lead, width: nat)
    requires Keeps(ps, cur, middle, width)
    requires Keeps(qs, Last(Lines(ps, cur)), after, width)
    ensures Keeps(ps + qs, cur, after, width)
  {
    LinesConcat(ps, qs, cur);
    var first, second := Lines(ps, cur), Lines(qs, Last(Lines(ps, cur)));
    var all := Lines(ps + qs, cur);
    assert all[..|all| - 1] == first[..|first| - 1] + second[..|second| - 1];
  }

  lemma FlatKeeps(d: Doc, cur: OutLine, after: Lead, width: nat)
    requires LeadFits(Then(FirstLine(d, Flat), after), width - Columns(cur))
    ensures Keeps([FlatGroup] + FlatPieces(d), cur, after, width)
  {
    FlatEnds(d);
    FlatHasNoNewline(d);
    var ps := [FlatGroup] + FlatPieces(d);
    OneLine(ps, cur);
    LastColumn(ps, cur);
    assert ColumnAfter(Columns(cur), ps) == ColumnAfter(Columns(cur), FlatPieces(d)) by { assert ps[1..] == FlatPieces(d); }
  }

  lemma {:induction false} LayKeeps(d: Doc, indent: nat, cur: OutLine, after: Lead, width: nat)
    requires HasRoom(cur, Then(FirstLine(d, Break), after), width)
    ensures Keeps(Lay(d, indent, Columns(cur), after, width), cur, after, width)
    decreases d, 1
  {
    match d
    case Nil => assert Lines([], cur) == [cur];
    case Text(s) => assert Lines([Chunk(s)], cur) == Lines([], cur.(text := cur.text + s)) by { assert [Chunk(s)][1..] == []; }
    case HardLine => OneBreak(indent, cur);
    case Line => OneBreak(indent, cur);
    case SoftBreak => OneBreak(indent, cur);
    case IfFlat(_, b) => LayKeeps(b, indent, cur, after, width);
    case Nest(n, b) => LayKeeps(b, indent + n, cur, after, width);
    case Concat(ps) => LayAllKeeps(ps, indent, cur, after, width);
    case Group(b) =>
      if LeadFits(Then(FirstLine(b, Flat), after), width - Columns(cur)) {
        FlatKeeps(b, cur, after, width);
      } else {
        LayKeeps(b, indent, cur, after, width);
      }
  }

  lemma OneBreak(indent: nat, cur: OutLine)
    ensures Lines([Newline(indent)], cur) == [cur, OutLine(indent, "", false)]
  {
    assert [Newline(indent)][1..] == [];
  }

  lemma {:induction false} LayAllKeeps(ps: seq<Doc>, indent: nat, cur: OutLine, after: Lead, width: nat)
    requires HasRoom(cur, Then(FirstLineAll(ps, Break), after), width)
    ensures Keeps(LayAll(ps, indent, Columns(cur), after, width), cur, after, width)
    decreases ps, 0
  {
    if ps == [] {
      assert Lines([], cur) == [cur];
    } else {
      var middle := Then(FirstLineAll(ps[1..], Break), after);
      ThenAssociates(FirstLine(ps[0], Break), FirstLineAll(ps[1..], Break), after);
      LayKeeps(ps[0], indent, cur, middle, width);
      var first := Lay(ps[0], indent, Columns(cur), middle, width);
      var next := Last(Lines(first, cur));
      LastColumn(first, cur);
      LayAllKeeps(ps[1..], indent, next, after, width);
      KeepsConcat(first, LayAll(ps[1..], indent, Columns(next), after, width), cur, middle, after, width);
    }
  }

  const START: OutLine := OutLine(0, "", false)

  ghost function LinesOf(doc: Doc, width: nat): seq<OutLine> {
    Lines(Lay(doc, 0, 0, NOTHING, width), START)
  }

  /** Every line on which some group was laid out flat is within the width. */
  lemma FlatLinesFit(doc: Doc, width: nat)
    ensures WithinWidth(LinesOf(doc, width), width)
  {
    LayKeeps(doc, 0, START, NOTHING, width);
    var ls := LinesOf(doc, width);
    assert ls == ls[..|ls| - 1] + [Last(ls)];
  }

  // ----- the lines are the lines of the string -----

  ghost function Join(ls: seq<OutLine>): string
    requires ls != []
  {
    Content(ls[0]) + if |ls| == 1 then "" else "\n" + Join(ls[1..])
  }

  ghost function Content(l: OutLine): string { Tabs(l.indent) + l.text }

  lemma ContentExtend(cur: OutLine, s: string, rest: string)
    ensures Content(cur.(text := cur.text + s)) + rest == Content(cur) + (s + rest)
  {
  }

  lemma BreakSpelling(before: string, n: nat, rest: string)
    ensures before + ("\n" + (Content(OutLine(n, "", false)) + rest)) == before + (Glyphs(Newline(n)) + rest)
  {
    assert Content(OutLine(n, "", false)) == Tabs(n);
    assert "\n" + (Tabs(n) + rest) == ("\n" + Tabs(n)) + rest;
  }

  lemma {:induction false} JoinLines(ps: seq<Piece>, cur: OutLine)
    ensures Join(Lines(ps, cur)) == Content(cur) + Spell(ps)
    decreases ps
  {
    if ps == [] {
      assert Content(cur) + "" == Content(cur);
    } else if ps[0].Newline? {
      var next := OutLine(ps[0].indent, "", false);
      JoinLines(ps[1..], next);
      JoinCons(cur, Lines(ps[1..], next));
      BreakSpelling(Content(cur), ps[0].indent, Spell(ps[1..]));
    } else {
      var next := if ps[0].FlatGroup? then cur.(flat := true) else cur.(text := cur.text + Glyphs(ps[0]));
      JoinLines(ps[1..], next);
      ContentExtend(cur, Glyphs(ps[0]), Spell(ps[1..]));
      assert cur.text + "" == cur.text;
    }
  }

  lemma JoinCons(l: OutLine, ls: seq<OutLine>)
    requires ls != []
    ensures Join([l] + ls) == Content(l) + ("\n" + Join(ls))
  {
    assert ([l] + ls)[1..] == ls;
  }

  ghost predicate ChunksWithoutNewline(ps: seq<Piece>) {
    forall p :: p in ps && p.Chunk? ==> '\n' !in p.s
  }

  lemma {:induction false} LinesWithoutNewline(ps: seq<Piece>, cur: OutLine)
    requires ChunksWithoutNewline(ps) && '\n' !in cur.text
    ensures forall l :: l in Lines(ps, cur) ==> '\n' !in l.text
    decreases ps
  {
    if ps != [] {
      assert ps[0] in ps;
      assert forall p :: p in ps[1..] ==> p in ps;
      match ps[0]
      case Chunk(s) => LinesWithoutNewline(ps[1..], cur.(text := cur.text + s));
      case Blank => LinesWithoutNewline(ps[1..], cur.(text := cur.text + " "));
      case FlatGroup => LinesWithoutNewline(ps[1..], cur.(flat := true));
      case Newline(n) => LinesWithoutNewline(ps[1..], OutLine(n, "", false));
    }
  }

  // ----- text -----

  /** The texts of a document, in order. */
  ghost function Texts(d: Doc): seq<string>
    decreases d, 1
  {
    match d
    case Text(s) => [s]
    case IfFlat(a, _) => Texts(a)
    case Nest(_, b) => Texts(b)
    case Concat(ps) => TextsAll(ps)
    case Group(b) => Texts(b)
    case _ => []
  }

  ghost function TextsAll(ps: seq<Doc>): seq<string>
    decreases ps, 0
  {
    if ps == [] then [] else Texts(ps[0]) + TextsAll(ps[1..])
  }

  /** Both sides of every `IfFlat` carry the same texts; in particular, no `IfFlat` at all. */
  ghost predicate Uniform(d: Doc)
    decreases d
  {
    match d
    case IfFlat(a, b) => Uniform(a) && Uniform(b) && Texts(a) == Texts(b)
    case Nest(_, b) => Uniform(b)
    case Concat(ps) => forall p :: p in ps ==> Uniform(p)
    case Group(b) => Uniform(b)
    case _ => true
  }

  /** The texts among some pieces. */
  ghost function Chunks(ps: seq<Piece>): seq<string> {
    if ps == [] then [] else (if ps[0].Chunk? then [ps[0].s] else []) + Chunks(ps[1..])
  }

  lemma {:induction false} ChunksConcat(ps: seq<Piece>, qs: seq<Piece>)
    ensures Chunks(ps + qs) == Chunks(ps) + Chunks(qs)
  {
    if ps == [] {
      assert ps + qs == qs;
    } else {
      assert (ps + qs)[1..] == ps[1..] + qs;
      ChunksConcat(ps[1..], qs);
    }
  }

  lemma FlatKeepsTexts(d: Doc)
    ensures Chunks(FlatPieces(d)) == Texts(d)
    decreases d, 1
  {
    match d
    case Text(s) => assert [Chunk(s)][1..] == [];
    case HardLine => assert [Newline(0)][1..] == [];
    case Line => assert [Blank][1..] == [];
    case Concat(ps) => FlatKeepsTextsAll(ps);
    case _ =>
  }

  lemma FlatKeepsTextsAll(ps: seq<Doc>)
    ensures Chunks(FlatPiecesAll(ps)) == TextsAll(ps)
    decreases ps, 0
  {
    if ps != [] {
      FlatKeepsTexts(ps[0]);
      FlatKeepsTextsAll(ps[1..]);
      ChunksConcat(FlatPieces(ps[0]), FlatPiecesAll(ps[1..]));
    }
  }

  /** The same texts in the same order at every width, indentation and column. */
  lemma {:induction false} LayKeepsTexts(d: Doc, indent: nat, col: nat, after: Lead, width: nat)
    requires Uniform(d)
    ensures Chunks(Lay(d, indent, col, after, width)) == Texts(d)
    decreases d, 1
  {
    match d
    case Nil =>
    case Text(s) => assert [Chunk(s)][1..] == [];
    case HardLine => assert [Newline(indent)][1..] == [];
    case Line => assert [Newline(indent)][1..] == [];
    case SoftBreak => assert [Newline(indent)][1..] == [];
    case IfFlat(_, b) => LayKeepsTexts(b, indent, col, after, width);
    case Nest(n, b) => LayKeepsTexts(b, indent + n, col, after, width);
    case Concat(ps) => LayAllKeepsTexts(ps, indent, col, after, width);
    case Group(b) =>
      FlatKeepsTexts(b);
      ChunksConcat([FlatGroup], FlatPieces(b));
      assert [FlatGroup][1..] == [];
      LayKeepsTexts(b, indent, col, after, width);
  }

  lemma {:induction false} LayAllKeepsTexts(ps: seq<Doc>, indent: nat, col: nat, after: Lead, width: nat)
    requires forall p :: p in ps ==> Uniform(p)
    ensures Chunks(LayAll(ps, indent, col, after, width)) == TextsAll(ps)
    decreases ps, 0
  {
    if ps != [] {
      var first := Lay(ps[0], indent, col, Then(FirstLineAll(ps[1..], Break), after), width);
      LayKeepsTexts(ps[0], indent, col, Then(FirstLineAll(ps[1..], Break), after), width);
      LayAllKeepsTexts(ps[1..], indent, ColumnAfter(col, first), after, width);
      ChunksConcat(first, LayAll(ps[1..], indent, ColumnAfter(col, first), after, width));
    }
  }

  /** No text of the document, in either alternative of an `IfFlat`, holds a newline. */
  ghost predicate PlainTexts(d: Doc)
    decreases d
  {
    match d
    case Text(s) => '\n' !in s
    case IfFlat(a, b) => PlainTexts(a) && PlainTexts(b)
    case Nest(_, b) => PlainTexts(b)
    case Concat(ps) => forall p :: p in ps ==> PlainTexts(p)
    case Group(b) => PlainTexts(b)
    case _ => true
  }

  lemma {:induction false} FlatIsPlain(d: Doc)
    requires PlainTexts(d)
    ensures ChunksWithoutNewline(FlatPieces(d))
    decreases d, 1
  {
    match d
    case IfFlat(a, _) => FlatIsPlain(a);
    case Nest(_, b) => FlatIsPlain(b);
    case Concat(ps) => FlatIsPlainAll(ps);
    case Group(b) => FlatIsPlain(b);
    case _ =>
  }

  lemma {:induction false} FlatIsPlainAll(ps: seq<Doc>)
    requires forall p :: p in ps ==> PlainTexts(p)
    ensures ChunksWithoutNewline(FlatPiecesAll(ps))
    decreases ps, 0
  {
    if ps != [] {
      FlatIsPlain(ps[0]);
      FlatIsPlainAll(ps[1..]);
    }
  }

  lemma {:induction false} LayIsPlain(d: Doc, indent: nat, col: nat, after: Lead, width: nat)
    requires PlainTexts(d)
    ensures ChunksWithoutNewline(Lay(d, indent, col, after, width))
    decreases d, 1
  {
    match d
    case IfFlat(_, b) => LayIsPlain(b, indent, col, after, width);
    case Nest(n, b) => LayIsPlain(b, indent + n, col, after, width);
    case Concat(ps) => LayAllIsPlain(ps, indent, col, after, width);
    case Group(b) =>
      FlatIsPlain(b);
      LayIsPlain(b, indent, col, after, width);
    case _ =>
  }

  lemma {:induction false} LayAllIsPlain(ps: seq<Doc>, indent: nat, col: nat, after: Lead, width: nat)
    requires forall p :: p in ps ==> PlainTexts(p)
    ensures ChunksWithoutNewline(LayAll(ps, indent, col, after, width))
    decreases ps, 0
  {
    if ps != [] {
      var first := Lay(ps[0], indent, col, Then(FirstLineAll(ps[1..], Break), after), width);
      LayIsPlain(ps[0], indent, col, Then(FirstLineAll(ps[1..], Break), after), width);
      LayAllIsPlain(ps[1..], indent, ColumnAfter(col, first), after, width);
    }
  }

  /** The rendered string of a document whose texts hold no newline: its lines, split at
      every newline character, are the layout's lines, and those carrying a flat group are
      within the width. Where the alternatives hold the same texts, the texts come out
      complete and in order. */
  lemma RenderedLines(doc: Doc, width: nat)
    requires PlainTexts(doc)
    ensures Spell(Lay(doc, 0, 0, NOTHING, width)) == Join(LinesOf(doc, width))
    ensures forall l :: l in LinesOf(doc, width) ==> '\n' !in l.text
    ensures WithinWidth(LinesOf(doc, width), width)
    ensures Uniform(doc) ==> Chunks(Lay(doc, 0, 0, NOTHING, width)) == Texts(doc)
  {
    hide Lay, Spell, Chunks, Texts, Uniform, WithinWidth, Lines, Join;
    var ps := Lay(doc, 0, 0, NOTHING, width);
    if Uniform(doc) { LayKeepsTexts(doc, 0, 0, NOTHING, width); }
    LayIsPlain(doc, 0, 0, NOTHING, width);
    LinesWithoutNewline(ps, START);
    JoinLines(ps, START);
    FlatLinesFit(doc, width);
  }

  /** A group whose flat form and following first line fit is spelled flat, on one line. */
  lemma FittingGroupIsFlat(d: Doc, indent: nat, col: nat, after: Lead, width: nat)
    requires LeadFits(Then(FirstLine(d, Flat), after), width - col)
    ensures Spell(Lay(Group(d), indent, col, after, width)) == Spell(FlatPieces(d))
    ensures forall p :: p in Lay(Group(d), indent, col, after, width) ==> !p.Newline?
  {
    FlatEnds(d);
    FlatHasNoNewline(d);
    SpellConcat([FlatGroup], FlatPieces(d));
    assert [FlatGroup][1..] == [];
  }

  // ----- mandatory newlines -----

  /** The document holds a `HardLine` outside the broken alternatives. */
  ghost predicate HoldsHardLine(d: Doc)
    decreases d
  {
    match d
    case HardLine => true
    case IfFlat(a, _) => HoldsHardLine(a)
    case Nest(_, b) => HoldsHardLine(b)
    case Concat(ps) => exists p :: p in ps && HoldsHardLine(p)
    case Group(b) => HoldsHardLine(b)
    case _ => false
  }

  lemma {:induction false} HardLineEndsFlat(d: Doc)
    ensures FirstLine(d, Flat).end == if HoldsHardLine(d) then FlatNewline else RunsOn
    decreases d, 1
  {
    match d
    case IfFlat(a, _) => HardLineEndsFlat(a);
    case Nest(_, b) => HardLineEndsFlat(b);
    case Concat(ps) => HardLineEndsAllFlat(ps);
    case Group(b) => HardLineEndsFlat(b);
    case _ =>
  }

  lemma {:induction false} HardLineEndsAllFlat(ps: seq<Doc>)
    ensures FirstLineAll(ps, Flat).end == if exists p :: p in ps && HoldsHardLine(p) then FlatNewline else RunsOn
    decreases ps, 0
  {
    if ps != [] {
      HardLineEndsFlat(ps[0]);
      HardLineEndsAllFlat(ps[1..]);
      assert forall p :: p in ps <==> p == ps[0] || p in ps[1..];
    }
  }

  /** The document with every group around a mandatory newline taken away. */
  ghost function Opened(d: Doc): Doc
    decreases d, 1
  {
    match d
    case IfFlat(a, b) => IfFlat(Opened(a), Opened(b))
    case Nest(n, b) => Nest(n, Opened(b))
    case Concat(ps) => Concat(OpenedAll(ps))
    case Group(b) => if HoldsHardLine(b) then Opened(b) else Group(Opened(b))
    case _ => d
  }

  ghost function OpenedAll(ps: seq<Doc>): (r: seq<Doc>)
    ensures |r| == |ps|
    decreases ps, 0
  {
    if ps == [] then [] else [Opened(ps[0])] + OpenedAll(ps[1..])
  }

  lemma {:induction false} OpenedReadsAlike(d: Doc)
    ensures forall m :: FirstLine(Opened(d), m) == FirstLine(d, m)
    ensures FlatPieces(Opened(d)) == FlatPieces(d)
    decreases d, 1
  {
    match d
    case IfFlat(a, b) => OpenedReadsAlike(a); OpenedReadsAlike(b);
    case Nest(_, b) => OpenedReadsAlike(b);
    case Concat(ps) => OpenedAllReadAlike(ps);
    case Group(b) => OpenedReadsAlike(b);
    case _ =>
  }

  lemma {:induction false} OpenedAllReadAlike(ps: seq<Doc>)
    ensures forall m :: FirstLineAll(OpenedAll(ps), m) == FirstLineAll(ps, m)
    ensures FlatPiecesAll(OpenedAll(ps)) == FlatPiecesAll(ps)
    decreases ps, 0
  {
    if ps != [] {
      OpenedReadsAlike(ps[0]);
      OpenedAllReadAlike(ps[1..]);
    }
  }

  /** A mandatory newline breaks every group around it, at every width: taking those groups
      away changes nothing of the layout. */
  lemma {:induction false} HardLineForcesBreak(d: Doc, indent: nat, col: nat, after: Lead, width: nat)
    ensures Lay(Opened(d), indent, col, after, width) == Lay(d, indent, col, after, width)
    decreases d, 1
  {
    match d
    case IfFlat(_, b) => HardLineForcesBreak(b, indent, col, after, width);
    case Nest(n, b) => HardLineForcesBreak(b, indent + n, col, after, width);
    case Concat(ps) => HardLinesForceBreaks(ps, indent, col, after, width);
    case Group(b) =>
      HardLineEndsFlat(b);
      OpenedReadsAlike(b);
      HardLineForcesBreak(b, indent, col, after, width);
    case _ =>
  }

  lemma {:induction false} HardLinesForceBreaks(ps: seq<Doc>, indent: nat, col: nat, after: Lead, width: nat)
    ensures LayAll(OpenedAll(ps), indent, col, after, width) == LayAll(ps, indent, col, after, width)
    decreases ps, 0
  {
    if ps != [] {
      var rest := Then(FirstLineAll(ps[1..], Break), after);
      OpenedAllReadAlike(ps[1..]);
      assert OpenedAll(ps)[1..] == OpenedAll(ps[1..]);
      HardLineForcesBreak(ps[0], indent, col, rest, width);
      HardLinesForceBreaks(ps[1..], indent, ColumnAfter(col, Lay(ps[0], indent, col, rest, width)), after, width);
    }
  }

  // ----- the test measures what would be written -----

  /** The columns some pieces put on the current line, and how it ends. */
  ghost function Measured(ps: seq<Piece>): Lead {
    if ps == [] then NOTHING
    else
      match ps[0]
      case Newline(_) => Lead(0, AtNewline)
      case Chunk(s) => Then(Lead(|s|, RunsOn), Measured(ps[1..]))
      case Blank => Then(Lead(1, RunsOn), Measured(ps[1..]))
      case FlatGroup => Measured(ps[1..])
  }

  lemma {:induction false} MeasuredConcat(ps: seq<Piece>, qs: seq<Piece>)
    ensures Measured(ps + qs) == Then(Measured(ps), Measured(qs))
  {
    if ps == [] {
      assert ps + qs == qs;
    } else {
      assert (ps + qs)[1..] == ps[1..] + qs;
      MeasuredConcat(ps[1..], qs);
    }
  }

  /** The document with every group taken away, so that all of it is laid out broken. */
  ghost function Ungrouped(d: Doc): Doc
    decreases d, 1
  {
    match d
    case IfFlat(a, b) => IfFlat(Ungrouped(a), Ungrouped(b))
    case Nest(n, b) => Nest(n, Ungrouped(b))
    case Concat(ps) => Concat(UngroupedAll(ps))
    case Group(b) => Ungrouped(b)
    case _ => d
  }

  ghost function UngroupedAll(ps: seq<Doc>): (r: seq<Doc>)
    ensures |r| == |ps|
    decreases ps, 0
  {
    if ps == [] then [] else [Ungrouped(ps[0])] + UngroupedAll(ps[1..])
  }

  /** What follows a group counts for its test as the first line it would have if it were
      broken throughout: up to its first line break. */
  lemma {:induction false} BrokenLeadIsFirstLine(d: Doc, indent: nat, col: nat, after: Lead, width: nat)
    ensures FirstLine(d, Break) == Measured(Lay(Ungrouped(d), indent, col, after, width))
    decreases d, 1
  {
    match d
    case Text(s) => assert [Chunk(s)][1..] == [];
    case IfFlat(_, b) => BrokenLeadIsFirstLine(b, indent, col, after, width);
    case Nest(n, b) => BrokenLeadIsFirstLine(b, indent + n, col, after, width);
    case Concat(ps) => BrokenLeadsAreFirstLines(ps, indent, col, after, width);
    case Group(b) => BrokenLeadIsFirstLine(b, indent, col, after, width);
    case _ =>
  }

  lemma {:induction false} BrokenLeadsAreFirstLines(ps: seq<Doc>, indent: nat, col: nat, after: Lead, width: nat)
    ensures FirstLineAll(ps, Break) == Measured(LayAll(UngroupedAll(ps), indent, col, after, width))
    decreases ps, 0
  {
    if ps != [] {
      var rest := Then(FirstLineAll(UngroupedAll(ps[1..]), Break), after);
      assert UngroupedAll(ps)[1..] == UngroupedAll(ps[1..]);
      var first := Lay(Ungrouped(ps[0]), indent, col, rest, width);
      BrokenLeadIsFirstLine(ps[0], indent, col, rest, width);
      BrokenLeadsAreFirstLines(ps[1..], indent, ColumnAfter(col, first), after, width);
      MeasuredConcat(first, LayAll(UngroupedAll(ps[1..]), indent, ColumnAfter(col, first), after, width));
    }
  }

  /** And a group counts as its flat form, unless that holds a mandatory newline. */
  lemma {:induction false} FlatLeadIsFlatForm(d: Doc)
    ensures FirstLine(d, Flat) == if HoldsHardLine(d) then FirstLine(d, Flat).(end := FlatNewline) else Measured(FlatPieces(d))
    decreases d, 1
  {
    HardLineEndsFlat(d);
    match d
    case Text(s) => assert [Chunk(s)][1..] == [];
    case Line => assert [Blank][1..] == [];
    case IfFlat(a, _) => FlatLeadIsFlatForm(a);
    case Nest(_, b) => FlatLeadIsFlatForm(b);
    case Concat(ps) => FlatLeadsAreFlatForms(ps);
    case Group(b) => FlatLeadIsFlatForm(b);
    case _ =>
  }

  lemma {:induction false} FlatLeadsAreFlatForms(ps: seq<Doc>)
    ensures (forall p :: p in ps ==> !HoldsHardLine(p)) ==> FirstLineAll(ps, Flat) == Measured(FlatPiecesAll(ps))
    decreases ps, 0
  {
    if ps != [] {
      FlatLeadIsFlatForm(ps[0]);
      FlatLeadsAreFlatForms(ps[1..]);
      assert forall p :: p in ps <==> p == ps[0] || p in ps[1..];
      MeasuredConcat(FlatPieces(ps[0]), FlatPiecesAll(ps[1..]));
    }
  }
}
