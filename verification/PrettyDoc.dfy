/** The formatter's pretty-print engine: documents, the two stack machines `Fits` and
    `Render`, and the recursive layout they implement. */
module PrettyDoc {

  datatype Doc =
    | Nil
    | Text(s: string)
    | HardLine
    | Line
    | SoftBreak
    | IfFlat(flat: Doc, broken: Doc)
    | Nest(levels: nat, body: Doc)
    | Concat(parts: seq<Doc>)
    | Group(inner: Doc)

  datatype Mode = Flat | Break

  datatype Item = Item(indent: nat, mode: Mode, doc: Doc)

  /** Columns one indentation tab counts for when measuring a line. */
  const TAB_WIDTH_FOR_FIT: nat := 4

  // ----- the first line of a document -----

  /** How the first line of some remaining output ends. */
  datatype End = RunsOn | AtNewline | FlatNewline

  /** The columns a document puts on the current line before it ends. */
  datatype Lead = Lead(width: nat, end: End)

  ghost function Then(a: Lead, b: Lead): Lead {
    if a.end == RunsOn then Lead(a.width + b.width, b.end) else a
  }

  const NOTHING: Lead := Lead(0, RunsOn)

  /** Every nested group takes the mode it is reached in. */
  ghost function FirstLine(d: Doc, m: Mode): Lead
    decreases d, 1
  {
    match d
    case Nil => NOTHING
    case Text(s) => Lead(|s|, RunsOn)
    case HardLine => Lead(0, if m == Flat then FlatNewline else AtNewline)
    case Line => if m == Flat then Lead(1, RunsOn) else Lead(0, AtNewline)
    case SoftBreak => if m == Flat then NOTHING else Lead(0, AtNewline)
    case IfFlat(a, b) => FirstLine(if m == Flat then a else b, m)
    case Nest(_, b) => FirstLine(b, m)
    case Concat(ps) => FirstLineAll(ps, m)
    case Group(b) => FirstLine(b, m)
  }

  ghost function FirstLineAll(ps: seq<Doc>, m: Mode): Lead
    decreases ps, 0
  {
    if ps == [] then NOTHING else Then(FirstLine(ps[0], m), FirstLineAll(ps[1..], m))
  }

  /** The first line of a stack, popped from its end. */
  ghost function FirstLineOf(stack: seq<Item>): Lead {
    if stack == [] then NOTHING else
      var top := stack[|stack| - 1];
      Then(FirstLine(top.doc, top.mode), FirstLineOf(stack[..|stack| - 1]))
  }

  /** A first line fits when no mandatory newline is met flat and the columns suffice. */
  ghost predicate LeadFits(l: Lead, budget: int) {
    l.end != FlatNewline && l.width <= budget
  }

  lemma ThenAssociates(a: Lead, b: Lead, c: Lead)
    ensures Then(Then(a, b), c) == Then(a, Then(b, c))
  {
  }

  // ----- the stack -----

  ghost function Weight(d: Doc): nat
    decreases d, 1
  {
    match d
    case IfFlat(a, b) => 1 + Weight(a) + Weight(b)
    case Nest(_, b) => 1 + Weight(b)
    case Concat(ps) => 1 + WeightAll(ps)
    case Group(b) => 1 + Weight(b)
    case _ => 1
  }

  ghost function WeightAll(ps: seq<Doc>): nat
    decreases ps, 0
  {
    if ps == [] then 0 else Weight(ps[0]) + WeightAll(ps[1..])
  }

  ghost function StackWeight(stack: seq<Item>): nat {
    if stack == [] then 0 else Weight(stack[|stack| - 1].doc) + StackWeight(stack[..|stack| - 1])
  }

  /** The stack with `parts` pushed in reverse, so the first part is on top. */
  ghost function Pushed(stack: seq<Item>, indent: nat, mode: Mode, parts: seq<Doc>): seq<Item> {
    if parts == [] then stack else Pushed(stack, indent, mode, parts[1..]) + [Item(indent, mode, parts[0])]
  }

  method PushParts(stack: seq<Item>, indent: nat, mode: Mode, parts: seq<Doc>) returns (stack': seq<Item>)
    ensures stack' == Pushed(stack, indent, mode, parts)
  {
    stack' := stack;
    for i := |parts| downto 0
      invariant stack' == Pushed(stack, indent, mode, parts[i..])
    {
      assert parts[i..][0] == parts[i] && parts[i..][1..] == parts[i + 1..];
      stack' := stack' + [Item(indent, mode, parts[i])];
    }
  }

  lemma OnTop(stack: seq<Item>, item: Item)
    ensures FirstLineOf(stack + [item]) == Then(FirstLine(item.doc, item.mode), FirstLineOf(stack))
    ensures StackWeight(stack + [item]) == Weight(item.doc) + StackWeight(stack)
  {
    assert (stack + [item])[..|stack|] == stack;
  }

  lemma {:induction false} PushedFirstLine(stack: seq<Item>, indent: nat, mode: Mode, parts: seq<Doc>)
    ensures FirstLineOf(Pushed(stack, indent, mode, parts)) == Then(FirstLineAll(parts, mode), FirstLineOf(stack))
    ensures StackWeight(Pushed(stack, indent, mode, parts)) == WeightAll(parts) + StackWeight(stack)
  {
    if parts != [] {
      PushedFirstLine(stack, indent, mode, parts[1..]);
      OnTop(Pushed(stack, indent, mode, parts[1..]), Item(indent, mode, parts[0]));
      ThenAssociates(FirstLine(parts[0], mode), FirstLineAll(parts[1..], mode), FirstLineOf(stack));
    }
  }

  /** Whether everything up to the next line break fits in the budget. */
  method Fits(width: int, items: seq<Item>) returns (fits: bool)
    ensures fits <==> LeadFits(FirstLineOf(items), width)
  {
    var budget, stack := width, items;
    while budget >= 0
      invariant LeadFits(FirstLineOf(items), width) <==> LeadFits(FirstLineOf(stack), budget)
      decreases StackWeight(stack), budget
    {
      if stack == [] { return true; }
      var item := stack[|stack| - 1];
      stack := stack[..|stack| - 1];
      match item.doc {
        case Nil =>
        case Text(s) => budget := budget - |s|;
        case HardLine => return item.mode == Break;
        case Line =>
          if item.mode == Break { return true; }
          budget := budget - 1;
        case SoftBreak =>
          if item.mode == Break { return true; }
        case IfFlat(flat, broken) =>
          stack := stack + [Item(item.indent, item.mode, if item.mode == Flat then flat else broken)];
        case Nest(n, inner) =>
          stack := stack + [Item(item.indent + n, item.mode, inner)];
        case Concat(parts) =>
          PushedFirstLine(stack, item.indent, item.mode, parts);
          stack := PushParts(stack, item.indent, item.mode, parts);
        case Group(inner) =>
          stack := stack + [Item(item.indent, item.mode, inner)];
      }
    }
    return false;
  }

  // ----- the recursive layout -----

  /** What a layout emits; `FlatGroup` marks where a group was laid out flat. */
  datatype Piece = Chunk(s: string) | Blank | Newline(indent: nat) | FlatGroup

  function Tabs(n: nat): string { seq(n, _ => '\t') }

  ghost function Glyphs(p: Piece): string {
    match p
    case Chunk(s) => s
    case Blank => " "
    case Newline(n) => "\n" + Tabs(n)
    case FlatGroup => ""
  }

  ghost function Spell(ps: seq<Piece>): string {
    if ps == [] then "" else Glyphs(ps[0]) + Spell(ps[1..])
  }

  /** The one flat form of a document. */
  ghost function FlatPieces(d: Doc): seq<Piece>
    decreases d, 1
  {
    match d
    case Nil => []
    case Text(s) => [Chunk(s)]
    case HardLine => [Newline(0)]
    case Line => [Blank]
    case SoftBreak => []
    case IfFlat(a, _) => FlatPieces(a)
    case Nest(_, b) => FlatPieces(b)
    case Concat(ps) => FlatPiecesAll(ps)
    case Group(b) => FlatPieces(b)
  }

  ghost function FlatPiecesAll(ps: seq<Doc>): seq<Piece>
    decreases ps, 0
  {
    if ps == [] then [] else FlatPieces(ps[0]) + FlatPiecesAll(ps[1..])
  }

  function ColumnStep(col: nat, p: Piece): nat {
    match p
    case Chunk(s) => col + |s|
    case Blank => col + 1
    case Newline(n) => n * TAB_WIDTH_FOR_FIT
    case FlatGroup => col
  }

  /** The column after some pieces. */
  ghost function ColumnAfter(col: nat, ps: seq<Piece>): nat
    decreases ps
  {
    if ps == [] then col else ColumnAfter(ColumnStep(col, ps[0]), ps[1..])
  }

  lemma {:induction false} ColumnAfterConcat(col: nat, ps: seq<Piece>, qs: seq<Piece>)
    ensures ColumnAfter(col, ps + qs) == ColumnAfter(ColumnAfter(col, ps), qs)
    decreases ps
  {
    if ps == [] {
      assert ps + qs == qs;
    } else {
      assert (ps + qs)[1..] == ps[1..] + qs;
      ColumnAfterConcat(ColumnStep(col, ps[0]), ps[1..], qs);
    }
  }

  lemma {:induction false} SpellConcat(ps: seq<Piece>, qs: seq<Piece>)
    ensures Spell(ps + qs) == Spell(ps) + Spell(qs)
  {
    if ps == [] {
      assert ps + qs == qs;
    } else {
      assert (ps + qs)[1..] == ps[1..] + qs;
      SpellConcat(ps[1..], qs);
    }
  }

  /** The layout of a document that is not inside a flat group. A group has one mode:
      its flat form when that form and the first line of what follows (`after`) fit in
      the columns left, its broken layout otherwise. */
  ghost function Lay(d: Doc, indent: nat, col: nat, after: Lead, width: nat): seq<Piece>
    decreases d, 1
  {
    match d
    case Nil => []
    case Text(s) => [Chunk(s)]
    case HardLine => [Newline(indent)]
    case Line => [Newline(indent)]
    case SoftBreak => [Newline(indent)]
    case IfFlat(_, b) => Lay(b, indent, col, after, width)
    case Nest(n, b) => Lay(b, indent + n, col, after, width)
    case Concat(ps) => LayAll(ps, indent, col, after, width)
    case Group(b) =>
      if LeadFits(Then(FirstLine(b, Flat), after), width - col) then [FlatGroup] + FlatPieces(b)
      else Lay(b, indent, col, after, width)
  }

  ghost function LayAll(ps: seq<Doc>, indent: nat, col: nat, after: Lead, width: nat): seq<Piece>
    decreases ps, 0
  {
    if ps == [] then [] else
      var first := Lay(ps[0], indent, col, Then(FirstLineAll(ps[1..], Break), after), width);
      first + LayAll(ps[1..], indent, ColumnAfter(col, first), after, width)
  }

  ghost function LayItem(item: Item, col: nat, after: Lead, width: nat): seq<Piece> {
    if item.mode == Flat then FlatPieces(item.doc) else Lay(item.doc, item.indent, col, after, width)
  }

  /** The layout of a stack, popped from its end. */
  ghost function LayStack(stack: seq<Item>, col: nat, width: nat): seq<Piece> {
    if stack == [] then [] else
      var rest := stack[..|stack| - 1];
      var first := LayItem(stack[|stack| - 1], col, FirstLineOf(rest), width);
      first + LayStack(rest, ColumnAfter(col, first), width)
  }

  /** Some pieces, then the layout of the stack from the column they end at. */
  ghost function Onto(first: seq<Piece>, stack: seq<Item>, col: nat, width: nat): seq<Piece> {
    first + LayStack(stack, ColumnAfter(col, first), width)
  }

  lemma LayTop(stack: seq<Item>, item: Item, col: nat, width: nat)
    ensures LayStack(stack + [item], col, width) == Onto(LayItem(item, col, FirstLineOf(stack), width), stack, col, width)
  {
    assert (stack + [item])[..|stack|] == stack;
  }

  lemma OntoConcat(first: seq<Piece>, second: seq<Piece>, stack: seq<Item>, col: nat, width: nat)
    ensures Onto(first + second, stack, col, width) == first + Onto(second, stack, ColumnAfter(col, first), width)
  {
    hide LayStack, ColumnAfter;
    ColumnAfterConcat(col, first, second);
    var rest := LayStack(stack, ColumnAfter(col, first + second), width);
    assert (first + second) + rest == first + (second + rest);
  }

  ghost function LayItems(mode: Mode, parts: seq<Doc>, indent: nat, col: nat, after: Lead, width: nat): seq<Piece> {
    if mode == Flat then FlatPiecesAll(parts) else LayAll(parts, indent, col, after, width)
  }

  lemma {:induction false} LayPushed(stack: seq<Item>, indent: nat, mode: Mode, parts: seq<Doc>, col: nat, width: nat)
    ensures LayStack(Pushed(stack, indent, mode, parts), col, width) ==
            Onto(LayItems(mode, parts, indent, col, FirstLineOf(stack), width), stack, col, width)
    decreases parts
  {
    if parts != [] {
      var rest, item := Pushed(stack, indent, mode, parts[1..]), Item(indent, mode, parts[0]);
      LayTop(rest, item, col, width);
      PushedFirstLine(stack, indent, mode, parts[1..]);
      var first := LayItem(item, col, FirstLineOf(rest), width);
      LayPushed(stack, indent, mode, parts[1..], ColumnAfter(col, first), width);
      OntoConcat(first, LayItems(mode, parts[1..], indent, ColumnAfter(col, first), FirstLineOf(stack), width), stack, col, width);
    }
  }

  // ----- the flat part of the stack fits until the next newline -----

  /** Flat items sit on top of broken ones, and while any is left, everything up to the
      next newline fits: the test made when the group was entered is still true. */
  ghost predicate FlatOnTopFits(stack: seq<Item>, col: nat, width: nat) {
    && (forall i, j :: 0 <= i < j < |stack| && stack[i].mode == Flat ==> stack[j].mode == Flat)
    && ((exists i :: 0 <= i < |stack| && stack[i].mode == Flat) ==> LeadFits(FirstLineOf(stack), width - col))
  }

  lemma FlatEnds(d: Doc)
    ensures FirstLine(d, Flat).end != AtNewline
    decreases d, 1
  {
    match d
    case Concat(ps) => FlatEndsAll(ps);
    case _ =>
  }

  lemma FlatEndsAll(ps: seq<Doc>)
    ensures FirstLineAll(ps, Flat).end != AtNewline
    decreases ps, 0
  {
    if ps != [] { FlatEnds(ps[0]); FlatEndsAll(ps[1..]); }
  }

  /** A flat form that meets no mandatory newline has none, and is as wide as measured. */
  lemma FlatHasNoNewline(d: Doc)
    requires FirstLine(d, Flat).end == RunsOn
    ensures forall p :: p in FlatPieces(d) ==> !p.Newline?
    ensures forall col: nat :: ColumnAfter(col, FlatPieces(d)) == col + FirstLine(d, Flat).width
    decreases d, 1
  {
    match d
    case Concat(ps) => FlatHasNoNewlineAll(ps);
    case _ =>
  }

  lemma FlatHasNoNewlineAll(ps: seq<Doc>)
    requires FirstLineAll(ps, Flat).end == RunsOn
    ensures forall p :: p in FlatPiecesAll(ps) ==> !p.Newline?
    ensures forall col: nat :: ColumnAfter(col, FlatPiecesAll(ps)) == col + FirstLineAll(ps, Flat).width
    decreases ps, 0
  {
    if ps != [] {
      FlatEnds(ps[0]);
      FlatEndsAll(ps[1..]);
      FlatHasNoNewline(ps[0]);
      FlatHasNoNewlineAll(ps[1..]);
      forall col: nat ensures ColumnAfter(col, FlatPiecesAll(ps)) == col + FirstLineAll(ps, Flat).width {
        ColumnAfterConcat(col, FlatPieces(ps[0]), FlatPiecesAll(ps[1..]));
      }
    }
  }

  // ----- one step of the render machine -----

  ghost predicate StepOk(before: seq<Item>, col: nat, after: seq<Item>, emitted: seq<Piece>, width: nat) {
    && LayStack(before, col, width) == Onto(emitted, after, col, width)
    && FlatOnTopFits(after, ColumnAfter(col, emitted), width)
    && StackWeight(after) < StackWeight(before)
  }

  predicate IsLeaf(d: Doc) {
    d.Nil? || d.Text? || d.HardLine? || d.Line? || d.SoftBreak?
  }

  /** Emitting a leaf. In flat mode it cannot be a mandatory newline. */
  lemma EmitStep(stack: seq<Item>, item: Item, col: nat, width: nat)
    requires IsLeaf(item.doc) && FlatOnTopFits(stack + [item], col, width)
    ensures StepOk(stack + [item], col, stack, LayItem(item, col, NOTHING, width), width)
    ensures item.mode == Flat ==> item.doc != HardLine
  {
    OnTop(stack, item);
    LayTop(stack, item, col, width);
    assert (stack + [item])[|stack|] == item;
    var emitted := LayItem(item, col, NOTHING, width);
    assert ColumnAfter(col, emitted) == if emitted == [] then col else ColumnStep(col, emitted[0]);
    forall i | 0 <= i < |stack| ensures (stack + [item])[i] == stack[i] {}
  }

  /** Replacing the top item by one that lays out the same. */
  lemma ReplaceStep(stack: seq<Item>, item: Item, item': Item, col: nat, width: nat)
    requires FlatOnTopFits(stack + [item], col, width) && item'.mode == item.mode
    requires FirstLine(item'.doc, item.mode) == FirstLine(item.doc, item.mode)
    requires LayItem(item', col, FirstLineOf(stack), width) == LayItem(item, col, FirstLineOf(stack), width)
    requires Weight(item'.doc) < Weight(item.doc)
    ensures StepOk(stack + [item], col, stack + [item'], [], width)
  {
    hide LayStack, Lay, FlatPieces, FirstLine, FirstLineOf, StackWeight, Weight;
    OnTop(stack, item);
    OnTop(stack, item');
    LayTop(stack, item, col, width);
    LayTop(stack, item', col, width);
    ModesKept(stack, item, item');
  }

  lemma ModesKept(stack: seq<Item>, item: Item, item': Item)
    requires forall i, j :: 0 <= i < j < |stack + [item]| && (stack + [item])[i].mode == Flat ==> (stack + [item])[j].mode == Flat
    requires item'.mode == Flat || item'.mode == item.mode
    ensures forall i, j :: 0 <= i < j < |stack + [item']| && (stack + [item'])[i].mode == Flat ==> (stack + [item'])[j].mode == Flat
    ensures (exists i :: 0 <= i < |stack + [item']| && (stack + [item'])[i].mode == Flat) ==> item'.mode == Flat
    ensures item.mode == Flat ==> exists i :: 0 <= i < |stack + [item]| && (stack + [item])[i].mode == Flat
  {
    var s, s' := stack + [item], stack + [item'];
    assert s[|stack|] == item && s'[|stack|] == item';
    forall i, j | 0 <= i < j < |s'| && s'[i].mode == Flat ensures s'[j].mode == Flat {
      assert s[i] == s'[i] && s[i].mode == Flat;
      assert s[|stack|].mode == Flat;
      if j < |stack| { assert s[j] == s'[j]; }
    }
    forall i | 0 <= i < |s'| && s'[i].mode == Flat ensures item'.mode == Flat {
      if i < |stack| { assert s[i] == s'[i]; assert s[|stack|].mode == Flat; }
    }
  }

  /** Entering a broken group that fits: its contents go on top, flat. */
  lemma EnterFlat(stack: seq<Item>, item: Item, col: nat, width: nat)
    requires item.doc.Group? && item.mode == Break && FlatOnTopFits(stack + [item], col, width)
    requires LeadFits(Then(FirstLine(item.doc.inner, Flat), FirstLineOf(stack)), width - col)
    ensures StepOk(stack + [item], col, stack + [Item(item.indent, Flat, item.doc.inner)], [FlatGroup], width)
  {
    hide LayStack, FirstLineOf, StackWeight, ColumnAfter, FlatPieces;
    var item' := Item(item.indent, Flat, item.doc.inner);
    OnTop(stack, item);
    OnTop(stack, item');
    LayTop(stack, item, col, width);
    LayTop(stack, item', col, width);
    ModesKept(stack, item, item');
    MarkKeepsColumn(col);
    OntoConcat([FlatGroup], FlatPieces(item.doc.inner), stack, col, width);
    assert LayStack(stack + [item], col, width) == Onto([FlatGroup] + FlatPieces(item.doc.inner), stack, col, width);
    assert LayStack(stack + [item'], col, width) == Onto(FlatPieces(item.doc.inner), stack, col, width);
  }

  lemma MarkKeepsColumn(col: nat)
    ensures ColumnAfter(col, [FlatGroup]) == col
  {
    assert [FlatGroup][1..] == [];
  }

  lemma PartsStep(stack: seq<Item>, item: Item, col: nat, width: nat)
    requires item.doc.Concat? && FlatOnTopFits(stack + [item], col, width)
    ensures StepOk(stack + [item], col, Pushed(stack, item.indent, item.mode, item.doc.parts), [], width)
  {
    var parts, stack' := item.doc.parts, Pushed(stack, item.indent, item.mode, item.doc.parts);
    OnTop(stack, item);
    LayTop(stack, item, col, width);
    LayPushed(stack, item.indent, item.mode, parts, col, width);
    PushedFirstLine(stack, item.indent, item.mode, parts);
    PushedItems(stack, item.indent, item.mode, parts);
    var s := stack + [item];
    assert s[|stack|] == item;
    forall i, j | 0 <= i < j < |stack'| && stack'[i].mode == Flat ensures stack'[j].mode == Flat {
      if i < |stack| { assert s[i].mode == Flat; if j < |stack| { assert s[j] == stack'[j]; } }
    }
    if i :| 0 <= i < |stack'| && stack'[i].mode == Flat {
      assert exists k :: 0 <= k < |s| && s[k].mode == Flat by {
        if i < |stack| { assert s[i].mode == Flat; } else { assert s[|stack|].mode == Flat; }
      }
    }
  }

  lemma {:induction false} PushedItems(stack: seq<Item>, indent: nat, mode: Mode, parts: seq<Doc>)
    ensures stack <= Pushed(stack, indent, mode, parts)
    ensures forall i :: |stack| <= i < |Pushed(stack, indent, mode, parts)| ==> Pushed(stack, indent, mode, parts)[i].mode == mode
  {
    if parts != [] { PushedItems(stack, indent, mode, parts[1..]); }
  }

  // ----- render -----

  method EmitNewline(out: string, indent: nat) returns (out': string)
    ensures out' == out + "\n" + Tabs(indent)
  {
    out' := out + "\n";
    for i := 0 to indent
      invariant out' == out + "\n" + Tabs(i)
    {
      out' := out' + ['\t'];
    }
  }

  /** The render loop's arms for the documents that emit at once. */
  method EmitLeaf(out: string, col: nat, item: Item, ghost width: nat) returns (out': string, col': nat)
    requires IsLeaf(item.doc) && !(item.mode == Flat && item.doc.HardLine?)
    ensures out' == out + Spell(LayItem(item, col, NOTHING, width))
    ensures col' == ColumnAfter(col, LayItem(item, col, NOTHING, width))
  {
    out', col' := out, col;
    match item.doc {
      case Nil =>
      case Text(s) =>
        out', col' := out + s, col + |s|;
      case HardLine =>
        out' := EmitNewline(out, item.indent);
        col' := item.indent * TAB_WIDTH_FOR_FIT;
      case Line =>
        if item.mode == Flat {
          out', col' := out + " ", col + 1;
        } else {
          out' := EmitNewline(out, item.indent);
          col' := item.indent * TAB_WIDTH_FOR_FIT;
        }
      case SoftBreak =>
        if item.mode == Break {
          out' := EmitNewline(out, item.indent);
          col' := item.indent * TAB_WIDTH_FOR_FIT;
        }
    }
    LeafSpells(item, col, width);
  }

  lemma LeafSpells(item: Item, col: nat, width: nat)
    requires IsLeaf(item.doc)
    ensures var ps := LayItem(item, col, NOTHING, width);
            && |ps| <= 1
            && Spell(ps) == (if ps == [] then "" else Glyphs(ps[0]))
            && ColumnAfter(col, ps) == if ps == [] then col else ColumnStep(col, ps[0])
  {
    var ps := LayItem(item, col, NOTHING, width);
    if ps != [] { assert ps[1..] == []; }
  }

  /** What expanding an item records: a mark when it enters a group laid out flat. */
  ghost function Marks(stack: seq<Item>, item: Item, col: nat, width: nat): seq<Piece> {
    if item.doc.Group? && item.mode == Break && LeadFits(Then(FirstLine(item.doc.inner, Flat), FirstLineOf(stack)), width - col)
    then [FlatGroup] else []
  }

  /** The render loop's arms for the documents that push others. */
  method Expand(stack: seq<Item>, item: Item, col: nat, width: nat) returns (stack': seq<Item>)
    requires !IsLeaf(item.doc) && FlatOnTopFits(stack + [item], col, width)
    ensures StepOk(stack + [item], col, stack', Marks(stack, item, col, width), width)
  {
    hide LayStack, Lay, FlatPieces, StackWeight, Weight, FirstLineOf, FlatOnTopFits, StepOk, Pushed, ColumnAfter;
    match item.doc {
      case IfFlat(flat, broken) =>
        var chosen := Item(item.indent, item.mode, if item.mode == Flat then flat else broken);
        ChoiceStep(stack, item, chosen.doc, item.indent, col, width);
        stack' := stack + [chosen];
      case Nest(n, inner) =>
        ChoiceStep(stack, item, inner, item.indent + n, col, width);
        stack' := stack + [Item(item.indent + n, item.mode, inner)];
      case Concat(parts) =>
        PartsStep(stack, item, col, width);
        stack' := PushParts(stack, item.indent, item.mode, parts);
      case Group(inner) =>
        var flatItem := Item(item.indent, Flat, inner);
        OnTop(stack, flatItem);
        var fits := Fits(width - col, stack + [flatItem]);
        if fits && item.mode == Break {
          EnterFlat(stack, item, col, width);
        } else {
          StaysFlat(stack, item, col, width);
          KeepModeStep(stack, item, col, width);
        }
        stack' := stack + [if fits then flatItem else Item(item.indent, Break, inner)];
    }
  }

  lemma ChoiceStep(stack: seq<Item>, item: Item, chosen: Doc, indent: nat, col: nat, width: nat)
    requires FlatOnTopFits(stack + [item], col, width)
    requires match item.doc
             case IfFlat(flat, broken) => chosen == (if item.mode == Flat then flat else broken) && indent == item.indent
             case Nest(n, inner) => chosen == inner && indent == item.indent + n
             case _ => false
    ensures StepOk(stack + [item], col, stack + [Item(indent, item.mode, chosen)], [], width)
  {
    hide FlatOnTopFits, StepOk, LayStack, StackWeight, FirstLineOf;
    ReplaceStep(stack, item, Item(indent, item.mode, chosen), col, width);
  }

  lemma KeepModeStep(stack: seq<Item>, item: Item, col: nat, width: nat)
    requires item.doc.Group? && FlatOnTopFits(stack + [item], col, width)
    requires item.mode == Flat || !LeadFits(Then(FirstLine(item.doc.inner, Flat), FirstLineOf(stack)), width - col)
    ensures StepOk(stack + [item], col, stack + [Item(item.indent, item.mode, item.doc.inner)], [], width)
  {
    hide FlatOnTopFits, StepOk, LayStack, StackWeight;
    ReplaceStep(stack, item, Item(item.indent, item.mode, item.doc.inner), col, width);
  }

  lemma MarksAreSilent(stack: seq<Item>, item: Item, col: nat, width: nat)
    ensures var ps := Marks(stack, item, col, width); Spell(ps) == "" && ColumnAfter(col, ps) == col
  {
    MarkKeepsColumn(col);
    assert [FlatGroup][1..] == [];
  }

  /** Lay a document out within `width` columns. */
  method Render(doc: Doc, width: nat) returns (out: string)
    ensures out == Spell(Lay(doc, 0, 0, NOTHING, width))
  {
    out := "";
    var col: nat := 0;
    var stack := [Item(0, Break, doc)];
    ghost var done: seq<Piece> := [];
    StartLayout(doc, width);
    while stack != []
      invariant out == Spell(done) && col == ColumnAfter(0, done)
      invariant FlatOnTopFits(stack, col, width)
      invariant done + LayStack(stack, col, width) == Lay(doc, 0, 0, NOTHING, width)
      decreases StackWeight(stack)
    {
      var item := stack[|stack| - 1];
      ghost var before, col0 := stack, col;
      stack := stack[..|stack| - 1];
      assert before == stack + [item];
      ghost var emitted := if IsLeaf(item.doc) then LayItem(item, col, NOTHING, width) else Marks(stack, item, col, width);
      if IsLeaf(item.doc) {
        EmitStep(stack, item, col, width);
        out, col := EmitLeaf(out, col, item, width);
      } else {
        MarksAreSilent(stack, item, col, width);
        stack := Expand(stack, item, col, width);
      }
      assert StepOk(before, col0, stack, emitted, width);
      Extend(done, emitted, stack, col0, width);
      done := done + emitted;
    }
    assert done + [] == done;
  }

  lemma StartLayout(doc: Doc, width: nat)
    ensures var stack := [Item(0, Break, doc)];
            FlatOnTopFits(stack, 0, width) && [] + LayStack(stack, 0, width) == Lay(doc, 0, 0, NOTHING, width)
  {
    var item := Item(0, Break, doc);
    LayTop([], item, 0, width);
    assert [] + [item] == [item];
    assert LayStack([], ColumnAfter(0, LayItem(item, 0, NOTHING, width)), width) == [];
  }

  lemma Extend(done: seq<Piece>, emitted: seq<Piece>, stack: seq<Item>, col: nat, width: nat)
    requires col == ColumnAfter(0, done)
    ensures done + Onto(emitted, stack, col, width) == (done + emitted) + LayStack(stack, ColumnAfter(0, done + emitted), width)
    ensures Spell(done + emitted) == Spell(done) + Spell(emitted)
    ensures ColumnAfter(0, done + emitted) == ColumnAfter(col, emitted)
  {
    hide LayStack, ColumnAfter, Spell;
    SpellConcat(done, emitted);
    ColumnAfterConcat(0, done, emitted);
    var rest := LayStack(stack, ColumnAfter(col, emitted), width);
    assert done + (emitted + rest) == (done + emitted) + rest;
  }

  /** A group reached inside a flat group is laid out flat too: its test cannot fail. */
  lemma StaysFlat(stack: seq<Item>, item: Item, col: nat, width: nat)
    requires item.doc.Group? && item.mode == Flat ==> FlatOnTopFits(stack + [item], col, width)
    ensures item.doc.Group? && item.mode == Flat ==>
              LeadFits(Then(FirstLine(item.doc.inner, Flat), FirstLineOf(stack)), width - col)
  {
    OnTop(stack, item);
    assert (stack + [item])[|stack|] == item;
  }
}
