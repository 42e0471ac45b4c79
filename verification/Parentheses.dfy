/** The printer writes no parentheses that the source could do without, but for two kinds: what
    was written without any is printed without any, token for token. */
module Parentheses {
  import opened Syntax
  import opened Wrappers
  import opened Parser
  import opened Printer
  import opened RoundTrip
  import ParserRange

  // ----- what the parser builds, seen by the printer -----

  /** Would the printer leave `e` bare where `minPrec` is asked for? */
  predicate Fits(e: Expr, minPrec: nat) { e.Grouping? || Prec(e) >= minPrec }

  /** A right operand: bare, or one of the two kinds that are wrapped although the parser reads
      them bare: a loose prefix operator, and an `or` behind `??`. */
  predicate FitsRight(op: Op, r: Expr) { Fits(r, RightMin(op)) || r.Unary? || (op == NullCoalescing && r.Binary? && r.op == LogicalOr) }

  predicate FitsTight(x: Expr, minPrec: nat) { Fits(x, minPrec) || x.Unary? }

  /** All operands would be left bare, but for those kinds. */
  ghost predicate Lean(e: Expr)
    decreases e
  {
    match e
    case Grouping(x) => Lean(x)
    case Binary(op, l, r) => Lean(l) && Lean(r) && Fits(l, LeftMin(op)) && FitsRight(op, r)
    case Unary(p, x) => Lean(x) && FitsTight(x, PrefixPower(p))
    case Access(x, _) => Lean(x) && Fits(x, 100)
    case Call(f, xs) => Lean(f) && Fits(f, 91) && forall x :: x in xs ==> Lean(x) && FitsTight(x, 91)
    case Tuple(xs, _) => forall x :: x in xs ==> Lean(x)
    case Record(fs, _) => forall f :: f in fs ==> Lean(f.value)
    case _ => true
  }

  ghost predicate AllLean(xs: seq<Expr>) { forall x :: x in xs ==> Lean(x) }

  ghost predicate AllTight(xs: seq<Expr>) { forall x :: x in xs ==> Lean(x) && FitsTight(x, 91) }

  /** What an expression parsed at power `bp` can be at its top. */
  predicate TopAt(e: Expr, bp: nat) {
    (e.Binary? ==> LeftPower(e.op) >= bp) && (e.Call? ==> CALL_LEFT >= bp)
  }

  /** The operator loop at power `bp` can do nothing more at `i`. */
  predicate Stopped(ts: seq<Token>, restrict: bool, i: nat, bp: nat)
    requires i <= |ts|
  {
    var j := Continues(ts, i);
    j < |ts| ==>
      if InfixOf(ts[j]).Some? then LeftPower(InfixOf(ts[j]).value) < bp
      else if ts[j] == Dot then DOT_LEFT < bp
      else CanStartExpression(ts[j]) ==> CALL_LEFT < bp || ParseArgs(ts, j, restrict).items == []
  }

  /** What the loop would build on `lhs` next leaves `lhs` bare. */
  predicate Ready(ts: seq<Token>, restrict: bool, i: nat, lhs: Expr)
    requires i <= |ts|
  {
    var j := Continues(ts, i);
    j < |ts| ==>
      if InfixOf(ts[j]).Some? then Fits(lhs, LeftMin(InfixOf(ts[j]).value))
      else if ts[j] == Dot then Fits(lhs, 100)
      else CanStartExpression(ts[j]) && ParseArgs(ts, j, restrict).items != [] ==> Fits(lhs, 91)
  }

  /** The two tables: an operator that does not take the next one over leaves its own
      expression bare in front of it. */
  lemma NextLeavesBare(op: Op, next: Op)
    requires LeftPower(next) < RightPower(op)
    ensures OpPrec(op) >= LeftMin(next)
  {
  }

  lemma PrefixLeavesBare(p: Prefix, next: Op)
    requires LeftPower(next) < PrefixPower(p)
    ensures PrefixPower(p) >= LeftMin(next)
  {
  }

  lemma RightIsBare(op: Op, r: Expr)
    requires TopAt(r, RightPower(op))
    ensures FitsRight(op, r)
  {
  }

  lemma BinaryReady(ts: seq<Token>, restrict: bool, i: nat, op: Op, l: Expr, r: Expr)
    requires i <= |ts| && Stopped(ts, restrict, i, RightPower(op))
    ensures Ready(ts, restrict, i, Binary(op, l, r))
  {
    var j := Continues(ts, i);
    if j < |ts| && InfixOf(ts[j]).Some? { NextLeavesBare(op, InfixOf(ts[j]).value); }
  }

  lemma UnaryReady(ts: seq<Token>, restrict: bool, i: nat, p: Prefix, x: Expr)
    requires i <= |ts| && Stopped(ts, restrict, i, PrefixPower(p))
    ensures Ready(ts, restrict, i, Unary(p, x))
  {
    var j := Continues(ts, i);
    if j < |ts| && InfixOf(ts[j]).Some? { PrefixLeavesBare(p, InfixOf(ts[j]).value); }
  }

  lemma AtomReady(ts: seq<Token>, restrict: bool, i: nat, e: Expr)
    requires i <= |ts| && Fits(e, 255)
    ensures Ready(ts, restrict, i, e)
  {
    hide Continues, ParseArgs;
  }

  ghost predicate LeanOutcome(o: Outcome, ts: seq<Token>, restrict: bool, minBp: nat) {
    o.expr.Some? && o.errs == [] ==> o.pos <= |ts| && Lean(o.expr.value) && TopAt(o.expr.value, minBp) && Stopped(ts, restrict, o.pos, minBp)
  }

  lemma {:induction false} ExprLean(ts: seq<Token>, restrict: bool, i: nat, minBp: nat)
    requires i <= |ts| && ParserRange.NothingDropped(ts)
    ensures LeanOutcome(ParseExpr(ts, i, minBp, restrict), ts, restrict, minBp)
    decreases |ts| - i, 4
  {
    hide ParsePrimary, ParseLoop, ParseArgs, ParseParenthetical, ParseEntries, ParseRecord, ParseFields, Continues, Ready, Stopped, ParserRange.NothingDropped;
    PrimaryLean(ts, restrict, i);
    var first := ParsePrimary(ts, i, restrict);
    if first.expr.Some? && first.errs == [] { LoopLean(ts, restrict, first.pos, first.expr.value, minBp); }
  }

  lemma {:induction false} PrimaryLean(ts: seq<Token>, restrict: bool, i: nat)
    requires i <= |ts| && ParserRange.NothingDropped(ts)
    ensures var o := ParsePrimary(ts, i, restrict);
            o.expr.Some? && o.errs == [] ==> Lean(o.expr.value) && Ready(ts, restrict, o.pos, o.expr.value) && !o.expr.value.Binary? && !o.expr.value.Call?
    decreases |ts| - i, 3
  {
    hide ParseExpr, ParseLoop, ParseArgs, ParseEntries, ParseFields, Continues, Stopped, Ready, SkipBreaks, ParserRange.NothingDropped;
    var o := ParsePrimary(ts, i, restrict);
    if o.expr.Some? && Fits(o.expr.value, 255) { AtomReady(ts, restrict, o.pos, o.expr.value); }
    if i < |ts| {
      if ts[i] == LeftParen {
        EntriesLean(ts, SkipBreaks(ts, i + 1));
      } else if ts[i] == LeftBrace && !restrict {
        FieldsLean(ts, SkipBreaks(ts, i + 1));
      } else if PrefixOf(ts[i]).Some? {
        PrefixLean(ts, restrict, i);
      }
    }
  }

  lemma {:induction false} PrefixLean(ts: seq<Token>, restrict: bool, i: nat)
    requires i < |ts| && ParserRange.NothingDropped(ts) && PrefixOf(ts[i]).Some?
    ensures var p := PrefixOf(ts[i]).value; var o := ParseExpr(ts, i + 1, PrefixPower(p), restrict);
            o.expr.Some? && o.errs == [] ==> o.pos <= |ts| && Lean(Unary(p, o.expr.value)) && Ready(ts, restrict, o.pos, Unary(p, o.expr.value))
    decreases |ts| - i, 2
  {
    hide ParseExpr, Stopped, Ready, ParserRange.NothingDropped;
    var p := PrefixOf(ts[i]).value;
    ExprLean(ts, restrict, i + 1, PrefixPower(p));
    var o := ParseExpr(ts, i + 1, PrefixPower(p), restrict);
    if o.expr.Some? && o.errs == [] { UnaryReady(ts, restrict, o.pos, p, o.expr.value); }
  }

  lemma {:induction false} EntriesLean(ts: seq<Token>, i: nat)
    requires i <= |ts| && ParserRange.NothingDropped(ts)
    ensures ParseEntries(ts, i).errs == [] ==> AllLean(ParseEntries(ts, i).items)
    decreases |ts| - i, 5
  {
    hide ParseExpr, ParsePrimary, ParseLoop, ParseArgs, ParseParenthetical, ParseRecord, ParseFields, Continues, Stopped, Lean, NextEntry, ParserRange.NothingDropped;
    ExprLean(ts, false, i, 0);
    var entry := ParseExpr(ts, i, 0, false);
    if entry.expr.Some? && NextEntry(ts, entry.pos).Some? { EntriesLean(ts, NextEntry(ts, entry.pos).value); }
  }

  lemma {:induction false} FieldsLean(ts: seq<Token>, i: nat)
    requires i <= |ts| && ParserRange.NothingDropped(ts)
    ensures ParseFields(ts, i).errs == [] ==> forall f :: f in ParseFields(ts, i).items ==> Lean(f.value)
    decreases |ts| - i, 5
  {
    hide ParseExpr, ParsePrimary, ParseLoop, ParseArgs, ParseParenthetical, ParseRecord, ParseEntries, Continues, Stopped, NextEntry, ParserRange.NothingDropped;
    if i < |ts| && ts[i].IdentTok? {
      if At(ts, i + 1) == Some(Colon) { ExprLean(ts, false, i + 2, 0); }
      var value := FieldValue(ts, i);
      assert value.expr.Some? && value.errs == [] ==> Lean(value.expr.value);
      hide FieldValue, Lean;
      if value.expr.Some? && NextEntry(ts, value.pos).Some? { FieldsLean(ts, NextEntry(ts, value.pos).value); }
    }
  }

  lemma {:induction false} ArgsLean(ts: seq<Token>, restrict: bool, i: nat)
    requires i <= |ts| && ParserRange.NothingDropped(ts)
    ensures var r := ParseArgs(ts, i, restrict);
            r.errs == [] ==> AllTight(r.items) && ParseArgs(ts, r.pos, restrict).items == [] && (r.items == [] ==> r.pos == i) && (r.items != [] ==> Stopped(ts, restrict, r.pos, CALL_RIGHT))
    decreases |ts| - i, 5
  {
    hide ParseExpr, ParsePrimary, ParseLoop, ParseParenthetical, ParseRecord, ParseEntries, ParseFields, Continues, Stopped, Lean, ParserRange.NothingDropped, ParserRange.Silent;
    if At(ts, i) != Some(Minus) {
      ExprLean(ts, restrict, i, CALL_RIGHT);
      ArgsStop(ts, restrict, i);
      var arg := ParseExpr(ts, i, CALL_RIGHT, restrict);
      if arg.expr.Some? { ArgsLean(ts, restrict, arg.pos); }
    }
  }

  /** A failing argument moves nothing where no record is dropped. */
  lemma ArgsStop(ts: seq<Token>, restrict: bool, i: nat)
    requires i <= |ts| && ParserRange.NothingDropped(ts)
    ensures var o := ParseExpr(ts, i, CALL_RIGHT, restrict); o.expr == None && o.errs == [] ==> o.pos == i
  {
    ParserRange.ExprFails(ts, i, CALL_RIGHT, restrict);
  }

  lemma {:induction false} LoopLean(ts: seq<Token>, restrict: bool, i: nat, lhs: Expr, minBp: nat)
    requires i <= |ts| && ParserRange.NothingDropped(ts)
    requires Lean(lhs) && TopAt(lhs, minBp) && Ready(ts, restrict, i, lhs)
    ensures LeanOutcome(ParseLoop(ts, i, lhs, minBp, restrict), ts, restrict, minBp)
    decreases |ts| - i, 7
  {
    hide ParseExpr, ParsePrimary, ParseArgs, ParseParenthetical, ParseEntries, ParseRecord, ParseFields, ParseAccessor, Continues, Lean, ParserRange.NothingDropped;
    var j := Continues(ts, i);
    ParserRange.ContinuesTwice(ts, i);
    if j < |ts| {
      if InfixOf(ts[j]).Some? {
        if LeftPower(InfixOf(ts[j]).value) >= minBp { OperatorLean(ts, restrict, i, lhs, minBp); }
      } else if ts[j] == Dot {
        if DOT_LEFT >= minBp { DotLean(ts, restrict, i, lhs, minBp); }
      } else if CanStartExpression(ts[j]) && CALL_LEFT >= minBp {
        CallLean(ts, restrict, i, lhs, minBp);
      }
    }
  }

  lemma {:induction false} OperatorLean(ts: seq<Token>, restrict: bool, i: nat, lhs: Expr, minBp: nat)
    requires i <= |ts| && ParserRange.NothingDropped(ts) && Lean(lhs) && Ready(ts, restrict, i, lhs)
    requires var j := Continues(ts, i); j < |ts| && InfixOf(ts[j]).Some? && LeftPower(InfixOf(ts[j]).value) >= minBp
    ensures LeanOutcome(ParseLoop(ts, i, lhs, minBp, restrict), ts, restrict, minBp)
    decreases |ts| - i, 6
  {
    hide ParseExpr, ParsePrimary, ParseArgs, ParseParenthetical, ParseEntries, ParseRecord, ParseFields, ParseAccessor, Continues, Stopped, ParserRange.NothingDropped;
    var j := Continues(ts, i);
    var op := InfixOf(ts[j]).value;
    ExprLean(ts, restrict, j + 1, RightPower(op));
    var rhs := ParseExpr(ts, j + 1, RightPower(op), restrict);
    if rhs.expr.Some? && rhs.errs == [] {
      RightIsBare(op, rhs.expr.value);
      BinaryReady(ts, restrict, rhs.pos, op, lhs, rhs.expr.value);
      LoopLean(ts, restrict, rhs.pos, Binary(op, lhs, rhs.expr.value), minBp);
    }
  }

  lemma {:induction false} DotLean(ts: seq<Token>, restrict: bool, i: nat, lhs: Expr, minBp: nat)
    requires i <= |ts| && ParserRange.NothingDropped(ts) && Lean(lhs) && Ready(ts, restrict, i, lhs) && DOT_LEFT >= minBp
    requires var j := Continues(ts, i); j < |ts| && ts[j] == Dot
    ensures LeanOutcome(ParseLoop(ts, i, lhs, minBp, restrict), ts, restrict, minBp)
    decreases |ts| - i, 6
  {
    hide ParseExpr, ParsePrimary, ParseArgs, ParseParenthetical, ParseEntries, ParseRecord, ParseFields, Continues, Stopped, ParserRange.NothingDropped;
    var j := Continues(ts, i);
    var a := ParseAccessor(ts, j + 1);
    if a.Some? { LoopLean(ts, restrict, j + 2, Access(lhs, a.value), minBp); }
  }

  lemma {:induction false} CallLean(ts: seq<Token>, restrict: bool, i: nat, lhs: Expr, minBp: nat)
    requires i <= |ts| && ParserRange.NothingDropped(ts) && Lean(lhs) && TopAt(lhs, minBp) && Ready(ts, restrict, i, lhs) && CALL_LEFT >= minBp
    requires var j := Continues(ts, i); j < |ts| && !InfixOf(ts[j]).Some? && ts[j] != Dot && CanStartExpression(ts[j])
    ensures LeanOutcome(ParseLoop(ts, i, lhs, minBp, restrict), ts, restrict, minBp)
    decreases |ts| - i, 6
  {
    hide ParseExpr, ParsePrimary, ParseArgs, ParseParenthetical, ParseEntries, ParseRecord, ParseFields, Continues, ParserRange.NothingDropped;
    var j := Continues(ts, i);
    ParserRange.ContinuesTwice(ts, i);
    ArgsLean(ts, restrict, j);
    var args := ParseArgs(ts, j, restrict);
    if args.items != [] && args.errs == [] {
      CallReady(ts, restrict, args.pos, lhs, args.items);
      LoopLean(ts, restrict, args.pos, Call(lhs, args.items), minBp);
    }
  }

  lemma CallReady(ts: seq<Token>, restrict: bool, i: nat, f: Expr, xs: seq<Expr>)
    requires i <= |ts| && Stopped(ts, restrict, i, CALL_RIGHT) && ParseArgs(ts, i, restrict).items == []
    ensures Ready(ts, restrict, i, Call(f, xs))
  {
  }

  // ----- counting parentheses -----

  /** The opening parentheses among some tokens. */
  function Opens(ts: seq<Token>): nat {
    if ts == [] then 0 else (if ts[0] == LeftParen then 1 else 0) + Opens(ts[1..])
  }

  lemma {:induction false} OpensConcat(xs: seq<Token>, ys: seq<Token>)
    ensures Opens(xs + ys) == Opens(xs) + Opens(ys)
  {
    if xs == [] {
      assert xs + ys == ys;
    } else {
      assert (xs + ys)[1..] == xs[1..] + ys;
      OpensConcat(xs[1..], ys);
    }
  }

  /** The groupings and tuples of an expression. */
  function Enclosed(e: Expr): nat
    decreases e
  {
    match e
    case EmptyTuple => 1
    case Grouping(x) => 1 + Enclosed(x)
    case Binary(_, l, r) => Enclosed(l) + Enclosed(r)
    case Unary(_, x) => Enclosed(x)
    case Access(x, _) => Enclosed(x)
    case Call(f, xs) => Enclosed(f) + EnclosedAll(xs)
    case Tuple(xs, _) => 1 + EnclosedAll(xs)
    case Record(fs, _) => EnclosedFields(fs)
    case _ => 0
  }

  function EnclosedAll(xs: seq<Expr>): nat
    decreases xs
  {
    if xs == [] then 0 else Enclosed(xs[0]) + EnclosedAll(xs[1..])
  }

  function EnclosedFields(fs: seq<Field>): nat
    decreases fs
  {
    if fs == [] then 0 else Enclosed(fs[0].value) + EnclosedFields(fs[1..])
  }

  /** A prefix operator that binds less tightly than its place asks for. */
  predicate Loose(x: Expr, minPrec: nat) { x.Unary? && PrefixPower(x.prefix) < minPrec }

  function One(b: bool): nat { if b then 1 else 0 }

  /** The places where the printer wraps what the parser reads bare: such a prefix operator as
      an operand or argument, and an `or` as the right operand of `??`. */
  function Spots(e: Expr): nat
    decreases e
  {
    match e
    case Grouping(x) => Spots(x)
    case Binary(op, l, r) => Spots(l) + Spots(r) + One(Loose(r, RightMin(op)) || (op == NullCoalescing && r.Binary? && r.op == LogicalOr))
    case Unary(p, x) => Spots(x) + One(Loose(x, PrefixPower(p)))
    case Access(x, _) => Spots(x)
    case Call(f, xs) => Spots(f) + SpotsAll(xs, 91)
    case Tuple(xs, _) => SpotsAll(xs, 0)
    case Record(fs, _) => SpotsFields(fs)
    case _ => 0
  }

  function SpotsAll(xs: seq<Expr>, minPrec: nat): nat
    decreases xs
  {
    if xs == [] then 0 else Spots(xs[0]) + One(Loose(xs[0], minPrec)) + SpotsAll(xs[1..], minPrec)
  }

  function SpotsFields(fs: seq<Field>): nat
    decreases fs
  {
    if fs == [] then 0 else Spots(fs[0].value) + SpotsFields(fs[1..])
  }

  /** The printed parentheses of a lean expression are at most its groupings and tuples, and one
      for each such place. */
  lemma {:induction false} PrintOpens(e: Expr, minPrec: nat, spaced: bool)
    requires Lean(e)
    ensures Opens(Print(e, minPrec, false, spaced)) <= Enclosed(e) + Spots(e) + One(!Fits(e, minPrec))
    decreases e, 2
  {
    hide Render, Opens;
    if e.Grouping? {
      PrintOpens(e.inner, minPrec, spaced);
    } else if Wraps(e, minPrec, false) {
      RenderOpens(e, false);
      OpensConcat(Render(e, false, false), [RightParen]);
      OpensConcat([LeftParen], Render(e, false, false) + [RightParen]);
      OneOpens(LeftParen);
      OneOpens(RightParen);
    } else {
      RenderOpens(e, spaced);
    }
  }

  lemma OneOpens(t: Token)
    ensures Opens([t]) == One(t == LeftParen)
  {
    assert [t][1..] == [];
  }

  lemma {:induction false} RenderOpens(e: Expr, spaced: bool)
    requires Lean(e) && !e.Grouping?
    ensures Opens(Render(e, false, spaced)) <= Enclosed(e) + Spots(e)
    decreases e, 1
  {
    hide Print, PrintArgs, PrintItems, PrintFields, Opens;
    match e
    case Ident(n) => OneOpens(IdentTok(n));
    case Number(n) => OneOpens(DigitsTok(n));
    case Float(n, d) => PlainOpens(Render(e, false, spaced));
    case Literal(c) => OneOpens(LiteralTok(c));
    case EmptyTuple => OneOpens(LeftParen); OneOpens(RightParen); OpensConcat([LeftParen], [RightParen]); assert [LeftParen] + [RightParen] == [LeftParen, RightParen];
    case Binary(op, l, r) =>
      PrintOpens(l, LeftMin(op), spaced);
      PrintOpens(r, RightMin(op), true);
      OneOpens(OpToken(op));
      OpensConcat([OpToken(op)], Print(r, RightMin(op), false, true));
      OpensConcat(Print(l, LeftMin(op), false, spaced), [OpToken(op)] + Print(r, RightMin(op), false, true));
    case Unary(p, x) =>
      PrintOpens(x, PrefixPower(p), false);
      OneOpens(PrefixToken(p, spaced));
      OpensConcat([PrefixToken(p, spaced)], Print(x, PrefixPower(p), false, false));
    case Access(x, a) =>
      PrintOpens(x, 100, spaced);
      PlainOpens([Dot, AccessorToken(a)]);
      OpensConcat(Print(x, 100, false, spaced), [Dot, AccessorToken(a)]);
    case Call(f, xs) =>
      PrintOpens(f, 91, spaced);
      ArgsOpen(e, xs);
      OpensConcat(Print(f, 91, false, spaced), PrintArgs(xs, false));
    case Tuple(xs, wrapped) =>
      ItemsOpen(e, xs, wrapped, wrapped);
      BracketsOpen(LeftParen, wrapped, PrintItems(xs, wrapped, wrapped), RightParen);
    case Record(fs, wrapped) =>
      if fs == [] {
        PlainOpens([LeftBrace, RightBrace]);
      } else {
        FieldsOpen(e, fs, wrapped);
        BracketsOpen(LeftBrace, wrapped, PrintFields(fs, wrapped), RightBrace);
      }
  }

  lemma {:induction false} PlainOpens(ts: seq<Token>)
    requires forall t :: t in ts ==> t != LeftParen
    ensures Opens(ts) == 0
  {
    if ts != [] {
      assert ts[0] in ts && forall t :: t in ts[1..] ==> t in ts;
      PlainOpens(ts[1..]);
    }
  }

  lemma BracketsOpen(open: Token, wrapped: bool, inner: seq<Token>, close: Token)
    requires close != LeftParen
    ensures Opens([open] + (Opening(wrapped) + (inner + [close]))) == One(open == LeftParen) + Opens(inner)
  {
    hide Opens;
    OneOpens(open);
    OneOpens(close);
    PlainOpens(Opening(wrapped));
    OpensConcat(inner, [close]);
    OpensConcat(Opening(wrapped), inner + [close]);
    OpensConcat([open], Opening(wrapped) + (inner + [close]));
  }

  lemma {:induction false} ArgsOpen(parent: Expr, xs: seq<Expr>)
    requires forall x :: x in xs ==> x < parent && Lean(x) && FitsTight(x, 91)
    ensures Opens(PrintArgs(xs, false)) <= EnclosedAll(xs) + SpotsAll(xs, 91)
    decreases parent, 0, |xs|
  {
    hide Print, Lean;
    if xs != [] {
      assert xs[0] in xs && forall x :: x in xs[1..] ==> x in xs;
      PrintOpens(xs[0], 91, true);
      ArgsOpen(parent, xs[1..]);
      OpensConcat(Print(xs[0], 91, false, true), PrintArgs(xs[1..], false));
    }
  }

  lemma SeparatorOpens(more: bool, wrapped: bool)
    ensures Opens(Separator(more, wrapped)) == 0 == Opens(Closing(wrapped))
  {
    PlainOpens(Separator(more, wrapped));
    PlainOpens(Closing(wrapped));
  }

  lemma {:induction false} ItemsOpen(parent: Expr, xs: seq<Expr>, wrapped: bool, spaced: bool)
    requires forall x :: x in xs ==> x < parent && Lean(x)
    ensures Opens(PrintItems(xs, wrapped, spaced)) <= EnclosedAll(xs) + SpotsAll(xs, 0)
    decreases parent, 0, |xs|
  {
    hide Print, Lean, Opens;
    SeparatorOpens(|xs| > 1, wrapped);
    if xs != [] {
      assert xs[0] in xs && forall x :: x in xs[1..] ==> x in xs;
      PrintOpens(xs[0], 0, spaced);
      ItemsOpen(parent, xs[1..], wrapped, true);
      OpensConcat(Separator(|xs| > 1, wrapped), PrintItems(xs[1..], wrapped, true));
      OpensConcat(Print(xs[0], 0, false, spaced), Separator(|xs| > 1, wrapped) + PrintItems(xs[1..], wrapped, true));
    }
  }

  lemma {:induction false} FieldsOpen(parent: Expr, fs: seq<Field>, wrapped: bool)
    requires forall f :: f in fs ==> f.value < parent && Lean(f.value)
    ensures Opens(PrintFields(fs, wrapped)) <= EnclosedFields(fs) + SpotsFields(fs)
    decreases parent, 0, |fs|
  {
    hide Print, Lean, Opens, PrintField;
    SeparatorOpens(|fs| > 1, wrapped);
    if fs != [] {
      assert fs[0] in fs && forall f :: f in fs[1..] ==> f in fs;
      PrintOpens(fs[0].value, 0, true);
      FieldOpens(fs[0]);
      FieldsOpen(parent, fs[1..], wrapped);
      OpensConcat(Separator(|fs| > 1, wrapped), PrintFields(fs[1..], wrapped));
      OpensConcat(PrintField(fs[0]), Separator(|fs| > 1, wrapped) + PrintFields(fs[1..], wrapped));
    }
  }

  lemma FieldOpens(f: Field)
    ensures Opens(PrintField(f)) <= Opens(Print(f.value, 0, false, true))
  {
    hide Print, Opens;
    if f.value == Ident(f.name) {
      OneOpens(IdentTok(f.name));
    } else {
      PlainOpens([IdentTok(f.name), Colon]);
      OpensConcat([IdentTok(f.name), Colon], Print(f.value, 0, false, true));
    }
  }

  // ----- the source's parentheses -----

  /** The opening parentheses from the `i`th token up to the `j`th. */
  function Between(ts: seq<Token>, i: nat, j: nat): nat
    requires i <= j <= |ts|
    decreases j - i
  {
    if i == j then 0 else One(ts[i] == LeftParen) + Between(ts, i + 1, j)
  }

  lemma {:induction false} BetweenSplit(ts: seq<Token>, i: nat, j: nat, k: nat)
    requires i <= j <= k <= |ts|
    ensures Between(ts, i, k) == Between(ts, i, j) + Between(ts, j, k)
    decreases j - i
  {
    if i < j { BetweenSplit(ts, i + 1, j, k); }
  }

  lemma {:induction false} BetweenIsOpens(ts: seq<Token>, i: nat)
    requires i <= |ts|
    ensures Between(ts, i, |ts|) == Opens(ts[i..])
    decreases |ts| - i
  {
    if i < |ts| { BetweenIsOpens(ts, i + 1); }
  }

  /** Each grouping and tuple of a parsed expression has its parenthesis in the source. */
  lemma {:induction false} ExprEnclosed(ts: seq<Token>, i: nat, minBp: nat, restrict: bool)
    requires i <= |ts|
    ensures var o := ParseExpr(ts, i, minBp, restrict); o.expr.Some? ==> Enclosed(o.expr.value) <= Between(ts, i, o.pos)
    decreases |ts| - i, 4
  {
    hide ParsePrimary, ParseLoop, ParseArgs, ParseParenthetical, ParseEntries, ParseRecord, ParseFields, Enclosed, Between;
    PrimaryEnclosed(ts, i, restrict);
    var first, o := ParsePrimary(ts, i, restrict), ParseExpr(ts, i, minBp, restrict);
    if first.expr.Some? {
      LoopEnclosed(ts, first.pos, first.expr.value, minBp, restrict);
      BetweenSplit(ts, i, first.pos, o.pos);
    }
  }

  lemma {:induction false} PrimaryEnclosed(ts: seq<Token>, i: nat, restrict: bool)
    requires i <= |ts|
    ensures var o := ParsePrimary(ts, i, restrict); o.expr.Some? ==> Enclosed(o.expr.value) <= Between(ts, i, o.pos)
    decreases |ts| - i, 3
  {
    hide ParseExpr, ParseLoop, ParseArgs, ParseEntries, ParseFields, ParseParenthetical, ParseRecord, SkipBreaks;
    var o := ParsePrimary(ts, i, restrict);
    if i < |ts| && o.expr.Some? {
      if ts[i] == LeftParen {
        ParentheticalEnclosed(ts, i);
      } else if ts[i] == LeftBrace && !restrict {
        RecordEnclosed(ts, i);
      } else if PrefixOf(ts[i]).Some? {
        ExprEnclosed(ts, i + 1, PrefixPower(PrefixOf(ts[i]).value), restrict);
        BetweenSplit(ts, i, i + 1, o.pos);
      }
    }
  }

  lemma {:induction false} ParentheticalEnclosed(ts: seq<Token>, i: nat)
    requires i < |ts| && ts[i] == LeftParen
    ensures var o := ParseParenthetical(ts, i); o.expr.Some? ==> Enclosed(o.expr.value) <= Between(ts, i, o.pos)
    decreases |ts| - i, 2
  {
    hide ParseExpr, ParsePrimary, ParseLoop, ParseArgs, ParseEntries, ParseFields, ParseRecord, SkipBreaks;
    var k := SkipBreaks(ts, i + 1);
    var o, entries := ParseParenthetical(ts, i), ParseEntries(ts, k);
    if o.expr.Some? {
      EntriesEnclosed(ts, k);
      BetweenSplit(ts, i, i + 1, o.pos);
      BetweenSplit(ts, i + 1, k, o.pos);
      BetweenSplit(ts, k, entries.pos, o.pos);
      if |entries.items| == 1 { assert entries.items[1..] == [] && entries.items == [entries.items[0]]; }
    }
  }

  lemma {:induction false} EntriesEnclosed(ts: seq<Token>, i: nat)
    requires i <= |ts|
    ensures EnclosedAll(ParseEntries(ts, i).items) <= Between(ts, i, ParseEntries(ts, i).pos)
    decreases |ts| - i, 5
  {
    hide ParseExpr, ParsePrimary, ParseLoop, ParseArgs, ParseParenthetical, ParseRecord, ParseFields, Enclosed, Between, NextEntry;
    ExprEnclosed(ts, i, 0, false);
    var entry, r := ParseExpr(ts, i, 0, false), ParseEntries(ts, i);
    if entry.expr.Some? {
      BetweenSplit(ts, i, entry.pos, r.pos);
      if NextEntry(ts, entry.pos).Some? {
        var j := NextEntry(ts, entry.pos).value;
        EntriesEnclosed(ts, j);
        BetweenSplit(ts, entry.pos, j, r.pos);
        assert r.items[1..] == ParseEntries(ts, j).items;
      } else {
        assert r.items[1..] == [];
      }
    }
  }

  lemma {:induction false} RecordEnclosed(ts: seq<Token>, i: nat)
    requires i < |ts| && ts[i] == LeftBrace
    ensures var o := ParseRecord(ts, i); o.expr.Some? ==> Enclosed(o.expr.value) <= Between(ts, i, o.pos)
    decreases |ts| - i, 2
  {
    hide ParseExpr, ParsePrimary, ParseLoop, ParseArgs, ParseEntries, ParseFields, ParseParenthetical, SkipBreaks;
    var k := SkipBreaks(ts, i + 1);
    var o, fields := ParseRecord(ts, i), ParseFields(ts, k);
    if o.expr.Some? {
      FieldsEnclosed(ts, k);
      BetweenSplit(ts, i, k, o.pos);
      BetweenSplit(ts, k, fields.pos, o.pos);
    }
  }

  lemma {:induction false} FieldsEnclosed(ts: seq<Token>, i: nat)
    requires i <= |ts|
    ensures EnclosedFields(ParseFields(ts, i).items) <= Between(ts, i, ParseFields(ts, i).pos)
    decreases |ts| - i, 5
  {
    hide ParseExpr, ParsePrimary, ParseLoop, ParseArgs, ParseParenthetical, ParseRecord, ParseEntries, Enclosed, Between, NextEntry, FieldValue;
    if i < |ts| && ts[i].IdentTok? {
      var value, r := FieldValue(ts, i), ParseFields(ts, i);
      ValueEnclosed(ts, i);
      if value.expr.Some? {
        BetweenSplit(ts, i, value.pos, r.pos);
        if NextEntry(ts, value.pos).Some? {
          var j := NextEntry(ts, value.pos).value;
          FieldsEnclosed(ts, j);
          BetweenSplit(ts, value.pos, j, r.pos);
          assert r.items[1..] == ParseFields(ts, j).items;
        } else {
          assert r.items[1..] == [];
        }
      }
    }
  }

  lemma {:induction false} ValueEnclosed(ts: seq<Token>, i: nat)
    requires i < |ts| && ts[i].IdentTok?
    ensures var o := FieldValue(ts, i); o.expr.Some? ==> Enclosed(o.expr.value) <= Between(ts, i, o.pos)
    decreases |ts| - i, 4
  {
    hide ParseExpr, ParsePrimary, ParseLoop, ParseArgs, ParseParenthetical, ParseRecord, ParseEntries, ParseFields, Between;
    if At(ts, i + 1) == Some(Colon) {
      ExprEnclosed(ts, i + 2, 0, false);
      BetweenSplit(ts, i, i + 2, FieldValue(ts, i).pos);
    }
  }

  lemma {:induction false} ArgsEnclosed(ts: seq<Token>, i: nat, restrict: bool)
    requires i <= |ts|
    ensures EnclosedAll(ParseArgs(ts, i, restrict).items) <= Between(ts, i, ParseArgs(ts, i, restrict).pos)
    decreases |ts| - i, 5
  {
    hide ParseExpr, ParsePrimary, ParseLoop, ParseParenthetical, ParseRecord, ParseEntries, ParseFields, Enclosed, Between;
    if At(ts, i) != Some(Minus) {
      ExprEnclosed(ts, i, CALL_RIGHT, restrict);
      var arg, r := ParseExpr(ts, i, CALL_RIGHT, restrict), ParseArgs(ts, i, restrict);
      if arg.expr.Some? {
        ArgsEnclosed(ts, arg.pos, restrict);
        BetweenSplit(ts, i, arg.pos, r.pos);
        assert r.items[1..] == ParseArgs(ts, arg.pos, restrict).items;
      }
    }
  }

  lemma {:induction false} LoopEnclosed(ts: seq<Token>, i: nat, lhs: Expr, minBp: nat, restrict: bool)
    requires i <= |ts|
    ensures var o := ParseLoop(ts, i, lhs, minBp, restrict); o.expr.Some? ==> Enclosed(o.expr.value) <= Enclosed(lhs) + Between(ts, i, o.pos)
    decreases |ts| - i, 7
  {
    hide ParseExpr, ParsePrimary, ParseArgs, ParseParenthetical, ParseEntries, ParseRecord, ParseFields, ParseAccessor, Continues, Between;
    var j := Continues(ts, i);
    if j < |ts| {
      if InfixOf(ts[j]).Some? {
        if LeftPower(InfixOf(ts[j]).value) >= minBp { OperatorEnclosed(ts, i, lhs, minBp, restrict); }
      } else if ts[j] == Dot {
        if DOT_LEFT >= minBp { DotEnclosed(ts, i, lhs, minBp, restrict); }
      } else if CanStartExpression(ts[j]) && CALL_LEFT >= minBp {
        CallEnclosed(ts, i, lhs, minBp, restrict);
      }
    }
  }

  lemma {:induction false} OperatorEnclosed(ts: seq<Token>, i: nat, lhs: Expr, minBp: nat, restrict: bool)
    requires i <= |ts|
    requires var j := Continues(ts, i); j < |ts| && InfixOf(ts[j]).Some? && LeftPower(InfixOf(ts[j]).value) >= minBp
    ensures var o := ParseLoop(ts, i, lhs, minBp, restrict); o.expr.Some? ==> Enclosed(o.expr.value) <= Enclosed(lhs) + Between(ts, i, o.pos)
    decreases |ts| - i, 6
  {
    hide ParseExpr, ParsePrimary, ParseArgs, ParseParenthetical, ParseEntries, ParseRecord, ParseFields, ParseAccessor, Continues, Between;
    var j, o := Continues(ts, i), ParseLoop(ts, i, lhs, minBp, restrict);
    var op := InfixOf(ts[j]).value;
    ExprEnclosed(ts, j + 1, RightPower(op), restrict);
    var rhs := ParseExpr(ts, j + 1, RightPower(op), restrict);
    if rhs.expr.Some? {
      LoopEnclosed(ts, rhs.pos, Binary(op, lhs, rhs.expr.value), minBp, restrict);
      BetweenSplit(ts, i, j + 1, o.pos);
      BetweenSplit(ts, j + 1, rhs.pos, o.pos);
    }
  }

  lemma {:induction false} DotEnclosed(ts: seq<Token>, i: nat, lhs: Expr, minBp: nat, restrict: bool)
    requires i <= |ts| && DOT_LEFT >= minBp
    requires var j := Continues(ts, i); j < |ts| && ts[j] == Dot
    ensures var o := ParseLoop(ts, i, lhs, minBp, restrict); o.expr.Some? ==> Enclosed(o.expr.value) <= Enclosed(lhs) + Between(ts, i, o.pos)
    decreases |ts| - i, 6
  {
    hide ParseExpr, ParsePrimary, ParseArgs, ParseParenthetical, ParseEntries, ParseRecord, ParseFields, Continues, Between;
    var j, o := Continues(ts, i), ParseLoop(ts, i, lhs, minBp, restrict);
    var a := ParseAccessor(ts, j + 1);
    if a.Some? {
      LoopEnclosed(ts, j + 2, Access(lhs, a.value), minBp, restrict);
      BetweenSplit(ts, i, j + 2, o.pos);
    }
  }

  lemma {:induction false} CallEnclosed(ts: seq<Token>, i: nat, lhs: Expr, minBp: nat, restrict: bool)
    requires i <= |ts| && CALL_LEFT >= minBp
    requires var j := Continues(ts, i); j < |ts| && !InfixOf(ts[j]).Some? && ts[j] != Dot && CanStartExpression(ts[j])
    ensures var o := ParseLoop(ts, i, lhs, minBp, restrict); o.expr.Some? ==> Enclosed(o.expr.value) <= Enclosed(lhs) + Between(ts, i, o.pos)
    decreases |ts| - i, 6
  {
    hide ParseExpr, ParsePrimary, ParseArgs, ParseParenthetical, ParseEntries, ParseRecord, ParseFields, ParseAccessor, Continues, Between;
    var j, o := Continues(ts, i), ParseLoop(ts, i, lhs, minBp, restrict);
    ArgsEnclosed(ts, j, restrict);
    var args := ParseArgs(ts, j, restrict);
    if args.items != [] {
      LoopEnclosed(ts, args.pos, Call(lhs, args.items), minBp, restrict);
      BetweenSplit(ts, i, j, o.pos);
      BetweenSplit(ts, j, args.pos, o.pos);
    }
  }

  /** Formatting adds no parentheses: a source read in full without a diagnostic is printed with
      at most its own, and one pair for each place where a prefix operator binds less tightly
      than its place asks for, or an `or` is the right operand of `??`. */
  lemma PrintAddsNone(ts: seq<Token>, e: Expr, spaced: bool)
    requires ParserRange.NothingDropped(ts) && ParseExpr(ts, 0, 0, false) == Outcome(Some(e), |ts|, [])
    ensures Opens(Print(e, 0, false, spaced)) <= Opens(ts) + Spots(e)
  {
    hide ParseExpr, Print, Opens, Enclosed, Spots, Lean, ParserRange.NothingDropped;
    ExprLean(ts, false, 0, 0);
    ExprEnclosed(ts, 0, 0, false);
    BetweenIsOpens(ts, 0);
    assert ts[0..] == ts;
    PrintOpens(e, 0, spaced);
  }

  // ----- token for token -----

  /** Tokens of one line without brackets. (The infix `-` has its own token.) */
  predicate FlatTokens(ts: seq<Token>) {
    forall t :: t in ts ==> t != LeftParen && t != LeftBrace && t != Break && t != InfixTok(Subtraction)
  }

  /** Tokens without regard to the white space around a `-`. */
  function Dashed(ts: seq<Token>): (r: seq<Token>)
    ensures |r| == |ts|
  {
    if ts == [] then [] else [if ts[0] == UnaryMinus then Minus else ts[0]] + Dashed(ts[1..])
  }

  lemma {:induction false} DashedConcat(xs: seq<Token>, ys: seq<Token>)
    ensures Dashed(xs + ys) == Dashed(xs) + Dashed(ys)
  {
    if xs == [] {
      assert xs + ys == ys;
    } else {
      assert (xs + ys)[1..] == xs[1..] + ys;
      DashedConcat(xs[1..], ys);
    }
  }

  lemma DashedOne(t: Token)
    ensures Dashed([t]) == [if t == UnaryMinus then Minus else t]
  {
    assert [t][1..] == [];
  }

  /** An expression without brackets, as it is written with no parentheses at all. */
  function Written(e: Expr): seq<Token>
    decreases e
  {
    match e
    case Ident(n) => [IdentTok(n)]
    case Number(n) => [DigitsTok(n)]
    case Float(n, d) => [DigitsTok(n), Dot, DigitsTok(d)]
    case Literal(c) => [LiteralTok(c)]
    case Binary(op, l, r) => Written(l) + ([OpToken(op)] + Written(r))
    case Unary(p, x) => [PrefixToken(p, false)] + Written(x)
    case Access(x, a) => Written(x) + [Dot, AccessorToken(a)]
    case Call(f, xs) => Written(f) + WrittenAll(xs)
    case _ => []
  }

  function WrittenAll(xs: seq<Expr>): seq<Token>
    decreases xs
  {
    if xs == [] then [] else Written(xs[0]) + WrittenAll(xs[1..])
  }

  /** No brackets anywhere in the expression. */
  ghost predicate Unbracketed(e: Expr)
    decreases e
  {
    match e
    case Binary(_, l, r) => Unbracketed(l) && Unbracketed(r)
    case Unary(_, x) => Unbracketed(x)
    case Access(x, _) => Unbracketed(x)
    case Call(f, xs) => Unbracketed(f) && forall x :: x in xs ==> Unbracketed(x)
    case Ident(_) => true
    case Number(_) => true
    case Float(_, _) => true
    case Literal(_) => true
    case _ => false
  }

  lemma FlatContinues(ts: seq<Token>, i: nat)
    requires FlatTokens(ts) && i <= |ts|
    ensures Continues(ts, i) == i
  {
    if i < |ts| { assert ts[i] in ts; }
  }

  ghost predicate Spells(ts: seq<Token>, i: nat, j: nat, before: seq<Token>, after: seq<Token>) {
    i <= j <= |ts| && after == before + Dashed(ts[i..j])
  }

  lemma SpellsOn(ts: seq<Token>, i: nat, j: nat, k: nat, a: seq<Token>, b: seq<Token>, c: seq<Token>)
    requires Spells(ts, i, j, a, b) && Spells(ts, j, k, b, c)
    ensures Spells(ts, i, k, a, c)
  {
    assert ts[i..k] == ts[i..j] + ts[j..k];
    DashedConcat(ts[i..j], ts[j..k]);
    assert (a + Dashed(ts[i..j])) + Dashed(ts[j..k]) == a + (Dashed(ts[i..j]) + Dashed(ts[j..k]));
  }

  lemma SpellsToken(ts: seq<Token>, i: nat, a: seq<Token>)
    requires i < |ts|
    ensures Spells(ts, i, i + 1, a, a + [if ts[i] == UnaryMinus then Minus else ts[i]])
  {
    assert ts[i..i + 1] == [ts[i]];
    DashedOne(ts[i]);
  }

  lemma SpellsBehind(ts: seq<Token>, i: nat, j: nat, a: seq<Token>, b: seq<Token>)
    requires Spells(ts, i, j, [], b)
    ensures Spells(ts, i, j, a, a + b)
  {
    assert [] + Dashed(ts[i..j]) == Dashed(ts[i..j]);
  }

  lemma SpellsNothing(ts: seq<Token>, i: nat, a: seq<Token>)
    requires i <= |ts|
    ensures Spells(ts, i, i, a, a)
  {
    assert ts[i..i] == [] && a + [] == a;
  }

  /** What is parsed from such tokens is written with exactly them. */
  lemma {:induction false} ExprSpelled(ts: seq<Token>, i: nat, minBp: nat, restrict: bool)
    requires i <= |ts| && FlatTokens(ts)
    ensures var o := ParseExpr(ts, i, minBp, restrict);
            o.expr.Some? && o.errs == [] ==> Unbracketed(o.expr.value) && Spells(ts, i, o.pos, [], Written(o.expr.value))
    decreases |ts| - i, 4
  {
    hide ParsePrimary, ParseLoop, ParseArgs, ParseParenthetical, ParseEntries, ParseRecord, ParseFields, Spells, Written, Unbracketed, FlatTokens;
    PrimarySpelled(ts, i, restrict);
    var first, o := ParsePrimary(ts, i, restrict), ParseExpr(ts, i, minBp, restrict);
    if first.expr.Some? && first.errs == [] {
      LoopSpelled(ts, first.pos, first.expr.value, minBp, restrict);
      if o.expr.Some? && o.errs == [] { SpellsOn(ts, i, first.pos, o.pos, [], Written(first.expr.value), Written(o.expr.value)); }
    }
  }

  lemma {:induction false} PrimarySpelled(ts: seq<Token>, i: nat, restrict: bool)
    requires i <= |ts| && FlatTokens(ts)
    ensures var o := ParsePrimary(ts, i, restrict);
            o.expr.Some? && o.errs == [] ==> Unbracketed(o.expr.value) && Spells(ts, i, o.pos, [], Written(o.expr.value))
    decreases |ts| - i, 3
  {
    hide ParseExpr, ParseLoop, ParseArgs, ParseParenthetical, ParseEntries, ParseRecord, ParseFields, Spells;
    if i < |ts| {
      assert ts[i] in ts;
      SpellsToken(ts, i, []);
      assert forall t: Token :: [] + [t] == [t];
      if ts[i].DigitsTok? {
        if At(ts, i + 1) == Some(Dot) && i + 2 < |ts| && ts[i + 2].DigitsTok? {
          SpellsToken(ts, i + 1, [ts[i]]);
          SpellsToken(ts, i + 2, [ts[i]] + [Dot]);
          SpellsOn(ts, i, i + 1, i + 2, [], [ts[i]], [ts[i]] + [Dot]);
          SpellsOn(ts, i, i + 2, i + 3, [], [ts[i]] + [Dot], [ts[i]] + [Dot] + [ts[i + 2]]);
          assert [ts[i]] + [Dot] + [ts[i + 2]] == [ts[i], Dot, ts[i + 2]];
        }
      } else if PrefixOf(ts[i]).Some? {
        var p := PrefixOf(ts[i]).value;
        ExprSpelled(ts, i + 1, PrefixPower(p), restrict);
        var x := ParseExpr(ts, i + 1, PrefixPower(p), restrict);
        if x.expr.Some? && x.errs == [] {
          SpellsBehind(ts, i + 1, x.pos, [PrefixToken(p, false)], Written(x.expr.value));
          SpellsOn(ts, i, i + 1, x.pos, [], [PrefixToken(p, false)], [PrefixToken(p, false)] + Written(x.expr.value));
        }
      }
    }
  }

  lemma {:induction false} ArgsSpelled(ts: seq<Token>, i: nat, restrict: bool)
    requires i <= |ts| && FlatTokens(ts)
    ensures var r := ParseArgs(ts, i, restrict);
            r.errs == [] ==> (forall x :: x in r.items ==> Unbracketed(x)) && Spells(ts, i, r.pos, [], WrittenAll(r.items))
    decreases |ts| - i, 5
  {
    hide ParseExpr, ParsePrimary, ParseLoop, ParseParenthetical, ParseRecord, ParseEntries, ParseFields, Spells, Unbracketed, Written;
    SpellsNothing(ts, i, []);
    if At(ts, i) != Some(Minus) {
      ExprSpelled(ts, i, CALL_RIGHT, restrict);
      FlatStop(ts, i, restrict);
      var arg, r := ParseExpr(ts, i, CALL_RIGHT, restrict), ParseArgs(ts, i, restrict);
      if arg.expr.Some? && r.errs == [] {
        var rest := ParseArgs(ts, arg.pos, restrict);
        ArgsSpelled(ts, arg.pos, restrict);
        SpellsBehind(ts, arg.pos, r.pos, Written(arg.expr.value), WrittenAll(rest.items));
        SpellsOn(ts, i, arg.pos, r.pos, [], Written(arg.expr.value), Written(arg.expr.value) + WrittenAll(rest.items));
        assert r.items[1..] == rest.items;
      }
    }
  }

  lemma FlatStop(ts: seq<Token>, i: nat, restrict: bool)
    requires i <= |ts| && FlatTokens(ts)
    ensures var o := ParseExpr(ts, i, CALL_RIGHT, restrict); o.expr == None && o.errs == [] ==> o.pos == i
  {
    ParserRange.ExprFails(ts, i, CALL_RIGHT, restrict);
    if i < |ts| { assert ts[i] in ts; }
  }

  lemma {:induction false} LoopSpelled(ts: seq<Token>, i: nat, lhs: Expr, minBp: nat, restrict: bool)
    requires i <= |ts| && FlatTokens(ts) && Unbracketed(lhs)
    ensures var o := ParseLoop(ts, i, lhs, minBp, restrict);
            o.expr.Some? && o.errs == [] ==> Unbracketed(o.expr.value) && Spells(ts, i, o.pos, Written(lhs), Written(o.expr.value))
    decreases |ts| - i, 7
  {
    hide ParseExpr, ParsePrimary, ParseArgs, ParseParenthetical, ParseEntries, ParseRecord, ParseFields, ParseAccessor, Continues, Spells, Written, Unbracketed, FlatTokens;
    FlatContinues(ts, i);
    SpellsNothing(ts, i, Written(lhs));
    if i < |ts| {
      if InfixOf(ts[i]).Some? {
        if LeftPower(InfixOf(ts[i]).value) >= minBp { OperatorSpelled(ts, i, lhs, minBp, restrict); }
      } else if ts[i] == Dot {
        if DOT_LEFT >= minBp { DotSpelled(ts, i, lhs, minBp, restrict); }
      } else if CanStartExpression(ts[i]) && CALL_LEFT >= minBp {
        CallSpelled(ts, i, lhs, minBp, restrict);
      }
    }
  }

  lemma {:induction false} OperatorSpelled(ts: seq<Token>, i: nat, lhs: Expr, minBp: nat, restrict: bool)
    requires i < |ts| && FlatTokens(ts) && Unbracketed(lhs) && Continues(ts, i) == i && InfixOf(ts[i]).Some? && LeftPower(InfixOf(ts[i]).value) >= minBp
    ensures var o := ParseLoop(ts, i, lhs, minBp, restrict);
            o.expr.Some? && o.errs == [] ==> Unbracketed(o.expr.value) && Spells(ts, i, o.pos, Written(lhs), Written(o.expr.value))
    decreases |ts| - i, 6
  {
    assert ts[i] in ts;
    assert ts[i] == OpToken(InfixOf(ts[i]).value);
    hide ParseExpr, ParsePrimary, ParseArgs, ParseParenthetical, ParseEntries, ParseRecord, ParseFields, ParseAccessor, Continues, Spells, FlatTokens;
    hide Written, Unbracketed;
    var op, o := InfixOf(ts[i]).value, ParseLoop(ts, i, lhs, minBp, restrict);
    ExprSpelled(ts, i + 1, RightPower(op), restrict);
    var rhs := ParseExpr(ts, i + 1, RightPower(op), restrict);
    assert rhs.expr.Some? ==> o.expr == ParseLoop(ts, rhs.pos, Binary(op, lhs, rhs.expr.value), minBp, restrict).expr && o.pos == ParseLoop(ts, rhs.pos, Binary(op, lhs, rhs.expr.value), minBp, restrict).pos;
    assert rhs.expr.Some? && o.errs == [] ==> rhs.errs == [] && ParseLoop(ts, rhs.pos, Binary(op, lhs, rhs.expr.value), minBp, restrict).errs == [];
    hide ParseLoop;
    if rhs.expr.Some? && rhs.errs == [] && o.expr.Some? && o.errs == [] {
      OperandSpelled(ts, i, lhs, op, rhs);
      LoopSpelled(ts, rhs.pos, Binary(op, lhs, rhs.expr.value), minBp, restrict);
      SpellsOn(ts, i, rhs.pos, o.pos, Written(lhs), Written(Binary(op, lhs, rhs.expr.value)), Written(o.expr.value));
    }
  }

  lemma OperandSpelled(ts: seq<Token>, i: nat, lhs: Expr, op: Op, rhs: Outcome)
    requires i < |ts| && ts[i] == OpToken(op) && Unbracketed(lhs) && rhs.expr.Some? && Unbracketed(rhs.expr.value)
    requires Spells(ts, i + 1, rhs.pos, [], Written(rhs.expr.value))
    ensures var b := Binary(op, lhs, rhs.expr.value); Unbracketed(b) && Spells(ts, i, rhs.pos, Written(lhs), Written(b))
  {
    var r, b := rhs.expr.value, Binary(op, lhs, rhs.expr.value);
    BinaryWritten(op, lhs, r);
    hide Spells, Written, Unbracketed;
    SpellsToken(ts, i, Written(lhs));
    SpellsBehind(ts, i + 1, rhs.pos, Written(lhs) + [OpToken(op)], Written(r));
    SpellsOn(ts, i, i + 1, rhs.pos, Written(lhs), Written(lhs) + [OpToken(op)], Written(b));
  }

  lemma BinaryWritten(op: Op, l: Expr, r: Expr)
    ensures Written(Binary(op, l, r)) == (Written(l) + [OpToken(op)]) + Written(r)
    ensures Unbracketed(l) && Unbracketed(r) ==> Unbracketed(Binary(op, l, r))
  {
  }

  lemma {:induction false} DotSpelled(ts: seq<Token>, i: nat, lhs: Expr, minBp: nat, restrict: bool)
    requires i < |ts| && FlatTokens(ts) && Unbracketed(lhs) && Continues(ts, i) == i && ts[i] == Dot && DOT_LEFT >= minBp
    ensures var o := ParseLoop(ts, i, lhs, minBp, restrict);
            o.expr.Some? && o.errs == [] ==> Unbracketed(o.expr.value) && Spells(ts, i, o.pos, Written(lhs), Written(o.expr.value))
    decreases |ts| - i, 6
  {
    hide ParseExpr, ParsePrimary, ParseArgs, ParseParenthetical, ParseEntries, ParseRecord, ParseFields, Continues, Spells, FlatTokens;
    var o, a := ParseLoop(ts, i, lhs, minBp, restrict), ParseAccessor(ts, i + 1);
    if a.Some? && o.expr.Some? && o.errs == [] {
      var x := Access(lhs, a.value);
      SpellsToken(ts, i, Written(lhs));
      SpellsToken(ts, i + 1, Written(lhs) + [Dot]);
      assert (Written(lhs) + [Dot]) + [AccessorToken(a.value)] == Written(x);
      LoopSpelled(ts, i + 2, x, minBp, restrict);
      SpellsOn(ts, i, i + 1, i + 2, Written(lhs), Written(lhs) + [Dot], Written(x));
      SpellsOn(ts, i, i + 2, o.pos, Written(lhs), Written(x), Written(o.expr.value));
    }
  }

  lemma {:induction false} CallSpelled(ts: seq<Token>, i: nat, lhs: Expr, minBp: nat, restrict: bool)
    requires i < |ts| && FlatTokens(ts) && Unbracketed(lhs) && Continues(ts, i) == i
    requires !InfixOf(ts[i]).Some? && ts[i] != Dot && CanStartExpression(ts[i]) && CALL_LEFT >= minBp
    ensures var o := ParseLoop(ts, i, lhs, minBp, restrict);
            o.expr.Some? && o.errs == [] ==> Unbracketed(o.expr.value) && Spells(ts, i, o.pos, Written(lhs), Written(o.expr.value))
    decreases |ts| - i, 6
  {
    hide ParseExpr, ParsePrimary, ParseArgs, ParseParenthetical, ParseEntries, ParseRecord, ParseFields, ParseAccessor, Continues, Spells, FlatTokens;
    ArgsSpelled(ts, i, restrict);
    var args, o := ParseArgs(ts, i, restrict), ParseLoop(ts, i, lhs, minBp, restrict);
    if args.errs == [] {
      var c := Call(lhs, args.items);
      SpellsBehind(ts, i, args.pos, Written(lhs), WrittenAll(args.items));
      if args.items == [] {
        assert Written(lhs) + [] == Written(lhs);
      } else {
        LoopSpelled(ts, args.pos, c, minBp, restrict);
        if o.expr.Some? && o.errs == [] { SpellsOn(ts, i, args.pos, o.pos, Written(lhs), Written(c), Written(o.expr.value)); }
      }
    }
  }

  // ----- what the printer writes where nothing is wrapped -----

  lemma {:induction false} PrintWritten(e: Expr, minPrec: nat, restrict: bool, spaced: bool)
    requires Unbracketed(e) && Lean(e) && Spots(e) == 0 && Fits(e, minPrec)
    ensures Dashed(Print(e, minPrec, restrict, spaced)) == Written(e)
    decreases e, 2
  {
    hide Render, Dashed;
    RenderWritten(e, restrict && IsBraceSpine(e), spaced);
  }

  lemma {:induction false} RenderWritten(e: Expr, restrict: bool, spaced: bool)
    requires Unbracketed(e) && Lean(e) && Spots(e) == 0
    ensures Dashed(Render(e, restrict, spaced)) == Written(e)
    decreases e, 1
  {
    hide Print, PrintArgs, Dashed;
    match e
    case Ident(n) => DashedOne(IdentTok(n));
    case Number(n) => DashedOne(DigitsTok(n));
    case Float(n, d) => DashedThree(DigitsTok(n), Dot, DigitsTok(d));
    case Literal(c) => DashedOne(LiteralTok(c));
    case Binary(op, l, r) =>
      PrintWritten(l, LeftMin(op), restrict, spaced);
      PrintWritten(r, RightMin(op), restrict, true);
      DashedOne(OpToken(op));
      DashedConcat([OpToken(op)], Print(r, RightMin(op), restrict, true));
      DashedConcat(Print(l, LeftMin(op), restrict, spaced), [OpToken(op)] + Print(r, RightMin(op), restrict, true));
    case Unary(p, x) =>
      PrintWritten(x, PrefixPower(p), restrict, false);
      DashedOne(PrefixToken(p, spaced));
      DashedConcat([PrefixToken(p, spaced)], Print(x, PrefixPower(p), restrict, false));
    case Access(x, a) =>
      PrintWritten(x, 100, restrict, spaced);
      DashedOne(Dot);
      DashedOne(AccessorToken(a));
      DashedConcat([Dot], [AccessorToken(a)]);
      assert [Dot] + [AccessorToken(a)] == [Dot, AccessorToken(a)];
      DashedConcat(Print(x, 100, restrict, spaced), [Dot, AccessorToken(a)]);
    case Call(f, xs) =>
      PrintWritten(f, 91, restrict, spaced);
      ArgsWritten(e, xs, restrict);
      DashedConcat(Print(f, 91, restrict, spaced), PrintArgs(xs, restrict));
  }

  lemma DashedThree(a: Token, b: Token, c: Token)
    requires a != UnaryMinus && b != UnaryMinus && c != UnaryMinus
    ensures Dashed([a, b, c]) == [a, b, c]
  {
    DashedOne(a);
    DashedOne(b);
    DashedOne(c);
    DashedConcat([a], [b]);
    DashedConcat([a] + [b], [c]);
    assert [a] + [b] + [c] == [a, b, c];
  }

  lemma {:induction false} ArgsWritten(parent: Expr, xs: seq<Expr>, restrict: bool)
    requires forall x :: x in xs ==> x < parent && Unbracketed(x) && Lean(x) && FitsTight(x, 91)
    requires SpotsAll(xs, 91) == 0
    ensures Dashed(PrintArgs(xs, restrict)) == WrittenAll(xs)
    decreases parent, 0, |xs|
  {
    hide Print, Lean, Unbracketed, Written;
    if xs != [] {
      assert xs[0] in xs && forall x :: x in xs[1..] ==> x in xs;
      PrintWritten(xs[0], 91, restrict, true);
      ArgsWritten(parent, xs[1..], restrict);
      DashedConcat(Print(xs[0], 91, restrict, true), PrintArgs(xs[1..], restrict));
    }
  }

  // ----- a place that is wrapped shows -----

  ghost predicate Shows(ts: seq<Token>) { LeftParen in ts }

  lemma {:induction false} SpotShows(e: Expr, minPrec: nat, restrict: bool, spaced: bool)
    requires Unbracketed(e) && (Spots(e) > 0 || !Fits(e, minPrec))
    ensures Shows(Print(e, minPrec, restrict, spaced))
    decreases e, 2
  {
    hide Render;
    if Wraps(e, minPrec, restrict) {
      assert Print(e, minPrec, restrict, spaced)[0] == LeftParen;
    } else {
      SpotRendered(e, restrict && IsBraceSpine(e), spaced);
    }
  }

  lemma {:induction false} SpotRendered(e: Expr, restrict: bool, spaced: bool)
    requires Unbracketed(e) && Spots(e) > 0
    ensures Shows(Render(e, restrict, spaced))
    decreases e, 1
  {
    hide Print, PrintArgs;
    match e
    case Binary(op, l, r) =>
      if Spots(l) > 0 { SpotShows(l, LeftMin(op), restrict, spaced); } else { SpotShows(r, RightMin(op), restrict, true); }
    case Unary(p, x) => SpotShows(x, PrefixPower(p), restrict, false);
    case Access(x, _) => SpotShows(x, 100, restrict, spaced);
    case Call(f, xs) =>
      if Spots(f) > 0 { SpotShows(f, 91, restrict, spaced); } else { ArgShows(e, xs, restrict); }
    case _ =>
  }

  lemma {:induction false} ArgShows(parent: Expr, xs: seq<Expr>, restrict: bool)
    requires (forall x :: x in xs ==> x < parent && Unbracketed(x)) && SpotsAll(xs, 91) > 0
    ensures Shows(PrintArgs(xs, restrict))
    decreases parent, 0, |xs|
  {
    hide Print, Unbracketed;
    assert xs[0] in xs && forall x :: x in xs[1..] ==> x in xs;
    if Spots(xs[0]) > 0 || Loose(xs[0], 91) { SpotShows(xs[0], 91, restrict, true); } else { ArgShows(parent, xs[1..], restrict); }
  }

  lemma {:induction false} DashedHas(ts: seq<Token>, t: Token)
    requires t != UnaryMinus && t != Minus
    ensures t in Dashed(ts) <==> t in ts
  {
    if ts != [] { DashedHas(ts[1..], t); }
  }

  lemma NoBraces(ts: seq<Token>)
    requires FlatTokens(ts)
    ensures ParserRange.NothingDropped(ts)
  {
    forall q | 0 <= q < |ts| ensures ts[q] != LeftBrace { assert ts[q] in ts; }
  }

  /** Printing undoes parsing: a source on one line, without brackets, read in full without a
      diagnostic, is printed as it was written, token for token, exactly when nowhere a prefix
      operator binds less tightly than its place asks for, nor an `or` is the right operand of
      `??`. (Up to the white space around a prefix `-`.) */
  lemma PrintUndoesParse(ts: seq<Token>, e: Expr, restrict: bool, spaced: bool)
    requires FlatTokens(ts) && ParseExpr(ts, 0, 0, restrict) == Outcome(Some(e), |ts|, [])
    ensures Dashed(Print(e, 0, restrict, spaced)) == Dashed(ts) <==> Spots(e) == 0
  {
    hide ParseExpr, Print, Spots, Lean, Unbracketed, Written, Dashed;
    ExprSpelled(ts, 0, 0, restrict);
    assert ts[0..|ts|] == ts && [] + Dashed(ts) == Dashed(ts);
    if Spots(e) == 0 {
      NoBraces(ts);
      ExprLean(ts, restrict, 0, 0);
      PrintWritten(e, 0, restrict, spaced);
    } else {
      SpotShows(e, 0, restrict, spaced);
      DashedHas(Print(e, 0, restrict, spaced), LeftParen);
      DashedHas(ts, LeftParen);
    }
  }

  ghost predicate WithoutPrefix(e: Expr)
    decreases e
  {
    match e
    case Binary(_, l, r) => WithoutPrefix(l) && WithoutPrefix(r)
    case Unary(_, _) => false
    case Access(x, _) => WithoutPrefix(x)
    case Call(f, xs) => WithoutPrefix(f) && forall x :: x in xs ==> WithoutPrefix(x)
    case _ => true
  }

  lemma {:induction false} NothingToDash(ts: seq<Token>)
    requires UnaryMinus !in ts
    ensures Dashed(ts) == ts
  {
    if ts != [] { NothingToDash(ts[1..]); }
  }

  lemma {:induction false} PrintPlain(e: Expr, minPrec: nat, restrict: bool, spaced: bool)
    requires Unbracketed(e) && WithoutPrefix(e)
    ensures UnaryMinus !in Print(e, minPrec, restrict, spaced)
    decreases e, 2
  {
    hide Render;
    if Wraps(e, minPrec, restrict) { RenderPlain(e, false, false); } else { RenderPlain(e, restrict && IsBraceSpine(e), spaced); }
  }

  lemma {:induction false} RenderPlain(e: Expr, restrict: bool, spaced: bool)
    requires Unbracketed(e) && WithoutPrefix(e)
    ensures UnaryMinus !in Render(e, restrict, spaced)
    decreases e, 1
  {
    hide Print, PrintArgs;
    match e
    case Binary(op, l, r) => PrintPlain(l, LeftMin(op), restrict, spaced); PrintPlain(r, RightMin(op), restrict, true);
    case Access(x, _) => PrintPlain(x, 100, restrict, spaced);
    case Call(f, xs) => PrintPlain(f, 91, restrict, spaced); ArgsPlain(e, xs, restrict);
    case _ =>
  }

  lemma {:induction false} ArgsPlain(parent: Expr, xs: seq<Expr>, restrict: bool)
    requires forall x :: x in xs ==> x < parent && Unbracketed(x) && WithoutPrefix(x)
    ensures UnaryMinus !in PrintArgs(xs, restrict)
    decreases parent, 0, |xs|
  {
    hide Print, Unbracketed, WithoutPrefix;
    if xs != [] {
      assert xs[0] in xs && forall x :: x in xs[1..] ==> x in xs;
      PrintPlain(xs[0], 91, restrict, true);
      ArgsPlain(parent, xs[1..], restrict);
    }
  }

  /** Without prefix operators it is the very tokens, exactly when no `or` is the right operand
      of a `??`. */
  lemma PrintIsSource(ts: seq<Token>, e: Expr, restrict: bool, spaced: bool)
    requires FlatTokens(ts) && ParseExpr(ts, 0, 0, restrict) == Outcome(Some(e), |ts|, [])
    requires UnaryMinus !in ts && WithoutPrefix(e)
    ensures Print(e, 0, restrict, spaced) == ts <==> Spots(e) == 0
  {
    hide ParseExpr, Print, Spots, Unbracketed, Written;
    PrintUndoesParse(ts, e, restrict, spaced);
    ExprSpelled(ts, 0, 0, restrict);
    PrintPlain(e, 0, restrict, spaced);
    NothingToDash(ts);
    NothingToDash(Print(e, 0, restrict, spaced));
  }

  // ----- concrete inputs -----

  /** `f -x` is printed as `f (-x)`, and `a ?? b or c` as `a ?? (b or c)`, although both are
      read alike without the parentheses. */
  lemma SparePairsAreWritten(a: string, b: string, c: string)
    ensures ParseExpr([IdentTok(a), UnaryMinus, IdentTok(b)], 0, 0, false) == Outcome(Some(Call(Ident(a), [Unary(Negation, Ident(b))])), 3, [])
    ensures Print(Call(Ident(a), [Unary(Negation, Ident(b))]), 0, false, false) == [IdentTok(a), LeftParen, Minus, IdentTok(b), RightParen]
    ensures var ts := [IdentTok(a), InfixTok(NullCoalescing), IdentTok(b), InfixTok(LogicalOr), IdentTok(c)];
            ParseExpr(ts, 0, 0, false) == Outcome(Some(Binary(NullCoalescing, Ident(a), Binary(LogicalOr, Ident(b), Ident(c)))), 5, [])
    ensures Print(Binary(NullCoalescing, Ident(a), Binary(LogicalOr, Ident(b), Ident(c))), 0, false, false)
            == [IdentTok(a), InfixTok(NullCoalescing), LeftParen, IdentTok(b), InfixTok(LogicalOr), IdentTok(c), RightParen]
  {
    NegatedArgument(a, b);
    OrOperand(a, b, c);
    ParserRange.CoalesceBeforeOr(a, b, c, false, false);
    ParserRange.CoalesceOrPrints(a, b, c, false, false);
  }

  lemma NamePrints(a: string, minPrec: nat, spaced: bool)
    requires minPrec <= 255
    ensures Print(Ident(a), minPrec, false, spaced) == [IdentTok(a)]
  {
  }

  lemma OrOperand(a: string, b: string, c: string)
    ensures Print(Binary(NullCoalescing, Ident(a), Binary(LogicalOr, Ident(b), Ident(c))), 0, false, false)
            == [IdentTok(a), InfixTok(NullCoalescing), LeftParen, IdentTok(b), InfixTok(LogicalOr), IdentTok(c), RightParen]
  {
    NamePrints(a, 22, false);
    NamePrints(b, 20, false);
    NamePrints(c, 21, true);
    var r := Binary(LogicalOr, Ident(b), Ident(c));
    assert Render(r, false, false) == [IdentTok(b)] + ([InfixTok(LogicalOr)] + [IdentTok(c)]);
    assert Print(r, 21, false, true) == [LeftParen] + (Render(r, false, false) + [RightParen]);
  }

  lemma NegatedArgument(a: string, b: string)
    ensures ParseExpr([IdentTok(a), UnaryMinus, IdentTok(b)], 0, 0, false) == Outcome(Some(Call(Ident(a), [Unary(Negation, Ident(b))])), 3, [])
    ensures Print(Call(Ident(a), [Unary(Negation, Ident(b))]), 0, false, false) == [IdentTok(a), LeftParen, Minus, IdentTok(b), RightParen]
  {
    var ts, x := [IdentTok(a), UnaryMinus, IdentTok(b)], Unary(Negation, Ident(b));
    IdentStep(ts, 2, false);
    ExprStep(ts, 2, 75, false, Ident(b), 3);
    HaltsMeans(ts, 3, 75, false, Ident(b));
    PrefixStep(ts, 1, false, Negation, Ident(b), 3);
    ExprStep(ts, 1, 91, false, x, 3);
    HaltsMeans(ts, 3, 91, false, x);
    NoArgumentMeans(ts, 3, false);
    assert ParseArgs(ts, 1, false) == Entries([x], 3, []);
    IdentStep(ts, 0, false);
    ExprStep(ts, 0, 0, false, Ident(a), 1);
    HaltsMeans(ts, 3, 0, false, Call(Ident(a), [x]));
    NamePrints(b, 75, false);
    NamePrints(a, 91, false);
    assert Print(x, 91, false, true) == [LeftParen] + ([Minus, IdentTok(b)] + [RightParen]);
    assert [x][1..] == [] && PrintArgs([x], false) == Print(x, 91, false, true) + PrintArgs([], false);
  }
}
