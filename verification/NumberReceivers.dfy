/** Whole numbers as receivers: the printer drops the parentheses or the line break between a
    number and the dot behind it, and the parser takes that dot for a decimal point. */
module NumberReceivers {
  import opened Syntax
  import opened Wrappers
  import opened Parser
  import opened Printer
  import opened Reading
  import opened RoundTrip

  /** No access has a bare whole number for its receiver. */
  ghost predicate Tight(e: Expr)
    decreases e
  {
    match e
    case Grouping(x) => Tight(x)
    case Binary(_, l, r) => Tight(l) && Tight(r)
    case Unary(_, x) => Tight(x)
    case Access(x, _) => Tight(x) && !x.Number?
    case Call(f, xs) => Tight(f) && forall x :: x in xs ==> Tight(x)
    case Tuple(xs, _) => forall x :: x in xs ==> Tight(x)
    case Record(fs, _) => forall f :: f in fs ==> Tight(f.value)
    case _ => true
  }

  ghost predicate AllTight(xs: seq<Expr>) { forall x :: x in xs ==> Tight(x) }

  ghost predicate FieldsTight(fs: seq<Field>) { forall f :: f in fs ==> Tight(f.value) }

  // ----- the regrouped tree -----

  lemma {:induction false} RegroupedTight(e: Expr, minPrec: nat, restrict: bool)
    requires Shaped(e)
    ensures Tight(Regrouped(e, minPrec, restrict)) <==> WellFormed(e)
    decreases e, 1
  {
    hide Rebuilt;
    if e.Grouping? {
      RegroupedTight(e.inner, minPrec, restrict);
    } else {
      RebuiltTight(e, if Wraps(e, minPrec, restrict) then false else restrict && IsBraceSpine(e));
    }
  }

  lemma {:induction false} RegroupedNumber(e: Expr, restrict: bool)
    ensures Regrouped(e, 100, restrict).Number? <==> IsNumber(e)
    decreases e
  {
    if e.Grouping? { RegroupedNumber(e.inner, restrict); }
  }

  lemma {:induction false} RebuiltTight(e: Expr, restrict: bool)
    requires Shaped(e) && !e.Grouping?
    ensures Tight(Rebuilt(e, restrict)) <==> WellFormed(e)
    decreases e, 0
  {
    hide Regrouped, RegroupedAll, RegroupedFields;
    match e
    case Binary(op, l, r) => RegroupedTight(l, LeftMin(op), restrict); RegroupedTight(r, RightMin(op), restrict);
    case Unary(p, x) => RegroupedTight(x, PrefixPower(p), restrict);
    case Access(x, _) => RegroupedTight(x, 100, restrict); RegroupedNumber(x, restrict);
    case Call(f, xs) => RegroupedTight(f, 91, restrict); RegroupedAllTight(e, xs, 91, restrict);
    case Tuple(xs, _) => RegroupedAllTight(e, xs, 0, false);
    case Record(fs, _) => RegroupedFieldsTight(e, fs);
    case _ =>
  }

  lemma {:induction false} RegroupedAllTight(parent: Expr, xs: seq<Expr>, minPrec: nat, restrict: bool)
    requires forall x :: x in xs ==> x < parent && Shaped(x)
    ensures AllTight(RegroupedAll(xs, minPrec, restrict)) <==> forall x :: x in xs ==> WellFormed(x)
    decreases parent, 0, |xs|
  {
    hide Regrouped, Tight, Shaped, WellFormed;
    if xs != [] {
      assert xs[0] in xs && forall x :: x in xs <==> x == xs[0] || x in xs[1..];
      assert forall x :: x in xs[1..] ==> x in xs;
      RegroupedTight(xs[0], minPrec, restrict);
      RegroupedAllTight(parent, xs[1..], minPrec, restrict);
      var ys := RegroupedAll(xs, minPrec, restrict);
      assert ys[1..] == RegroupedAll(xs[1..], minPrec, restrict) && forall y :: y in ys <==> y == ys[0] || y in ys[1..];
    }
  }

  lemma {:induction false} RegroupedFieldsTight(parent: Expr, fs: seq<Field>)
    requires forall f :: f in fs ==> f.value < parent && Shaped(f.value)
    ensures FieldsTight(RegroupedFields(fs)) <==> forall f :: f in fs ==> WellFormed(f.value)
    decreases parent, 0, |fs|
  {
    hide Regrouped, Tight, Shaped, WellFormed;
    if fs != [] {
      assert fs[0] in fs && forall f :: f in fs <==> f == fs[0] || f in fs[1..];
      assert forall f :: f in fs[1..] ==> f in fs;
      RegroupedTight(fs[0].value, 0, false);
      RegroupedFieldsTight(parent, fs[1..]);
      var gs := RegroupedFields(fs);
      assert gs[1..] == RegroupedFields(fs[1..]) && forall g :: g in gs <==> g == gs[0] || g in gs[1..];
    }
  }

  // ----- what the parser returns -----

  /** Among the first `n` tokens no line break stands right before a dot. */
  ghost predicate Clean(ts: seq<Token>, n: nat) {
    forall q :: 1 <= q < n && q < |ts| && ts[q] == Dot ==> ts[q - 1] != Break
  }

  /** A dot behind line breaks stands right behind one of them. */
  lemma {:induction false} BreakBefore(ts: seq<Token>, i: nat)
    requires i < |ts| && ts[i] == Break
    ensures SkipBreaks(ts, i) > i && ts[SkipBreaks(ts, i) - 1] == Break
    decreases |ts| - i
  {
    if At(ts, i + 1) == Some(Break) { BreakBefore(ts, i + 1); }
  }

  lemma {:induction false} ExprTight(ts: seq<Token>, i: nat, minBp: nat, restrict: bool, n: nat)
    requires i <= |ts| && Clean(ts, n)
    ensures var o := ParseExpr(ts, i, minBp, restrict); o.expr.Some? && o.pos <= n ==> Tight(o.expr.value)
    decreases |ts| - i, 4
  {
    hide ParsePrimary, ParseLoop, ParseArgs, ParseParenthetical, ParseEntries, ParseRecord, ParseFields, Tight;
    PrimaryTight(ts, i, restrict, n);
    var first := ParsePrimary(ts, i, restrict);
    if first.expr.Some? && ParseExpr(ts, i, minBp, restrict).pos <= n { LoopTight(ts, first.pos, first.expr.value, minBp, restrict, n); }
  }

  lemma {:induction false} PrimaryTight(ts: seq<Token>, i: nat, restrict: bool, n: nat)
    requires i <= |ts| && Clean(ts, n)
    ensures var o := ParsePrimary(ts, i, restrict);
            o.expr.Some? && o.pos <= n ==> Tight(o.expr.value) && (o.expr.value.Number? ==> At(ts, o.pos) != Some(Dot))
    decreases |ts| - i, 3
  {
    hide ParseExpr, ParseLoop, ParseArgs, ParseEntries, ParseFields, Clean;
    if i < |ts| {
      if ts[i] == LeftParen {
        EntriesTight(ts, SkipBreaks(ts, i + 1), n);
      } else if ts[i] == LeftBrace && !restrict {
        FieldsAreTight(ts, SkipBreaks(ts, i + 1), n);
      } else if PrefixOf(ts[i]).Some? {
        ExprTight(ts, i + 1, PrefixPower(PrefixOf(ts[i]).value), restrict, n);
      }
    }
  }

  lemma {:induction false} EntriesTight(ts: seq<Token>, i: nat, n: nat)
    requires i <= |ts| && Clean(ts, n)
    ensures ParseEntries(ts, i).pos <= n ==> AllTight(ParseEntries(ts, i).items)
    decreases |ts| - i, 5
  {
    hide ParseExpr, ParsePrimary, ParseLoop, ParseArgs, ParseParenthetical, ParseRecord, ParseFields, Tight, Clean, SkipBreaks;
    ExprTight(ts, i, 0, false, n);
    var entry := ParseExpr(ts, i, 0, false);
    if entry.expr.Some? && NextEntry(ts, entry.pos).Some? { EntriesTight(ts, NextEntry(ts, entry.pos).value, n); }
  }

  lemma {:induction false} FieldsAreTight(ts: seq<Token>, i: nat, n: nat)
    requires i <= |ts| && Clean(ts, n)
    ensures ParseFields(ts, i).pos <= n ==> FieldsTight(ParseFields(ts, i).items)
    decreases |ts| - i, 5
  {
    hide ParseExpr, ParsePrimary, ParseLoop, ParseArgs, ParseParenthetical, ParseRecord, ParseEntries, Clean, SkipBreaks;
    if i < |ts| && ts[i].IdentTok? {
      if At(ts, i + 1) == Some(Colon) { ExprTight(ts, i + 2, 0, false, n); }
      var value := FieldValue(ts, i);
      assert value.expr.Some? && value.pos <= n ==> Tight(value.expr.value);
      hide FieldValue, Tight;
      if value.expr.Some? && NextEntry(ts, value.pos).Some? { FieldsAreTight(ts, NextEntry(ts, value.pos).value, n); }
    }
  }

  lemma {:induction false} ArgsTight(ts: seq<Token>, i: nat, restrict: bool, n: nat)
    requires i <= |ts| && Clean(ts, n)
    ensures ParseArgs(ts, i, restrict).pos <= n ==> AllTight(ParseArgs(ts, i, restrict).items)
    decreases |ts| - i, 5
  {
    hide ParseExpr, ParsePrimary, ParseLoop, ParseParenthetical, ParseRecord, ParseEntries, ParseFields, Tight, Clean;
    if At(ts, i) != Some(Minus) {
      ExprTight(ts, i, CALL_RIGHT, restrict, n);
      var arg := ParseExpr(ts, i, CALL_RIGHT, restrict);
      if arg.expr.Some? { ArgsTight(ts, arg.pos, restrict, n); }
    }
  }

  lemma {:induction false} LoopTight(ts: seq<Token>, i: nat, lhs: Expr, minBp: nat, restrict: bool, n: nat)
    requires i <= |ts| && Clean(ts, n) && Tight(lhs) && (lhs.Number? ==> At(ts, i) != Some(Dot))
    ensures var o := ParseLoop(ts, i, lhs, minBp, restrict); o.expr.Some? && o.pos <= n ==> Tight(o.expr.value)
    decreases |ts| - i, 6
  {
    hide ParseExpr, ParsePrimary, ParseArgs, ParseParenthetical, ParseEntries, ParseRecord, ParseFields, SkipBreaks, Continues, Clean, Tight;
    var j := Continues(ts, i);
    if j < |ts| && InfixOf(ts[j]).Some? && LeftPower(InfixOf(ts[j]).value) >= minBp {
      var op := InfixOf(ts[j]).value;
      ExprTight(ts, j + 1, RightPower(op), restrict, n);
      var rhs := ParseExpr(ts, j + 1, RightPower(op), restrict);
      if rhs.expr.Some? && rhs.pos <= n {
        TightNodes(op, lhs, rhs.expr.value, []);
        LoopTight(ts, rhs.pos, Binary(op, lhs, rhs.expr.value), minBp, restrict, n);
      }
    } else if j < |ts| && ts[j] == Dot && DOT_LEFT >= minBp {
      var a := ParseAccessor(ts, j + 1);
      if a.Some? && j < n {
        NoNumberBeforeDot(ts, i, lhs, n);
        AccessTight(lhs, a.value);
        LoopTight(ts, j + 2, Access(lhs, a.value), minBp, restrict, n);
      }
    } else if j < |ts| && !InfixOf(ts[j]).Some? && CanStartExpression(ts[j]) && CALL_LEFT >= minBp {
      ArgsTight(ts, j, restrict, n);
      var args := ParseArgs(ts, j, restrict);
      if args.items != [] && args.pos <= n {
        TightNodes(Chain, lhs, lhs, args.items);
        LoopTight(ts, args.pos, Call(lhs, args.items), minBp, restrict, n);
      }
    }
  }

  lemma TightNodes(op: Op, l: Expr, r: Expr, xs: seq<Expr>)
    requires Tight(l) && Tight(r) && AllTight(xs)
    ensures Tight(Binary(op, l, r)) && Tight(Call(l, xs))
  {
  }

  lemma AccessTight(x: Expr, a: Accessor)
    requires Tight(x) && !x.Number?
    ensures Tight(Access(x, a))
  {
  }

  lemma NoNumberBeforeDot(ts: seq<Token>, i: nat, lhs: Expr, n: nat)
    requires i <= |ts| && Clean(ts, n) && (lhs.Number? ==> At(ts, i) != Some(Dot))
    requires var j := Continues(ts, i); j < |ts| && ts[j] == Dot && j < n
    ensures !lhs.Number?
  {
    if Continues(ts, i) > i { BreakBefore(ts, i); }
  }

  // ----- what the printer writes -----

  /** No line break stands right before a dot, nor at the end; nor a dot at the start. */
  ghost predicate Tidy(ts: seq<Token>) {
    Clean(ts, |ts|) && (ts != [] ==> ts[0] != Dot && ts[|ts| - 1] != Break)
  }

  /** The same for tokens that may end in a line break. */
  ghost predicate Opens(ts: seq<Token>) {
    Clean(ts, |ts|) && (ts != [] ==> ts[0] != Dot)
  }

  lemma TidyConcat(xs: seq<Token>, ys: seq<Token>)
    requires Opens(xs) && Tidy(ys) && ys != []
    ensures Tidy(xs + ys)
  {
  }

  lemma OpensConcat(xs: seq<Token>, ys: seq<Token>)
    requires Opens(xs) && Opens(ys)
    ensures Opens(xs + ys)
  {
  }

  lemma {:induction false} PrintTidy(e: Expr, minPrec: nat, restrict: bool, spaced: bool)
    requires Shaped(e)
    ensures Tidy(Print(e, minPrec, restrict, spaced)) && Print(e, minPrec, restrict, spaced) != []
    decreases e, 2
  {
    hide Render, Clean;
    if e.Grouping? {
      PrintTidy(e.inner, minPrec, restrict, spaced);
    } else if Wraps(e, minPrec, restrict) {
      RenderTidy(e, false, false);
      Between(LeftParen, Render(e, false, false), RightParen);
    } else {
      RenderTidy(e, restrict && IsBraceSpine(e), spaced);
    }
  }

  lemma Between(open: Token, inner: seq<Token>, close: Token)
    requires Opens(inner) && open != Dot && open != Break && close != Dot && close != Break
    ensures Tidy([open] + (inner + [close]))
  {
    TidyConcat(inner, [close]);
  }

  lemma {:induction false} RenderTidy(e: Expr, restrict: bool, spaced: bool)
    requires Shaped(e) && !e.Grouping?
    ensures Tidy(Render(e, restrict, spaced)) && Render(e, restrict, spaced) != []
    decreases e, 1
  {
    hide Print, PrintArgs, PrintItems, PrintFields;
    match e
    case Binary(op, l, r) =>
      PrintTidy(l, LeftMin(op), restrict, spaced);
      PrintTidy(r, RightMin(op), restrict, true);
      var right := [OpToken(op)] + Print(r, RightMin(op), restrict, true);
      TidyConcat([OpToken(op)], Print(r, RightMin(op), restrict, true));
      TidyConcat(Print(l, LeftMin(op), restrict, spaced), right);
    case Unary(p, x) =>
      PrintTidy(x, PrefixPower(p), restrict, false);
      TidyConcat([PrefixToken(p, spaced)], Print(x, PrefixPower(p), restrict, false));
    case Access(x, a) => PrintTidy(x, 100, restrict, spaced);
    case Call(f, xs) =>
      PrintTidy(f, 91, restrict, spaced);
      ArgsTidy(e, xs, restrict);
      TidyConcat(Print(f, 91, restrict, spaced), PrintArgs(xs, restrict));
    case Tuple(xs, wrapped) =>
      ItemsTidy(e, xs, wrapped, wrapped);
      Bracketed(LeftParen, wrapped, PrintItems(xs, wrapped, wrapped), RightParen);
    case Record(fs, wrapped) =>
      if fs != [] {
        FieldsTidy(e, fs, wrapped);
        Bracketed(LeftBrace, wrapped, PrintFields(fs, wrapped), RightBrace);
      }
    case _ =>
  }

  lemma Bracketed(open: Token, wrapped: bool, inner: seq<Token>, close: Token)
    requires Opens(inner) && open != Dot && open != Break && close != Dot && close != Break
    ensures Tidy([open] + (Opening(wrapped) + (inner + [close])))
  {
    TidyConcat(inner, [close]);
    TidyConcat(Opening(wrapped), inner + [close]);
  }

  lemma {:induction false} ArgsTidy(parent: Expr, xs: seq<Expr>, restrict: bool)
    requires xs != [] && forall x :: x in xs ==> x < parent && Shaped(x)
    ensures Tidy(PrintArgs(xs, restrict)) && PrintArgs(xs, restrict) != []
    decreases parent, 0, |xs|
  {
    hide Print;
    assert xs[0] in xs && forall x :: x in xs[1..] ==> x in xs;
    PrintTidy(xs[0], 91, restrict, true);
    if |xs| > 1 {
      ArgsTidy(parent, xs[1..], restrict);
      TidyConcat(Print(xs[0], 91, restrict, true), PrintArgs(xs[1..], restrict));
    } else {
      assert PrintArgs(xs, restrict) == Print(xs[0], 91, restrict, true) by { assert xs[1..] == []; }
    }
  }

  lemma {:induction false} ItemsTidy(parent: Expr, xs: seq<Expr>, wrapped: bool, spaced: bool)
    requires forall x :: x in xs ==> x < parent && Shaped(x)
    ensures Opens(PrintItems(xs, wrapped, spaced))
    decreases parent, 0, |xs|
  {
    hide Print;
    if xs != [] {
      assert xs[0] in xs && forall x :: x in xs[1..] ==> x in xs;
      PrintTidy(xs[0], 0, false, spaced);
      ItemsTidy(parent, xs[1..], wrapped, true);
      OpensConcat(Separator(|xs| > 1, wrapped), PrintItems(xs[1..], wrapped, true));
      OpensConcat(Print(xs[0], 0, false, spaced), Separator(|xs| > 1, wrapped) + PrintItems(xs[1..], wrapped, true));
    }
  }

  lemma {:induction false} FieldsTidy(parent: Expr, fs: seq<Field>, wrapped: bool)
    requires forall f :: f in fs ==> f.value < parent && Shaped(f.value)
    ensures Opens(PrintFields(fs, wrapped))
    decreases parent, 0, |fs|
  {
    hide Print;
    if fs != [] {
      assert fs[0] in fs && forall f :: f in fs[1..] ==> f in fs;
      PrintTidy(fs[0].value, 0, false, true);
      OpensConcat([IdentTok(fs[0].name), Colon], Print(fs[0].value, 0, false, true));
      assert Opens(PrintField(fs[0]));
      FieldsTidy(parent, fs[1..], wrapped);
      OpensConcat(Separator(|fs| > 1, wrapped), PrintFields(fs[1..], wrapped));
      OpensConcat(PrintField(fs[0]), Separator(|fs| > 1, wrapped) + PrintFields(fs[1..], wrapped));
    }
  }

  // ----- the exact condition -----

  /** Over every expression the parser can produce: the printed form parses back to it exactly
      when no `or` stands over a bare `??` and no whole number is a receiver. */
  lemma ShapedRoundTripExactly(e: Expr, minPrec: nat, bp: nat, restrict: bool, spaced: bool, rest: seq<Token>)
    requires Shaped(e) && bp <= minPrec && Ends(rest, 0, restrict)
    ensures var printed := Print(e, minPrec, restrict, spaced);
            ParseExpr(printed + rest, 0, bp, restrict) == Outcome(Some(Regrouped(e, minPrec, restrict)), |printed|, [])
            <==> Safe(e) && WellFormed(e)
  {
    hide ParseExpr, Print, Regrouped, Safe, WellFormed, Shaped, Ends, Tight;
    var printed := Print(e, minPrec, restrict, spaced);
    if WellFormed(e) {
      RoundTripExactly(e, minPrec, bp, restrict, spaced, rest);
    } else {
      PrintTidy(e, minPrec, restrict, spaced);
      assert Clean(printed + rest, |printed|);
      ExprTight(printed + rest, 0, bp, restrict, |printed|);
      RegroupedTight(e, minPrec, restrict);
    }
  }

  /** `(n).name`, or `n` with `.name` on the next line, prints as `n.name`, which is an error;
      and `(n).k` prints as `n.k`, which is a decimal number. */
  lemma NumberReceiverIsDecimal(n: nat, name: string, k: nat, restrict: bool, spaced: bool)
    ensures ParseExpr(Print(Access(Number(n), Name(name)), 0, restrict, spaced), 0, 0, restrict) == Outcome(None, 2, [ExpectedDigits])
    ensures ParseExpr(Print(Access(Number(n), Index(k)), 0, restrict, spaced), 0, 0, restrict) == Outcome(Some(Float(n, k)), 3, [])
    ensures ParseExpr([DigitsTok(n), Break, Dot, IdentTok(name)], 0, 0, restrict) == Outcome(Some(Access(Number(n), Name(name))), 4, [])
  {
    hide ParseLoop, ParseArgs, ParseParenthetical, ParseEntries, ParseRecord, ParseFields;
    var named, indexed := [DigitsTok(n), Dot, IdentTok(name)], [DigitsTok(n), Dot, DigitsTok(k)];
    assert Print(Number(n), 100, restrict, spaced) == [DigitsTok(n)];
    assert Print(Access(Number(n), Name(name)), 0, restrict, spaced) == named;
    assert Print(Access(Number(n), Index(k)), 0, restrict, spaced) == indexed;
    assert ParseNumber(named, 0) == Outcome(None, 2, [ExpectedDigits]);
    assert ParseNumber(indexed, 0) == Outcome(Some(Float(n, k)), 3, []);
    ExprStep(indexed, 0, 0, restrict, Float(n, k), 3);
    HaltsMeans(indexed, 3, 0, restrict, Float(n, k));
    BrokenAccess(n, name, restrict);
  }

  lemma BrokenAccess(n: nat, name: string, restrict: bool)
    ensures ParseExpr([DigitsTok(n), Break, Dot, IdentTok(name)], 0, 0, restrict) == Outcome(Some(Access(Number(n), Name(name))), 4, [])
  {
    var ts := [DigitsTok(n), Break, Dot, IdentTok(name)];
    assert ParseNumber(ts, 0) == Outcome(Some(Number(n)), 1, []);
    ExprStep(ts, 0, 0, restrict, Number(n), 1);
    assert SkipBreaks(ts, 2) == 2 && SkipBreaks(ts, 1) == 2 && Continues(ts, 1) == 2;
    HaltsMeans(ts, 4, 0, restrict, Access(Number(n), Name(name)));
  }
}
