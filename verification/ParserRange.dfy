/** What the parser can return at all: where it fails without saying so, and which trees it
    never builds. */
module ParserRange {
  import opened Syntax
  import opened Wrappers
  import opened Parser
  import opened Printer
  import opened Reading
  import opened RoundTrip

  // ----- silent failures -----

  predicate BeginsExpression(t: Token) {
    t.IdentTok? || t.DigitsTok? || t.LiteralTok? || t == Dot || t == LeftParen || t == LeftBrace || PrefixOf(t).Some?
  }

  /** No expression is found at `i`, and nothing is reported: nothing there begins one, or a
      brace does that a subject keeps for its body, or a record whose fields are dropped. */
  predicate Silent(ts: seq<Token>, i: nat, restrict: bool)
    requires i <= |ts|
    decreases |ts| - i, 0
  {
    i == |ts| || !BeginsExpression(ts[i]) || (ts[i] == LeftBrace && (restrict || Drops(ts, SkipBreaks(ts, i + 1))))
  }

  /** The fields from `i` on are well up to one whose colon has no value behind it. */
  predicate Drops(ts: seq<Token>, i: nat)
    requires i <= |ts|
    decreases |ts| - i, 1
  {
    i < |ts| && ts[i].IdentTok? &&
    if At(ts, i + 1) == Some(Colon) && Silent(ts, i + 2, false) then true
    else
      var value := FieldValue(ts, i);
      value.expr.Some? && value.errs == [] && NextEntry(ts, value.pos).Some? && Drops(ts, NextEntry(ts, value.pos).value)
  }

  /** An expression is missing without a diagnostic exactly there; the cursor has moved only
      if a record was dropped. */
  lemma {:induction false} ExprFails(ts: seq<Token>, i: nat, minBp: nat, restrict: bool)
    requires i <= |ts|
    ensures var o := ParseExpr(ts, i, minBp, restrict);
            && (o.expr == None && o.errs == [] <==> Silent(ts, i, restrict))
            && (Silent(ts, i, restrict) && (At(ts, i) == Some(LeftBrace) ==> restrict) ==> o.pos == i)
    decreases |ts| - i, 4
  {
    hide ParsePrimary, ParseLoop, ParseArgs, ParseParenthetical, ParseEntries, ParseRecord, ParseFields, Silent;
    PrimaryFails(ts, i, restrict);
    var first := ParsePrimary(ts, i, restrict);
    if first.expr.Some? { LoopFails(ts, first.pos, first.expr.value, minBp, restrict); }
  }

  lemma {:induction false} PrimaryFails(ts: seq<Token>, i: nat, restrict: bool)
    requires i <= |ts|
    ensures var o := ParsePrimary(ts, i, restrict);
            && (o.expr == None && o.errs == [] <==> Silent(ts, i, restrict))
            && (Silent(ts, i, restrict) && (At(ts, i) == Some(LeftBrace) ==> restrict) ==> o.pos == i)
    decreases |ts| - i, 3
  {
    hide ParseExpr, ParseLoop, ParseArgs, ParseEntries, ParseFields, Drops;
    if i < |ts| && ts[i] == LeftBrace && !restrict {
      FieldsDropExactly(ts, SkipBreaks(ts, i + 1));
    }
  }

  /** The fields of a record fail without a diagnostic exactly when they are dropped at such a
      colon. */
  lemma {:induction false} FieldsDropExactly(ts: seq<Token>, i: nat)
    requires i <= |ts|
    ensures !ParseFields(ts, i).ok && ParseFields(ts, i).errs == [] <==> Drops(ts, i)
    decreases |ts| - i, 5
  {
    hide ParseExpr, ParsePrimary, ParseLoop, ParseArgs, ParseParenthetical, ParseEntries, ParseRecord, Silent;
    if i < |ts| && ts[i].IdentTok? {
      if At(ts, i + 1) == Some(Colon) { ExprFails(ts, i + 2, 0, false); }
      var value := FieldValue(ts, i);
      if value.expr.Some? && NextEntry(ts, value.pos).Some? { FieldsDropExactly(ts, NextEntry(ts, value.pos).value); }
    }
  }

  lemma {:induction false} LoopFails(ts: seq<Token>, i: nat, lhs: Expr, minBp: nat, restrict: bool)
    requires i <= |ts|
    ensures ParseLoop(ts, i, lhs, minBp, restrict).expr == None ==> ParseLoop(ts, i, lhs, minBp, restrict).errs != []
    decreases |ts| - i, 6
  {
    hide ParseExpr, ParsePrimary, ParseArgs, ParseParenthetical, ParseEntries, ParseRecord, ParseFields, Continues;
    var j := Continues(ts, i);
    if j < |ts| {
      if InfixOf(ts[j]).Some? {
        var op := InfixOf(ts[j]).value;
        var rhs := Require(ParseExpr(ts, j + 1, RightPower(op), restrict));
        if rhs.expr.Some? { LoopFails(ts, rhs.pos, Binary(op, lhs, rhs.expr.value), minBp, restrict); }
      } else if ts[j] == Dot {
        var a := ParseAccessor(ts, j + 1);
        if a.Some? { LoopFails(ts, j + 2, Access(lhs, a.value), minBp, restrict); }
      } else if CanStartExpression(ts[j]) {
        var args := ParseArgs(ts, j, restrict);
        if args.items != [] { LoopFails(ts, args.pos, Call(lhs, args.items), minBp, restrict); }
      }
    }
  }

  /** No record is dropped anywhere in the input. */
  ghost predicate NothingDropped(ts: seq<Token>) {
    forall q :: 0 <= q < |ts| && ts[q] == LeftBrace ==> !Drops(ts, SkipBreaks(ts, q + 1))
  }

  // ----- the shape of parsed trees -----

  /** Does `e`'s right edge end in a `??` that no grouping encloses? */
  predicate BareOpen(e: Expr)
    decreases e
  {
    match e
    case Binary(op, _, r) => op == NullCoalescing || BareOpen(r)
    case Unary(_, x) => BareOpen(x)
    case Call(_, xs) => xs != [] && BareOpen(xs[|xs| - 1])
    case _ => false
  }

  /** Nowhere does an `or` have such a left operand. */
  predicate Canonical(e: Expr)
    decreases e
  {
    match e
    case Grouping(x) => Canonical(x)
    case Binary(op, l, r) => Canonical(l) && Canonical(r) && !(op == LogicalOr && BareOpen(l))
    case Unary(_, x) => Canonical(x)
    case Access(x, _) => Canonical(x)
    case Call(f, xs) => Canonical(f) && forall x :: x in xs ==> Canonical(x)
    case Tuple(xs, _) => forall x :: x in xs ==> Canonical(x)
    case Record(fs, _) => forall f :: f in fs ==> Canonical(f.value)
    case _ => true
  }

  /** The next token, past any line break the loop would pass over, is not `or`. */
  predicate NextIsNotOr(ts: seq<Token>, i: nat)
    requires i <= |ts|
  {
    var j := Continues(ts, i);
    j < |ts| ==> InfixOf(ts[j]) != Some(LogicalOr)
  }

  ghost predicate InRange(o: Outcome, ts: seq<Token>, minBp: nat) {
    o.expr.Some? && o.errs == [] ==>
      && o.pos <= |ts|
      && Canonical(o.expr.value)
      && (BareOpen(o.expr.value) || minBp <= LeftPower(LogicalOr) ==> NextIsNotOr(ts, o.pos))
  }

  ghost predicate AllCanonical(xs: seq<Expr>) {
    forall x :: x in xs ==> Canonical(x)
  }

  lemma {:induction false} ExprInRange(ts: seq<Token>, i: nat, minBp: nat, restrict: bool)
    requires i <= |ts| && NothingDropped(ts)
    ensures InRange(ParseExpr(ts, i, minBp, restrict), ts, minBp)
    decreases |ts| - i, 4
  {
    hide ParsePrimary, ParseLoop, ParseArgs, ParseParenthetical, ParseEntries, ParseRecord, ParseFields, Continues, NextIsNotOr;
    PrimaryInRange(ts, i, restrict);
    var first := ParsePrimary(ts, i, restrict);
    if first.expr.Some? && first.errs == [] {
      LoopInRange(ts, first.pos, first.expr.value, minBp, restrict);
    }
  }

  lemma {:induction false} PrimaryInRange(ts: seq<Token>, i: nat, restrict: bool)
    requires i <= |ts| && NothingDropped(ts)
    ensures var o := ParsePrimary(ts, i, restrict);
            o.expr.Some? && o.errs == [] ==> Canonical(o.expr.value) && (BareOpen(o.expr.value) ==> NextIsNotOr(ts, o.pos))
    decreases |ts| - i, 3
  {
    hide ParseExpr, ParseLoop, ParseArgs, ParseEntries, ParseFields, Continues, NextIsNotOr;
    if i < |ts| {
      if ts[i] == LeftParen {
        EntriesInRange(ts, SkipBreaks(ts, i + 1));
      } else if ts[i] == LeftBrace && !restrict {
        FieldsInRange(ts, SkipBreaks(ts, i + 1));
      } else if PrefixOf(ts[i]).Some? {
        ExprInRange(ts, i + 1, PrefixPower(PrefixOf(ts[i]).value), restrict);
      }
    }
  }

  lemma {:induction false} EntriesInRange(ts: seq<Token>, i: nat)
    requires i <= |ts| && NothingDropped(ts)
    ensures ParseEntries(ts, i).errs == [] ==> AllCanonical(ParseEntries(ts, i).items)
    decreases |ts| - i, 5
  {
    hide ParseExpr, ParsePrimary, ParseLoop, ParseArgs, ParseParenthetical, ParseRecord, ParseFields, Continues, NextIsNotOr, Canonical;
    ExprInRange(ts, i, 0, false);
    var entry := ParseExpr(ts, i, 0, false);
    if entry.expr.Some? && entry.pos < |ts| {
      if ts[entry.pos] == Comma { EntriesInRange(ts, SkipBreaks(ts, entry.pos + 1)); }
      if ts[entry.pos] == Break { EntriesInRange(ts, SkipBreaks(ts, entry.pos)); }
    }
  }

  lemma {:induction false} FieldsInRange(ts: seq<Token>, i: nat)
    requires i <= |ts| && NothingDropped(ts)
    ensures ParseFields(ts, i).errs == [] ==> forall f :: f in ParseFields(ts, i).items ==> Canonical(f.value)
    decreases |ts| - i, 5
  {
    hide ParseExpr, ParsePrimary, ParseLoop, ParseArgs, ParseParenthetical, ParseRecord, ParseEntries, Continues, NextIsNotOr, NothingDropped;
    if i < |ts| && ts[i].IdentTok? {
      if At(ts, i + 1) == Some(Colon) { ExprInRange(ts, i + 2, 0, false); }
      hide SkipBreaks, At;
      var value := FieldValue(ts, i);
      assert value.expr.Some? && value.errs == [] ==> Canonical(value.expr.value);
      hide FieldValue, Canonical;
      if value.expr.Some? && NextEntry(ts, value.pos).Some? { FieldsInRange(ts, NextEntry(ts, value.pos).value); }
    }
  }

  lemma {:induction false} ArgsInRange(ts: seq<Token>, i: nat, restrict: bool)
    requires i <= |ts| && NothingDropped(ts)
    ensures var r := ParseArgs(ts, i, restrict);
            r.errs == [] ==>
              && AllCanonical(r.items)
              && (r.items == [] ==> r.pos == i)
              && (r.items != [] && BareOpen(r.items[|r.items| - 1]) ==> NextIsNotOr(ts, r.pos))
    decreases |ts| - i, 5
  {
    hide ParseExpr, ParsePrimary, ParseLoop, ParseParenthetical, ParseRecord, ParseEntries, ParseFields, Continues, NextIsNotOr, Canonical;
    if At(ts, i) != Some(Minus) {
      ExprInRange(ts, i, CALL_RIGHT, restrict);
      ExprFails(ts, i, CALL_RIGHT, restrict);
      var arg := ParseExpr(ts, i, CALL_RIGHT, restrict);
      if arg.expr.Some? { ArgsInRange(ts, arg.pos, restrict); }
    }
  }

  lemma ContinuesTwice(ts: seq<Token>, i: nat)
    requires i <= |ts|
    ensures Continues(ts, Continues(ts, i)) == Continues(ts, i)
  {
  }

  lemma {:induction false} LoopInRange(ts: seq<Token>, i: nat, lhs: Expr, minBp: nat, restrict: bool)
    requires i <= |ts| && NothingDropped(ts)
    requires Canonical(lhs) && (BareOpen(lhs) ==> NextIsNotOr(ts, i))
    ensures InRange(ParseLoop(ts, i, lhs, minBp, restrict), ts, minBp)
    decreases |ts| - i, 6
  {
    hide ParseExpr, ParsePrimary, ParseArgs, ParseParenthetical, ParseEntries, ParseRecord, ParseFields, Continues,
         SkipBreaks, Canonical, BareOpen, NothingDropped, AllCanonical;
    var j := Continues(ts, i);
    ContinuesTwice(ts, i);
    if j < |ts| && InfixOf(ts[j]).Some? && LeftPower(InfixOf(ts[j]).value) >= minBp {
      var op := InfixOf(ts[j]).value;
      ExprInRange(ts, j + 1, RightPower(op), restrict);
      var rhs := ParseExpr(ts, j + 1, RightPower(op), restrict);
      if rhs.expr.Some? && rhs.errs == [] {
        BinaryShape(op, lhs, rhs.expr.value);
        LoopInRange(ts, rhs.pos, Binary(op, lhs, rhs.expr.value), minBp, restrict);
      }
    } else if j < |ts| && ts[j] == Dot && DOT_LEFT >= minBp {
      var a := ParseAccessor(ts, j + 1);
      if a.Some? {
        assert !BareOpen(Access(lhs, a.value)) && Canonical(Access(lhs, a.value)) by { AccessShape(lhs, a.value); }
        LoopInRange(ts, j + 2, Access(lhs, a.value), minBp, restrict);
      }
    } else if j < |ts| && !InfixOf(ts[j]).Some? && CanStartExpression(ts[j]) && CALL_LEFT >= minBp {
      ArgsInRange(ts, j, restrict);
      var args := ParseArgs(ts, j, restrict);
      if args.items != [] && args.errs == [] {
        CallShape(lhs, args.items);
        LoopInRange(ts, args.pos, Call(lhs, args.items), minBp, restrict);
      }
    }
  }

  lemma BinaryShape(op: Op, l: Expr, r: Expr)
    ensures BareOpen(Binary(op, l, r)) <==> op == NullCoalescing || BareOpen(r)
    ensures Canonical(Binary(op, l, r)) <==> Canonical(l) && Canonical(r) && !(op == LogicalOr && BareOpen(l))
  {
  }

  lemma AccessShape(x: Expr, a: Accessor)
    ensures !BareOpen(Access(x, a)) && (Canonical(Access(x, a)) <==> Canonical(x))
  {
  }

  lemma CallShape(f: Expr, xs: seq<Expr>)
    requires xs != []
    ensures BareOpen(Call(f, xs)) <==> BareOpen(xs[|xs| - 1])
    ensures Canonical(Call(f, xs)) <==> Canonical(f) && AllCanonical(xs)
  {
  }

  // ----- safe expressions are exactly those whose regrouped form is canonical -----

  /** The printer's view of an open `??` agrees with the parser's, on the regrouped tree. */
  lemma {:induction false} OpenMatches(e: Expr, minPrec: nat, restrict: bool)
    requires WellFormed(e)
    ensures BareOpen(Regrouped(e, minPrec, restrict)) <==> OpenCoalesce(e, minPrec)
    decreases e
  {
    if e.Grouping? {
      OpenMatches(e.inner, minPrec, restrict);
    } else {
      match e
      case Binary(op, l, r) =>
        OpenMatches(r, RightMin(op), restrict);
      case Unary(p, x) => OpenMatches(x, PrefixPower(p), restrict);
      case Call(f, xs) =>
        RegroupedLast(xs, 91, restrict);
        assert xs[|xs| - 1] in xs;
        OpenMatches(xs[|xs| - 1], 91, restrict);
        TightNotOpenCoalesce(xs[|xs| - 1], 91);
      case _ =>
    }
  }

  lemma {:induction false} RegroupedLast(xs: seq<Expr>, minPrec: nat, restrict: bool)
    requires xs != []
    ensures var r := RegroupedAll(xs, minPrec, restrict); r[|r| - 1] == Regrouped(xs[|xs| - 1], minPrec, restrict)
  {
    RegroupedAt(xs, minPrec, restrict, |xs| - 1);
  }

  lemma {:induction false} RegroupedAt(xs: seq<Expr>, minPrec: nat, restrict: bool, k: nat)
    requires k < |xs|
    ensures RegroupedAll(xs, minPrec, restrict)[k] == Regrouped(xs[k], minPrec, restrict)
  {
    if k > 0 { RegroupedAt(xs[1..], minPrec, restrict, k - 1); }
  }

  lemma {:induction false} RegroupedFieldAt(fs: seq<Field>, k: nat)
    requires k < |fs|
    ensures RegroupedFields(fs)[k] == Field(fs[k].name, Regrouped(fs[k].value, 0, false))
  {
    if k > 0 { RegroupedFieldAt(fs[1..], k - 1); }
  }

  lemma {:induction false} SafeIsCanonical(e: Expr, minPrec: nat, restrict: bool)
    requires WellFormed(e)
    ensures Canonical(Regrouped(e, minPrec, restrict)) <==> Safe(e)
    decreases e, 2
  {
    if e.Grouping? {
      SafeIsCanonical(e.inner, minPrec, restrict);
    } else {
      RebuiltIsCanonical(e, if Wraps(e, minPrec, restrict) then false else restrict && IsBraceSpine(e));
    }
  }

  lemma {:induction false} RebuiltIsCanonical(e: Expr, restrict: bool)
    requires WellFormed(e) && !e.Grouping?
    ensures Canonical(Rebuilt(e, restrict)) <==> Safe(e)
    decreases e, 1
  {
    hide Regrouped, WellFormed, OpenCoalesce, BareOpen, RegroupedAll, RegroupedFields;
    ChildrenWellFormed(e);
    match e
    case Binary(op, l, r) =>
      SafeIsCanonical(l, LeftMin(op), restrict);
      SafeIsCanonical(r, RightMin(op), restrict);
      OpenMatches(l, LeftMin(op), restrict);
    case Unary(p, x) => SafeIsCanonical(x, PrefixPower(p), restrict);
    case Access(x, _) => SafeIsCanonical(x, 100, restrict);
    case Call(f, xs) =>
      SafeIsCanonical(f, 91, restrict);
      AllSafeCanonical(e, xs, 91, restrict);
    case Tuple(xs, _) => AllSafeCanonical(e, xs, 0, false);
    case Record(fs, _) => FieldsSafeCanonical(e, fs);
    case _ =>
  }

  lemma ChildrenWellFormed(e: Expr)
    requires WellFormed(e)
    ensures e.Binary? ==> WellFormed(e.left) && WellFormed(e.right)
    ensures e.Unary? ==> WellFormed(e.operand)
    ensures e.Access? ==> WellFormed(e.receiver)
    ensures e.Call? ==> WellFormed(e.callee) && forall x :: x in e.args ==> WellFormed(x)
    ensures e.Tuple? ==> forall x :: x in e.items ==> WellFormed(x)
    ensures e.Record? ==> forall f :: f in e.fields ==> WellFormed(f.value)
  {
  }

  lemma {:induction false} AllSafeCanonical(parent: Expr, xs: seq<Expr>, minPrec: nat, restrict: bool)
    requires forall x :: x in xs ==> x < parent && WellFormed(x)
    ensures (forall y :: y in RegroupedAll(xs, minPrec, restrict) ==> Canonical(y)) <==> forall x :: x in xs ==> Safe(x)
    decreases parent, 0
  {
    hide Regrouped, Canonical, Safe, RegroupedAll, WellFormed;
    var ys := RegroupedAll(xs, minPrec, restrict);
    forall k | 0 <= k < |xs| ensures Canonical(ys[k]) <==> Safe(xs[k]) {
      assert xs[k] in xs;
      RegroupedAt(xs, minPrec, restrict, k);
      SafeIsCanonical(xs[k], minPrec, restrict);
    }
    assert forall k :: 0 <= k < |xs| ==> xs[k] in xs && ys[k] in ys;
  }

  lemma {:induction false} FieldsSafeCanonical(parent: Expr, fs: seq<Field>)
    requires forall f :: f in fs ==> f.value < parent && WellFormed(f.value)
    ensures (forall g :: g in RegroupedFields(fs) ==> Canonical(g.value)) <==> forall f :: f in fs ==> Safe(f.value)
    decreases parent, 0
  {
    hide Regrouped, Canonical, Safe, RegroupedFields, WellFormed;
    var gs := RegroupedFields(fs);
    forall k | 0 <= k < |fs| ensures Canonical(gs[k].value) <==> Safe(fs[k].value) {
      assert fs[k] in fs;
      RegroupedFieldAt(fs, k);
      SafeIsCanonical(fs[k].value, 0, false);
    }
    assert forall k :: 0 <= k < |fs| ==> fs[k] in fs && gs[k] in gs;
  }

  // ----- concrete inputs -----

  function CoalesceThenOr(a: string, b: string, c: string): Expr {
    Binary(LogicalOr, Binary(NullCoalescing, Ident(a), Ident(b)), Ident(c))
  }

  /** The smallest unsafe expression, `(a ?? b) or c`: its parentheses are dropped, and what
      is left reads as `a ?? (b or c)`. */
  lemma CoalesceBeforeOr(a: string, b: string, c: string, restrict: bool, spaced: bool)
    ensures var e := CoalesceThenOr(a, b, c);
            var read := Binary(NullCoalescing, Ident(a), Binary(LogicalOr, Ident(b), Ident(c)));
            && !Safe(e)
            && ParseExpr(Print(e, 0, restrict, spaced), 0, 0, restrict) == Outcome(Some(read), 5, [])
            && Strip(read) != Strip(e)
  {
    hide ParseExpr, Print, AsRead, Safe, Strip;
    var e := CoalesceThenOr(a, b, c);
    CoalesceOrShape(a, b, c);
    CoalesceOrPrints(a, b, c, restrict, spaced);
    CoalesceOrReads(a, b, c, restrict);
    assert Ends([], 0, restrict);
    assert Print(e, 0, restrict, spaced) + [] == Print(e, 0, restrict, spaced);
    PrintedReadsAs(e, 0, 0, restrict, spaced, []);
  }

  lemma CoalesceOrShape(a: string, b: string, c: string)
    ensures var e := CoalesceThenOr(a, b, c);
            WellFormed(e) && !Safe(e) && Strip(Binary(NullCoalescing, Ident(a), Binary(LogicalOr, Ident(b), Ident(c)))) != Strip(e)
  {
    var l := CoalesceThenOr(a, b, c).left;
    assert WellFormed(Ident(a)) && WellFormed(Ident(b)) && WellFormed(Ident(c));
    assert WellFormed(l) && OpenCoalesce(l, 20);
    assert Strip(Ident(a)) == Ident(a) && Strip(Ident(c)) == Ident(c);
  }

  lemma CoalesceOrPrints(a: string, b: string, c: string, restrict: bool, spaced: bool)
    ensures Print(CoalesceThenOr(a, b, c), 0, restrict, spaced)
            == [IdentTok(a), InfixTok(NullCoalescing), IdentTok(b), InfixTok(LogicalOr), IdentTok(c)]
  {
    var l := CoalesceThenOr(a, b, c).left;
    assert Print(Ident(a), 22, restrict, spaced) == [IdentTok(a)] && Print(Ident(b), 21, restrict, true) == [IdentTok(b)];
    assert Print(l, 20, restrict, spaced) == [IdentTok(a), InfixTok(NullCoalescing), IdentTok(b)];
    assert Print(Ident(c), 21, restrict, true) == [IdentTok(c)];
  }

  lemma CoalesceOrReads(a: string, b: string, c: string, restrict: bool)
    ensures AsRead(CoalesceThenOr(a, b, c), 0, restrict) == Binary(NullCoalescing, Ident(a), Binary(LogicalOr, Ident(b), Ident(c)))
  {
    var l := CoalesceThenOr(a, b, c).left;
    assert AsRead(Ident(a), 22, restrict) == Ident(a) && AsRead(Ident(b), 21, restrict) == Ident(b);
    assert AsRead(l, 20, restrict) == l && AsRead(Ident(c), 21, restrict) == Ident(c);
    assert Graft(Ident(b), Ident(c)) == Binary(LogicalOr, Ident(b), Ident(c));
    assert Graft(l, Ident(c)) == Binary(NullCoalescing, Ident(a), Binary(LogicalOr, Ident(b), Ident(c)));
  }

  /** A record argument with nothing behind the colon of its field is dropped without any
      error, and the call's head alone is returned. */
  lemma HangingColonIsDropped(f: string, a: string)
    ensures var ts := [IdentTok(f), LeftBrace, IdentTok(a), Colon, RightParen];
            ParseExpr(ts, 0, 0, false) == Outcome(Some(Ident(f)), 4, [])
  {
    var ts := [IdentTok(f), LeftBrace, IdentTok(a), Colon, RightParen];
    assert ParsePrimary(ts, 4, false) == Outcome(None, 4, []);
    assert ParseExpr(ts, 4, 0, false) == Outcome(None, 4, []);
    assert ParseFields(ts, 2) == Fields([], 4, [], false);
    assert ParsePrimary(ts, 1, false) == Outcome(None, 4, []);
    assert ParseExpr(ts, 1, 91, false) == Outcome(None, 4, []);
    assert ParseArgs(ts, 1, false) == Entries([], 4, []);
    assert ParseLoop(ts, 1, Ident(f), 0, false) == Outcome(Some(Ident(f)), 4, []);
    IdentStep(ts, 0, false);
    ExprStep(ts, 0, 0, false, Ident(f), 1);
  }

  /** So the range has an exception: behind a dropped record the loop of the call's operand is
      left at once, and the `or` that follows is taken over the `??`. */
  lemma DroppedRecordLeavesRange(a: string, f: string, n: string, c: string)
    ensures var ts := [IdentTok(a), InfixTok(NullCoalescing), IdentTok(f), LeftBrace, IdentTok(n), Colon, InfixTok(LogicalOr), IdentTok(c)];
            var read := Binary(LogicalOr, Binary(NullCoalescing, Ident(a), Ident(f)), Ident(c));
            ParseExpr(ts, 0, 0, false) == Outcome(Some(read), 8, []) && !Canonical(read) && !NothingDropped(ts)
  {
    hide ParseExpr, ParsePrimary, ParseLoop, ParseArgs, ParseParenthetical, ParseEntries, ParseRecord, ParseFields, NothingDropped, Canonical;
    var ts := [IdentTok(a), InfixTok(NullCoalescing), IdentTok(f), LeftBrace, IdentTok(n), Colon, InfixTok(LogicalOr), IdentTok(c)];
    var l := Binary(NullCoalescing, Ident(a), Ident(f));
    DroppedArgument(ts, f);
    IdentStep(ts, 7, false);
    ExprStep(ts, 7, 21, false, Ident(c), 8);
    HaltsMeans(ts, 8, 21, false, Ident(c));
    IdentStep(ts, 0, false);
    ExprStep(ts, 0, 0, false, Ident(a), 1);
    InfixStep(ts, 1, Ident(a), 0, false, NullCoalescing, Ident(f), 6);
    InfixStep(ts, 6, l, 0, false, LogicalOr, Ident(c), 8);
    HaltsMeans(ts, 8, 0, false, Binary(LogicalOr, l, Ident(c)));
    BinaryShape(LogicalOr, l, Ident(c));
    BinaryShape(NullCoalescing, Ident(a), Ident(f));
  }

  lemma DroppedArgument(ts: seq<Token>, f: string)
    requires |ts| == 8 && ts[2] == IdentTok(f) && ts[3] == LeftBrace && ts[4].IdentTok? && ts[5] == Colon && ts[6] == InfixTok(LogicalOr)
    ensures ParseExpr(ts, 2, 20, false) == Outcome(Some(Ident(f)), 6, []) && !NothingDropped(ts)
  {
    assert Silent(ts, 6, false) && Drops(ts, 4) && SkipBreaks(ts, 4) == 4;
    assert ParsePrimary(ts, 6, false) == Outcome(None, 6, []);
    assert ParseExpr(ts, 6, 0, false) == Outcome(None, 6, []);
    assert ParseFields(ts, 4) == Fields([], 6, [], false);
    assert ParsePrimary(ts, 3, false) == Outcome(None, 6, []);
    assert ParseExpr(ts, 3, 91, false) == Outcome(None, 6, []);
    assert ParseArgs(ts, 3, false) == Entries([], 6, []);
    assert ParseLoop(ts, 3, Ident(f), 20, false) == Outcome(Some(Ident(f)), 6, []);
    IdentStep(ts, 2, false);
    ExprStep(ts, 2, 20, false, Ident(f), 3);
  }
}
