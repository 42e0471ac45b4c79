/** Printing an expression and parsing the tokens back. */
module RoundTrip {
  import opened Syntax
  import opened Wrappers
  import opened Parser
  import opened Printer
  import opened Reading

  // ----- where the parser's loop stops -----

  predicate Here(ts: seq<Token>, i: nat, xs: seq<Token>) {
    i + |xs| <= |ts| && ts[i..i + |xs|] == xs
  }

  lemma Split(ts: seq<Token>, i: nat, xs: seq<Token>, ys: seq<Token>)
    requires Here(ts, i, xs + ys)
    ensures Here(ts, i, xs) && Here(ts, i + |xs|, ys)
  {
    var zs := ts[i..i + |xs + ys|];
    assert zs[..|xs|] == xs && zs[|xs|..] == ys;
    assert ts[i..i + |xs|] == zs[..|xs|];
    assert ts[i + |xs|..i + |xs| + |ys|] == zs[|xs|..];
  }

  lemma First(ts: seq<Token>, i: nat, xs: seq<Token>)
    requires Here(ts, i, xs) && xs != []
    ensures i < |ts| && ts[i] == xs[0]
  {
    assert ts[i..i + |xs|][0] == ts[i];
  }

  /** The operator loop at power `bp` leaves the token at `j` alone. */
  predicate Halts(ts: seq<Token>, j: nat, bp: nat, restrict: bool)
    requires j <= |ts|
  {
    && Continues(ts, j) == j
    && (j == |ts| ||
        (if InfixOf(ts[j]).Some? then LeftPower(InfixOf(ts[j]).value) < bp
         else if ts[j] == Dot then DOT_LEFT < bp
         else if CanStartExpression(ts[j]) then CALL_LEFT < bp || (ts[j] == LeftBrace && restrict)
         else true))
  }

  lemma HaltsMeans(ts: seq<Token>, j: nat, bp: nat, restrict: bool, lhs: Expr)
    requires j <= |ts| && Halts(ts, j, bp, restrict)
    ensures ParseLoop(ts, j, lhs, bp, restrict) == Outcome(Some(lhs), j, [])
  {
    if j < |ts| && ts[j] == LeftBrace && restrict {
      assert ParsePrimary(ts, j, restrict) == Outcome(None, j, []);
      assert ParseArgs(ts, j, restrict) == Entries([], j, []);
    }
  }

  lemma HaltsAtMore(ts: seq<Token>, j: nat, low: nat, bp: nat, restrict: bool)
    requires j <= |ts| && low <= bp && Halts(ts, j, low, restrict)
    ensures Halts(ts, j, bp, restrict)
  {
  }

  /** The token at `j` begins no call argument. */
  predicate NoArgument(ts: seq<Token>, j: nat, restrict: bool)
    requires j <= |ts|
  {
    j == |ts| || ts[j] == Minus ||
    !(ts[j] == LeftParen || ts[j].IdentTok? || ts[j].DigitsTok? || ts[j].LiteralTok? || ts[j] == Dot || PrefixOf(ts[j]).Some? || (ts[j] == LeftBrace && !restrict))
  }

  lemma NoArgumentMeans(ts: seq<Token>, j: nat, restrict: bool)
    requires j <= |ts| && NoArgument(ts, j, restrict)
    ensures ParseArgs(ts, j, restrict) == Entries([], j, [])
  {
    if j == |ts| || ts[j] != Minus {
      assert ParsePrimary(ts, j, restrict) == Outcome(None, j, []);
      assert ParseExpr(ts, j, CALL_RIGHT, restrict) == Outcome(None, j, []);
    }
  }

  /** An `or` stands at `j`. */
  predicate OrAt(ts: seq<Token>, j: nat) { j < |ts| && ts[j] == OpToken(LogicalOr) }

  /** What follows at `j` is not captured by the bare right edge of `e` printed at `minPrec`,
      unless it is an `or` captured by a `??`. */
  predicate NotCaptured(e: Expr, minPrec: nat, restrict: bool, ts: seq<Token>, j: nat)
    requires j <= |ts|
    decreases e
  {
    if e.Grouping? then NotCaptured(e.inner, minPrec, restrict, ts, j)
    else if Wraps(e, minPrec, restrict) then true
    else
      match e
      case Binary(op, _, r) =>
        && (Halts(ts, j, RightPower(op), restrict) || (op == NullCoalescing && OrAt(ts, j)))
        && NotCaptured(r, RightMin(op), restrict, ts, j)
      case Unary(p, x) => Halts(ts, j, PrefixPower(p), restrict) && NotCaptured(x, PrefixPower(p), restrict, ts, j)
      case Call(_, _) => Halts(ts, j, CALL_RIGHT, restrict) && NoArgument(ts, j, restrict)
      case Number(_) => At(ts, j) != Some(Dot)
      case _ => true
  }

  lemma TightNotCaptured(e: Expr, minPrec: nat, restrict: bool, ts: seq<Token>, j: nat)
    requires minPrec >= 91 && j <= |ts| && (IsNumber(e) ==> At(ts, j) != Some(Dot))
    ensures NotCaptured(e, minPrec, restrict, ts, j)
  {
  }

  /** An infix operator is not captured by its own left operand, except `or` by a `??`. */
  lemma {:induction false} OperatorNotCaptured(e: Expr, minPrec: nat, restrict: bool, ts: seq<Token>, j: nat, op: Op)
    requires j < |ts| && ts[j] == OpToken(op) && minPrec >= LeftMin(op)
    ensures NotCaptured(e, minPrec, restrict, ts, j)
    decreases e
  {
    assert InfixOf(ts[j]) == Some(op);
    if e.Grouping? {
      OperatorNotCaptured(e.inner, minPrec, restrict, ts, j, op);
    } else if !Wraps(e, minPrec, restrict) {
      match e
      case Binary(o, _, r) =>
        PowerGap(op, o);
        OperatorNotCaptured(r, RightMin(o), restrict, ts, j, op);
      case Unary(p, x) =>
        OperatorNotCaptured(x, PrefixPower(p), restrict, ts, j, op);
      case _ =>
    }
  }

  /** The gap between the two tables: a bare operator on the edge binds what follows it
      more tightly than the next operator does, unless it is `??` before `or`. */
  lemma PowerGap(op: Op, edge: Op)
    requires OpPrec(edge) >= LeftMin(op)
    ensures LeftPower(op) < RightPower(edge) || (op == LogicalOr && edge == NullCoalescing)
    ensures RightMin(edge) >= OpPrec(edge)
  {
  }

  /** The text after an expression ends it at every power: no operator, no argument. */
  predicate Ends(ts: seq<Token>, j: nat, restrict: bool)
    requires j <= |ts|
  {
    Halts(ts, j, 0, restrict) && NoArgument(ts, j, restrict)
  }

  lemma {:induction false} EndsNotCaptured(e: Expr, minPrec: nat, restrict: bool, ts: seq<Token>, j: nat)
    requires j <= |ts| && Ends(ts, j, restrict)
    ensures NotCaptured(e, minPrec, restrict, ts, j)
    decreases e
  {
    match e
    case Grouping(x) => EndsNotCaptured(x, minPrec, restrict, ts, j);
    case Binary(op, _, r) => EndsNotCaptured(r, RightMin(op), restrict, ts, j);
    case Unary(p, x) => EndsNotCaptured(x, PrefixPower(p), restrict, ts, j);
    case _ =>
  }

  // ----- first tokens -----

  /** The first printed token begins an expression; where a call argument is expected it is
      neither an operator nor an exposed brace. */
  predicate Begins(t: Token, minPrec: nat, restrict: bool) {
    || t.IdentTok? || t.DigitsTok? || t.LiteralTok? || t == LeftParen || (t == LeftBrace && !restrict)
    || (minPrec < 91 && PrefixOf(t).Some?)
  }

  lemma {:induction false} PrintBegins(e: Expr, minPrec: nat, restrict: bool, spaced: bool)
    requires WellFormed(e)
    ensures Print(e, minPrec, restrict, spaced) != []
    ensures Begins(Print(e, minPrec, restrict, spaced)[0], minPrec, restrict)
    decreases e, 1
  {
    if e.Grouping? {
      PrintBegins(e.inner, minPrec, restrict, spaced);
    } else if !Wraps(e, minPrec, restrict) {
      RenderBegins(e, restrict, spaced, minPrec);
    }
  }

  lemma {:induction false} RenderBegins(e: Expr, restrict: bool, spaced: bool, minPrec: nat)
    requires WellFormed(e) && !e.Grouping? && !(restrict && e.Record?) && Prec(e) >= minPrec
    ensures Render(e, restrict && IsBraceSpine(e), spaced) != []
    ensures Begins(Render(e, restrict && IsBraceSpine(e), spaced)[0], minPrec, restrict)
    decreases e, 0
  {
    match e
    case Binary(op, l, r) => PrintBegins(l, LeftMin(op), restrict, spaced);
    case Access(x, _) => PrintBegins(x, 100, restrict, spaced);
    case Call(f, _) => PrintBegins(f, 91, restrict, spaced);
    case _ =>
  }

  lemma PlusNothing(o: Outcome)
    ensures o.(errs := [] + o.errs) == o
  {
  }

  // ----- one step of each parser function -----

  lemma ExprStep(ts: seq<Token>, i: nat, bp: nat, restrict: bool, x: Expr, k: nat)
    requires i <= |ts| && ParsePrimary(ts, i, restrict) == Outcome(Some(x), k, [])
    ensures k <= |ts| && ParseExpr(ts, i, bp, restrict) == ParseLoop(ts, k, x, bp, restrict)
  {
    hide ParsePrimary, ParseLoop, ParseArgs, ParseParenthetical, ParseEntries, ParseRecord, ParseFields;
    PlusNothing(ParseLoop(ts, k, x, bp, restrict));
  }

  lemma IdentStep(ts: seq<Token>, i: nat, restrict: bool)
    requires i < |ts| && ts[i].IdentTok?
    ensures ParsePrimary(ts, i, restrict) == Outcome(Some(Ident(ts[i].name)), i + 1, [])
  {
  }

  lemma NumberStep(ts: seq<Token>, i: nat, restrict: bool, e: Expr)
    requires e.Number? && Here(ts, i, Render(e, false, false)) && At(ts, i + 1) != Some(Dot)
    ensures ParsePrimary(ts, i, restrict) == Outcome(Some(e), i + 1, [])
  {
    First(ts, i, [DigitsTok(e.value)]);
  }

  lemma LiteralStep(ts: seq<Token>, i: nat, restrict: bool, e: Expr)
    requires e.Literal? && Here(ts, i, Render(e, false, false))
    ensures ParsePrimary(ts, i, restrict) == Outcome(Some(e), i + 1, [])
  {
    First(ts, i, [LiteralTok(e.code)]);
  }

  lemma FloatStep(ts: seq<Token>, i: nat, restrict: bool, e: Expr)
    requires e.Float? && Here(ts, i, Render(e, false, false))
    ensures ParsePrimary(ts, i, restrict) == Outcome(Some(e), i + 3, [])
  {
    assert ts[i..i + 3][0] == ts[i] && ts[i..i + 3][1] == ts[i + 1] && ts[i..i + 3][2] == ts[i + 2];
  }

  lemma PrefixStep(ts: seq<Token>, i: nat, restrict: bool, p: Prefix, x: Expr, k: nat)
    requires i < |ts| && PrefixOf(ts[i]) == Some(p)
    requires ParseExpr(ts, i + 1, PrefixPower(p), restrict) == Outcome(Some(x), k, [])
    ensures ParsePrimary(ts, i, restrict) == Outcome(Some(Unary(p, x)), k, [])
  {
    hide ParseExpr, ParseLoop, ParseArgs, ParseParenthetical, ParseEntries, ParseRecord, ParseFields;
  }

  lemma InfixStep(ts: seq<Token>, j: nat, lhs: Expr, bp: nat, restrict: bool, op: Op, rhs: Expr, k: nat)
    requires j < |ts| && ts[j] == OpToken(op) && bp <= LeftPower(op)
    requires ParseExpr(ts, j + 1, RightPower(op), restrict) == Outcome(Some(rhs), k, [])
    ensures k <= |ts| && ParseLoop(ts, j, lhs, bp, restrict) == ParseLoop(ts, k, Binary(op, lhs, rhs), bp, restrict)
  {
    hide ParseExpr, ParsePrimary, ParseArgs, ParseParenthetical, ParseEntries, ParseRecord, ParseFields;
    PlusNothing(ParseLoop(ts, k, Binary(op, lhs, rhs), bp, restrict));
  }

  lemma DotStep(ts: seq<Token>, j: nat, lhs: Expr, bp: nat, restrict: bool, a: Accessor)
    requires j + 1 < |ts| && ts[j] == Dot && ts[j + 1] == AccessorToken(a) && bp <= 100
    ensures ParseLoop(ts, j, lhs, bp, restrict) == ParseLoop(ts, j + 2, Access(lhs, a), bp, restrict)
  {
    hide ParseExpr, ParsePrimary, ParseArgs, ParseParenthetical, ParseEntries, ParseRecord, ParseFields;
  }

  lemma CallStep(ts: seq<Token>, j: nat, lhs: Expr, bp: nat, restrict: bool, args: seq<Expr>, k: nat)
    requires j < |ts| && CanStartExpression(ts[j]) && bp <= 90 && args != []
    requires ParseArgs(ts, j, restrict) == Entries(args, k, [])
    ensures k <= |ts| && ParseLoop(ts, j, lhs, bp, restrict) == ParseLoop(ts, k, Call(lhs, args), bp, restrict)
  {
    hide ParseExpr, ParsePrimary, ParseArgs, ParseParenthetical, ParseEntries, ParseRecord, ParseFields;
    PlusNothing(ParseLoop(ts, k, Call(lhs, args), bp, restrict));
  }

  lemma ArgStep(ts: seq<Token>, i: nat, restrict: bool, x: Expr, j: nat, rest: seq<Expr>, k: nat)
    requires i < |ts| && ts[i] != Minus
    requires ParseExpr(ts, i, CALL_RIGHT, restrict) == Outcome(Some(x), j, [])
    requires j <= |ts| && ParseArgs(ts, j, restrict) == Entries(rest, k, [])
    ensures ParseArgs(ts, i, restrict) == Entries([x] + rest, k, [])
  {
    hide ParseExpr, ParsePrimary, ParseLoop, ParseParenthetical, ParseEntries, ParseRecord, ParseFields;
  }

  /** What a parenthetical with these entries is. */
  function Parenthetical(items: seq<Expr>): Expr {
    if items == [] then EmptyTuple else if |items| == 1 then Grouping(items[0]) else Tuple(items, false)
  }

  lemma ParenStep(ts: seq<Token>, i: nat, items: seq<Expr>, k: nat, restrict: bool)
    requires i < |ts| && ts[i] == LeftParen && k < |ts| && ts[k] == RightParen
    requires ParseEntries(ts, SkipBreaks(ts, i + 1)) == Entries(items, k, [])
    ensures ParsePrimary(ts, i, restrict) == Outcome(Some(Parenthetical(items)), k + 1, [])
  {
    hide ParseExpr, ParseLoop, ParseArgs, ParseEntries, ParseRecord, ParseFields;
  }

  lemma NoEntry(ts: seq<Token>, i: nat)
    requires i < |ts| && ts[i] == RightParen
    ensures ParseEntries(ts, i) == Entries([], i, [])
  {
    assert ParsePrimary(ts, i, false) == Outcome(None, i, []);
    assert ParseExpr(ts, i, 0, false) == Outcome(None, i, []);
  }

  lemma EntryLast(ts: seq<Token>, i: nat, x: Expr, j: nat)
    requires i <= |ts| && ParseExpr(ts, i, 0, false) == Outcome(Some(x), j, [])
    requires At(ts, j) == Some(RightParen)
    ensures ParseEntries(ts, i) == Entries([x], j, [])
  {
    hide ParseExpr, ParsePrimary, ParseLoop, ParseArgs, ParseParenthetical, ParseRecord, ParseFields;
  }

  lemma EntryMore(ts: seq<Token>, i: nat, x: Expr, j: nat, rest: seq<Expr>, k: nat)
    requires i <= |ts| && ParseExpr(ts, i, 0, false) == Outcome(Some(x), j, [])
    requires j < |ts| && ts[j] == Comma && ParseEntries(ts, SkipBreaks(ts, j + 1)) == Entries(rest, k, [])
    ensures ParseEntries(ts, i) == Entries([x] + rest, k, [])
  {
    hide ParseExpr, ParsePrimary, ParseLoop, ParseArgs, ParseParenthetical, ParseRecord, ParseFields;
  }

  lemma RecordStep(ts: seq<Token>, i: nat, fields: seq<Field>, k: nat)
    requires i < |ts| && ts[i] == LeftBrace && k < |ts| && ts[k] == RightBrace
    requires ParseFields(ts, SkipBreaks(ts, i + 1)) == Fields(fields, k, [], true)
    ensures ParsePrimary(ts, i, false) == Outcome(Some(Record(fields, false)), k + 1, [])
  {
    hide ParseExpr, ParseLoop, ParseArgs, ParseParenthetical, ParseEntries, ParseFields;
  }

  /** The value of the field at `i`, written out or implied by its name. */
  ghost predicate FieldAt(ts: seq<Token>, i: nat, f: Field, j: nat) {
    && i < |ts| && ts[i] == IdentTok(f.name)
    && if At(ts, i + 1) == Some(Colon) then ParseExpr(ts, i + 2, 0, false) == Outcome(Some(f.value), j, [])
       else f.value == Ident(f.name) && j == i + 1
  }

  lemma FieldLast(ts: seq<Token>, i: nat, f: Field, j: nat)
    requires FieldAt(ts, i, f, j) && At(ts, j) == Some(RightBrace)
    ensures ParseFields(ts, i) == Fields([f], j, [], true)
  {
    hide ParseExpr, ParsePrimary, ParseLoop, ParseArgs, ParseParenthetical, ParseEntries, ParseRecord;
  }

  lemma FieldMore(ts: seq<Token>, i: nat, f: Field, j: nat, rest: seq<Field>, k: nat)
    requires FieldAt(ts, i, f, j)
    requires j < |ts| && ts[j] == Comma && ParseFields(ts, SkipBreaks(ts, j + 1)) == Fields(rest, k, [], true)
    ensures ParseFields(ts, i) == Fields([f] + rest, k, [], true)
  {
    hide ParseExpr, ParsePrimary, ParseLoop, ParseArgs, ParseParenthetical, ParseEntries, ParseRecord;
  }

  // ----- going on behind an operand -----

  /** The rest of the operator loop once a right operand has been parsed. */
  function Apply(ts: seq<Token>, right: Outcome, op: Op, lhs: Expr, bp: nat, restrict: bool): (o: Outcome)
    requires right.pos <= |ts|
    ensures o.pos <= |ts|
  {
    var rhs := Require(right);
    if rhs.expr == None then rhs else
      var o := ParseLoop(ts, rhs.pos, Binary(op, lhs, rhs.expr.value), bp, restrict);
      o.(errs := rhs.errs + o.errs)
  }

  /** Parsing goes on at `j` with `x` read so far; where `x` is open, first inside its right
      operand. */
  function Resume(ts: seq<Token>, j: nat, x: Expr, bp: nat, restrict: bool): (o: Outcome)
    requires j <= |ts|
    ensures o.pos <= |ts|
    decreases x
  {
    if Open(x) then Apply(ts, Resume(ts, j, x.right, RightPower(x.op), restrict), x.op, x.left, bp, restrict)
    else ParseLoop(ts, j, x, bp, restrict)
  }

  lemma LoopApplies(ts: seq<Token>, j: nat, lhs: Expr, bp: nat, restrict: bool, op: Op)
    requires j < |ts| && ts[j] == OpToken(op) && bp <= LeftPower(op)
    ensures ParseLoop(ts, j, lhs, bp, restrict) == Apply(ts, ParseExpr(ts, j + 1, RightPower(op), restrict), op, lhs, bp, restrict)
  {
    hide ParseExpr, ParsePrimary, ParseArgs, ParseParenthetical, ParseEntries, ParseRecord, ParseFields;
  }

  lemma AppliedToOne(ts: seq<Token>, x: Expr, k: nat, op: Op, lhs: Expr, bp: nat, restrict: bool)
    requires k <= |ts|
    ensures Apply(ts, Outcome(Some(x), k, []), op, lhs, bp, restrict) == ParseLoop(ts, k, Binary(op, lhs, x), bp, restrict)
  {
    hide ParseExpr, ParsePrimary, ParseLoop, ParseArgs, ParseParenthetical, ParseEntries, ParseRecord, ParseFields;
    PlusNothing(ParseLoop(ts, k, Binary(op, lhs, x), bp, restrict));
  }

  /** Before a token that no open operand takes, it goes on in the loop around them all. */
  lemma {:induction false} ResumeAtHalt(ts: seq<Token>, j: nat, x: Expr, bp: nat, restrict: bool)
    requires j <= |ts| && (Open(x) ==> Halts(ts, j, 20, restrict))
    ensures Resume(ts, j, x, bp, restrict) == ParseLoop(ts, j, x, bp, restrict)
    decreases x
  {
    hide ParseExpr, ParsePrimary, ParseLoop, ParseArgs, ParseParenthetical, ParseEntries, ParseRecord, ParseFields, Apply;
    if Open(x) {
      ResumeAtHalt(ts, j, x.right, RightPower(x.op), restrict);
      HaltsMeans(ts, j, RightPower(x.op), restrict, x.right);
      AppliedToOne(ts, x.right, j, x.op, x.left, bp, restrict);
    }
  }

  /** Before an `or`, the operand behind it is grafted on. */
  lemma {:induction false} ResumeAtOr(ts: seq<Token>, j: nat, x: Expr, bp: nat, restrict: bool, z: Expr, k: nat)
    requires OrAt(ts, j) && k <= |ts| && (!Open(x) ==> bp <= 20)
    requires ParseExpr(ts, j + 1, 21, restrict) == Resume(ts, k, z, 21, restrict)
    requires Halts(ts, k, 21, restrict)
    ensures Resume(ts, j, x, bp, restrict) == Resume(ts, k, Graft(x, z), bp, restrict)
    decreases x
  {
    hide ParseExpr, ParsePrimary, ParseLoop, ParseArgs, ParseParenthetical, ParseEntries, ParseRecord, ParseFields, Apply, Halts;
    GraftStaysOpen(x, z);
    if Open(x) {
      GraftStaysOpen(x.right, z);
      ResumeAtOr(ts, j, x.right, RightPower(x.op), restrict, z, k);
    } else {
      LoopApplies(ts, j, x, bp, restrict, LogicalOr);
      if !Open(z) {
        HaltsMeans(ts, k, 21, restrict, z);
        AppliedToOne(ts, z, k, LogicalOr, x, bp, restrict);
      }
    }
  }

  lemma TightResumes(e: Expr, minPrec: nat, restrict: bool, ts: seq<Token>, j: nat, bp: nat)
    requires minPrec >= 22 && j <= |ts|
    ensures Resume(ts, j, AsRead(e, minPrec, restrict), bp, restrict) == ParseLoop(ts, j, AsRead(e, minPrec, restrict), bp, restrict)
  {
    hide ParseExpr, ParsePrimary, ParseLoop, ParseArgs, ParseParenthetical, ParseEntries, ParseRecord, ParseFields, AsRead;
    TightNotOpen(e, minPrec, restrict);
  }

  // ----- the round trip -----

  /** Parsing at a power no tighter than `e` was printed for consumes all of `e`'s tokens and
      goes on behind them with what it read. */
  lemma {:induction false} PrintedParses(e: Expr, minPrec: nat, restrict: bool, spaced: bool, ts: seq<Token>, i: nat, bp: nat)
    requires WellFormed(e) && bp <= minPrec
    requires Here(ts, i, Print(e, minPrec, restrict, spaced))
    requires NotCaptured(e, minPrec, restrict, ts, i + |Print(e, minPrec, restrict, spaced)|)
    ensures ParseExpr(ts, i, bp, restrict) ==
            Resume(ts, i + |Print(e, minPrec, restrict, spaced)|, AsRead(e, minPrec, restrict), bp, restrict)
    decreases e, 6
  {
    hide ParseExpr, ParsePrimary, ParseLoop, ParseArgs, ParseParenthetical, ParseEntries, ParseRecord, ParseFields, Here, Halts, Continues, SkipBreaks, Prec, NoArgument, PrintArgs, PrintItems, PrintFields, PrintField, Render, AllAsRead, FieldsAsRead, BareAsRead, Begins, At, Opening, Closing, Separator, Ends;
    if e.Grouping? {
      PrintedParses(e.inner, minPrec, restrict, spaced, ts, i, bp);
    } else if Wraps(e, minPrec, restrict) {
      ParenthesizedParses(e, restrict, ts, i);
      ExprStep(ts, i, bp, restrict, Grouping(BareAsRead(e, false)), i + |Render(e, false, false)| + 2);
    } else {
      RenderedParses(e, restrict, spaced, ts, i, bp, minPrec);
    }
  }

  lemma {:induction false} ParenthesizedParses(e: Expr, restrict: bool, ts: seq<Token>, i: nat)
    requires WellFormed(e) && !e.Grouping?
    requires Here(ts, i, [LeftParen] + (Render(e, false, false) + [RightParen]))
    ensures ParsePrimary(ts, i, restrict) == Outcome(Some(Grouping(BareAsRead(e, false))), i + |Render(e, false, false)| + 2, [])
    decreases e, 5
  {
    hide ParseExpr, ParsePrimary, ParseLoop, ParseArgs, ParseParenthetical, ParseEntries, ParseRecord, ParseFields, Here, NotCaptured, Print, PrintArgs, PrintItems, PrintFields, PrintField, Render, AsRead, AllAsRead, FieldsAsRead, BareAsRead, WellFormed, Opening, Closing, Separator;
    var inside := Render(e, false, false);
    Split(ts, i, [LeftParen], inside + [RightParen]);
    First(ts, i, [LeftParen]);
    Split(ts, i + 1, inside, [RightParen]);
    var k := i + 1 + |inside|;
    First(ts, k, [RightParen]);
    RenderBegins(e, false, false, 0);
    First(ts, i + 1, inside);
    EndsNotCaptured(e, 0, false, ts, k);
    RenderedParses(e, false, false, ts, i + 1, 0, 0);
    HaltsAtMore(ts, k, 0, 20, false);
    ResumeAtHalt(ts, k, BareAsRead(e, false), 0, false);
    HaltsMeans(ts, k, 0, false, BareAsRead(e, false));
    EntryLast(ts, i + 1, BareAsRead(e, false), k);
    ParenStep(ts, i, [BareAsRead(e, false)], k, restrict);
  }

  /** The same for `e`'s own syntax, without parentheses around it. */
  lemma {:induction false} RenderedParses(e: Expr, restrict: bool, spaced: bool, ts: seq<Token>, i: nat, bp: nat, minPrec: nat)
    requires WellFormed(e) && !e.Grouping? && !Wraps(e, minPrec, restrict) && bp <= minPrec
    requires Here(ts, i, Render(e, restrict && IsBraceSpine(e), spaced))
    requires NotCaptured(e, minPrec, restrict, ts, i + |Render(e, restrict && IsBraceSpine(e), spaced)|)
    ensures ParseExpr(ts, i, bp, restrict) ==
            Resume(ts, i + |Render(e, restrict && IsBraceSpine(e), spaced)|, BareAsRead(e, restrict && IsBraceSpine(e)), bp, restrict)
    decreases e, 4
  {
    hide ParseExpr, ParsePrimary, ParseLoop, ParseArgs, ParseParenthetical, ParseEntries, ParseRecord, ParseFields, Here, Halts, Continues, NoArgument, Print, PrintArgs, PrintItems, PrintFields, PrintField, AsRead, AllAsRead, FieldsAsRead, Opening, Closing, Separator, Ends;
    var inner := restrict && IsBraceSpine(e);
    var k := i + |Render(e, inner, spaced)|;
    RenderBegins(e, restrict, spaced, minPrec);
    First(ts, i, Render(e, inner, spaced));
    match e
    case Binary(op, l, r) => BinaryParses(op, l, r, restrict, spaced, ts, i, bp);
    case Unary(p, x) => UnaryParses(p, x, restrict, spaced, ts, i, bp);
    case Access(x, a) => AccessParses(x, a, restrict, spaced, ts, i, bp);
    case Call(f, xs) => CallParses(f, xs, restrict, spaced, ts, i, bp);
    case Tuple(xs, wrapped) =>
      TupleParses(xs, wrapped, restrict, ts, i);
      ExprStep(ts, i, bp, restrict, BareAsRead(e, inner), k);
    case Record(fs, wrapped) =>
      RecordParses(fs, wrapped, ts, i);
      ExprStep(ts, i, bp, restrict, BareAsRead(e, inner), k);
    case Ident(_) | Number(_) | Float(_, _) | Literal(_) | EmptyTuple =>
      AtomParses(e, inner, spaced, ts, i, restrict);
      ExprStep(ts, i, bp, restrict, e, k);
  }

  lemma AtomParses(e: Expr, inner: bool, spaced: bool, ts: seq<Token>, i: nat, restrict: bool)
    requires e.Ident? || e.Number? || e.Float? || e.Literal? || e.EmptyTuple?
    requires Here(ts, i, Render(e, inner, spaced)) && (e.Number? ==> At(ts, i + 1) != Some(Dot))
    ensures ParsePrimary(ts, i, restrict) == Outcome(Some(e), i + |Render(e, inner, spaced)|, [])
  {
    hide ParseExpr, ParsePrimary, ParseLoop, ParseArgs, ParseParenthetical, ParseEntries, ParseRecord, ParseFields, Here;
    match e
    case Ident(n) =>
      First(ts, i, [IdentTok(n)]);
      IdentStep(ts, i, restrict);
    case Number(_) => NumberStep(ts, i, restrict, e);
    case Float(_, _) => FloatStep(ts, i, restrict, e);
    case Literal(_) => LiteralStep(ts, i, restrict, e);
    case EmptyTuple =>
      assert [LeftParen] + [RightParen] == [LeftParen, RightParen];
      Split(ts, i, [LeftParen], [RightParen]);
      First(ts, i, [LeftParen]);
      First(ts, i + 1, [RightParen]);
      NoEntry(ts, i + 1);
      ParenStep(ts, i, [], i + 1, restrict);
  }

  lemma {:induction false} BinaryParses(op: Op, l: Expr, r: Expr, restrict: bool, spaced: bool, ts: seq<Token>, i: nat, bp: nat)
    requires var e := Binary(op, l, r); WellFormed(e) && bp <= OpPrec(op)
    requires Here(ts, i, Render(Binary(op, l, r), restrict, spaced))
    requires var j := i + |Render(Binary(op, l, r), restrict, spaced)|;
             && (Halts(ts, j, RightPower(op), restrict) || (op == NullCoalescing && OrAt(ts, j)))
             && NotCaptured(r, RightMin(op), restrict, ts, j)
    ensures ParseExpr(ts, i, bp, restrict) ==
            Resume(ts, i + |Render(Binary(op, l, r), restrict, spaced)|, BareAsRead(Binary(op, l, r), restrict), bp, restrict)
    decreases Binary(op, l, r), 0
  {
    hide ParseExpr, ParsePrimary, ParseLoop, ParseArgs, ParseParenthetical, ParseEntries, ParseRecord, ParseFields, Here, Halts, Continues, SkipBreaks, Prec, Wraps, NotCaptured, NoArgument, Print, PrintArgs, PrintItems, PrintFields, PrintField, AsRead, AllAsRead, FieldsAsRead, Begins, At, Opening, Closing, Separator, Ends, Apply, Resume, Open, Graft;
    var left, right := Print(l, LeftMin(op), restrict, spaced), Print(r, RightMin(op), restrict, true);
    Split(ts, i, left, [OpToken(op)] + right);
    Split(ts, i + |left|, [OpToken(op)], right);
    var j, k := i + |left|, i + |left| + 1 + |right|;
    First(ts, j, [OpToken(op)]);
    OperatorNotCaptured(l, LeftMin(op), restrict, ts, j, op);
    PrintedParses(l, LeftMin(op), restrict, spaced, ts, i, bp);
    PrintedParses(r, RightMin(op), restrict, true, ts, j + 1, RightPower(op));
    var l', r' := AsRead(l, LeftMin(op), restrict), AsRead(r, RightMin(op), restrict);
    if op == LogicalOr {
      ResumeAtOr(ts, j, l', bp, restrict, r', k);
    } else {
      BeforeOperator(l, op, restrict, ts, j, bp);
      LoopApplies(ts, j, l', bp, restrict, op);
      if op == NullCoalescing { BehindCoalesce(l', r', restrict, ts, k, bp); } else { BehindOperator(op, l', r, restrict, ts, k, bp); }
    }
  }

  /** No open operand on the left takes an operator other than `or`. */
  lemma BeforeOperator(l: Expr, op: Op, restrict: bool, ts: seq<Token>, j: nat, bp: nat)
    requires op != LogicalOr && j < |ts| && ts[j] == OpToken(op)
    ensures var l' := AsRead(l, LeftMin(op), restrict); Resume(ts, j, l', bp, restrict) == ParseLoop(ts, j, l', bp, restrict)
  {
    hide ParseExpr, ParsePrimary, ParseLoop, ParseArgs, ParseParenthetical, ParseEntries, ParseRecord, ParseFields, AsRead, Resume, Open;
    if LeftMin(op) >= 22 { TightNotOpen(l, LeftMin(op), restrict); }
    ResumeAtHalt(ts, j, AsRead(l, LeftMin(op), restrict), bp, restrict);
  }

  /** Behind a `??` the parser is still inside its right operand. */
  lemma BehindCoalesce(l': Expr, r': Expr, restrict: bool, ts: seq<Token>, k: nat, bp: nat)
    requires k <= |ts|
    ensures Apply(ts, Resume(ts, k, r', 20, restrict), NullCoalescing, l', bp, restrict)
            == Resume(ts, k, Binary(NullCoalescing, l', r'), bp, restrict)
  {
    hide ParseLoop, Apply;
    assert Open(Binary(NullCoalescing, l', r'));
  }

  /** Behind any other operator's right operand the parser is back in the loop. */
  lemma BehindOperator(op: Op, l': Expr, r: Expr, restrict: bool, ts: seq<Token>, k: nat, bp: nat)
    requires op != LogicalOr && op != NullCoalescing && k <= |ts| && Halts(ts, k, RightPower(op), restrict)
    ensures var r' := AsRead(r, RightMin(op), restrict);
            Apply(ts, Resume(ts, k, r', RightPower(op), restrict), op, l', bp, restrict) == Resume(ts, k, Binary(op, l', r'), bp, restrict)
  {
    hide ParseExpr, ParsePrimary, ParseLoop, ParseArgs, ParseParenthetical, ParseEntries, ParseRecord, ParseFields, AsRead, Apply, Halts, Continues, Resume;
    var r' := AsRead(r, RightMin(op), restrict);
    if RightPower(op) <= 20 { HaltsAtMore(ts, k, RightPower(op), 20, restrict); } else { TightNotOpen(r, RightMin(op), restrict); }
    ResumeAtHalt(ts, k, r', RightPower(op), restrict);
    HaltsMeans(ts, k, RightPower(op), restrict, r');
    AppliedToOne(ts, r', k, op, l', bp, restrict);
    ResumeAtHalt(ts, k, Binary(op, l', r'), bp, restrict);
  }

  lemma {:induction false} UnaryParses(p: Prefix, x: Expr, restrict: bool, spaced: bool, ts: seq<Token>, i: nat, bp: nat)
    requires WellFormed(x)
    requires Here(ts, i, Render(Unary(p, x), restrict, spaced))
    requires var j := i + |Render(Unary(p, x), restrict, spaced)|;
             Halts(ts, j, PrefixPower(p), restrict) && NotCaptured(x, PrefixPower(p), restrict, ts, j)
    ensures ParseExpr(ts, i, bp, restrict) ==
            ParseLoop(ts, i + |Render(Unary(p, x), restrict, spaced)|, BareAsRead(Unary(p, x), restrict), bp, restrict)
    decreases Unary(p, x), 0
  {
    hide ParseExpr, ParsePrimary, ParseLoop, ParseArgs, ParseParenthetical, ParseEntries, ParseRecord, ParseFields, Here, Halts, Continues, SkipBreaks, Prec, Wraps, NotCaptured, NoArgument, Print, PrintArgs, PrintItems, PrintFields, PrintField, AsRead, AllAsRead, FieldsAsRead, WellFormed, Begins, At, Opening, Closing, Separator, Ends;
    var operand := Print(x, PrefixPower(p), restrict, false);
    Split(ts, i, [PrefixToken(p, spaced)], operand);
    First(ts, i, [PrefixToken(p, spaced)]);
    PrintedParses(x, PrefixPower(p), restrict, false, ts, i + 1, PrefixPower(p));
    TightResumes(x, PrefixPower(p), restrict, ts, i + 1 + |operand|, PrefixPower(p));
    HaltsMeans(ts, i + 1 + |operand|, PrefixPower(p), restrict, AsRead(x, PrefixPower(p), restrict));
    PrefixStep(ts, i, restrict, p, AsRead(x, PrefixPower(p), restrict), i + 1 + |operand|);
    ExprStep(ts, i, bp, restrict, BareAsRead(Unary(p, x), restrict), i + 1 + |operand|);
  }

  lemma {:induction false} AccessParses(x: Expr, a: Accessor, restrict: bool, spaced: bool, ts: seq<Token>, i: nat, bp: nat)
    requires WellFormed(x) && !IsNumber(x) && bp <= 100
    requires Here(ts, i, Render(Access(x, a), restrict, spaced))
    ensures ParseExpr(ts, i, bp, restrict) ==
            ParseLoop(ts, i + |Render(Access(x, a), restrict, spaced)|, BareAsRead(Access(x, a), restrict), bp, restrict)
    decreases Access(x, a), 0
  {
    hide ParseExpr, ParsePrimary, ParseLoop, ParseArgs, ParseParenthetical, ParseEntries, ParseRecord, ParseFields, Halts, Continues, SkipBreaks, Prec, Wraps, NotCaptured, NoArgument, Print, PrintArgs, PrintItems, PrintFields, PrintField, AsRead, AllAsRead, FieldsAsRead, WellFormed, Begins, At, Opening, Closing, Separator, Ends;
    var receiver := Print(x, 100, restrict, spaced);
    Split(ts, i, receiver, [Dot, AccessorToken(a)]);
    var j := i + |receiver|;
    assert ts[j..j + 2][0] == ts[j] && ts[j..j + 2][1] == ts[j + 1];
    TightNotCaptured(x, 100, restrict, ts, j);
    PrintedParses(x, 100, restrict, spaced, ts, i, bp);
    TightResumes(x, 100, restrict, ts, j, bp);
    DotStep(ts, j, AsRead(x, 100, restrict), bp, restrict, a);
  }

  lemma {:induction false} CallParses(f: Expr, xs: seq<Expr>, restrict: bool, spaced: bool, ts: seq<Token>, i: nat, bp: nat)
    requires var e := Call(f, xs); WellFormed(e) && bp <= 90
    requires Here(ts, i, Render(Call(f, xs), restrict, spaced))
    requires var j := i + |Render(Call(f, xs), restrict, spaced)|;
             Halts(ts, j, CALL_RIGHT, restrict) && NoArgument(ts, j, restrict)
    ensures ParseExpr(ts, i, bp, restrict) ==
            ParseLoop(ts, i + |Render(Call(f, xs), restrict, spaced)|, BareAsRead(Call(f, xs), restrict), bp, restrict)
    decreases Call(f, xs), 0
  {
    hide ParseExpr, ParsePrimary, ParseLoop, ParseArgs, ParseParenthetical, ParseEntries, ParseRecord, ParseFields, Here, Halts, Continues, SkipBreaks, Prec, Wraps, NotCaptured, NoArgument, Print, PrintItems, PrintFields, PrintField, AsRead, AllAsRead, FieldsAsRead, Opening, Closing, Separator, Ends;
    var head, tail := Print(f, 91, restrict, spaced), PrintArgs(xs, restrict);
    Split(ts, i, head, tail);
    var j := i + |head|;
    PrintBegins(xs[0], 91, restrict, true);
    First(ts, j, tail);
    assert At(ts, j) != Some(Dot);
    TightNotCaptured(f, 91, restrict, ts, j);
    PrintedParses(f, 91, restrict, spaced, ts, i, bp);
    TightResumes(f, 91, restrict, ts, j, bp);
    ArgsParse(Call(f, xs), xs, restrict, ts, j);
    CallStep(ts, j, AsRead(f, 91, restrict), bp, restrict, AllAsRead(xs, 91, restrict), j + |tail|);
  }

  lemma {:induction false} ArgsParse(parent: Expr, xs: seq<Expr>, restrict: bool, ts: seq<Token>, i: nat)
    requires forall x :: x in xs ==> x < parent && WellFormed(x)
    requires Here(ts, i, PrintArgs(xs, restrict))
    requires var j := i + |PrintArgs(xs, restrict)|; Halts(ts, j, CALL_RIGHT, restrict) && NoArgument(ts, j, restrict)
    ensures ParseArgs(ts, i, restrict) == Entries(AllAsRead(xs, 91, restrict), i + |PrintArgs(xs, restrict)|, [])
    decreases parent, 0, |xs|
  {
    hide ParseExpr, ParsePrimary, ParseLoop, ParseArgs, ParseParenthetical, ParseEntries, ParseRecord, ParseFields, Here, SkipBreaks, Prec, Wraps, NotCaptured, Print, PrintItems, PrintFields, PrintField, Render, AsRead, FieldsAsRead, BareAsRead, WellFormed, Opening, Closing, Separator, Ends;
    if xs != [] { assert xs[0] in xs && forall x :: x in xs[1..] ==> x in xs; }
    if xs == [] {
      NoArgumentMeans(ts, i, restrict);
    } else {
      var arg, rest := Print(xs[0], 91, restrict, true), PrintArgs(xs[1..], restrict);
      Split(ts, i, arg, rest);
      PrintBegins(xs[0], 91, restrict, true);
      First(ts, i, arg);
      var j := i + |arg|;
      if |xs| > 1 {
        PrintBegins(xs[1], 91, restrict, true);
        First(ts, j, rest);
      } else {
        assert rest == [];
      }
      assert Halts(ts, j, CALL_RIGHT, restrict);
      TightNotCaptured(xs[0], 91, restrict, ts, j);
      PrintedParses(xs[0], 91, restrict, true, ts, i, 91);
      TightResumes(xs[0], 91, restrict, ts, j, 91);
      HaltsMeans(ts, j, CALL_RIGHT, restrict, AsRead(xs[0], 91, restrict));
      ArgsParse(parent, xs[1..], restrict, ts, j);
      ArgStep(ts, i, restrict, AsRead(xs[0], 91, restrict), j, AllAsRead(xs[1..], 91, restrict), j + |rest|);
    }
  }

  // ----- collections -----

  /** Skipping the layout's line break reaches the next item. */
  lemma SkipOpening(ts: seq<Token>, i: nat, wrapped: bool)
    requires Here(ts, i, Opening(wrapped))
    requires var j := i + |Opening(wrapped)|; j < |ts| && ts[j] != Break
    ensures SkipBreaks(ts, i) == i + |Opening(wrapped)|
  {
    if wrapped { First(ts, i, [Break]); }
  }

  /** The trailing comma and line break of a wrapped collection, then its closing token. */
  lemma ClosingTokens(ts: seq<Token>, i: nat, wrapped: bool)
    requires Here(ts, i, Closing(wrapped)) && i + |Closing(wrapped)| < |ts|
    requires ts[i + |Closing(wrapped)|] != Break
    ensures wrapped ==> ts[i] == Comma && SkipBreaks(ts, i + 1) == i + 2
  {
    if wrapped {
      Split(ts, i, [Comma], [Break]);
      First(ts, i, [Comma]);
      First(ts, i + 1, [Break]);
    }
  }

  lemma ItemsBegin(xs: seq<Expr>, wrapped: bool, spaced: bool)
    requires xs != [] && WellFormed(xs[0])
    ensures PrintItems(xs, wrapped, spaced) != [] && PrintItems(xs, wrapped, spaced)[0] != Break
  {
    PrintBegins(xs[0], 0, false, spaced);
  }

  /** A comma or a closing token ends an expression. */
  lemma EndsHere(ts: seq<Token>, j: nat)
    requires j < |ts| && ts[j] in {Comma, RightParen, RightBrace}
    ensures Ends(ts, j, false) && Halts(ts, j, 0, false)
  {
  }

  lemma {:induction false} TupleParses(xs: seq<Expr>, wrapped: bool, restrict: bool, ts: seq<Token>, i: nat)
    requires var e := Tuple(xs, wrapped); WellFormed(e) && Here(ts, i, Render(e, false, false))
    ensures ParsePrimary(ts, i, restrict) ==
            Outcome(Some(BareAsRead(Tuple(xs, wrapped), false)), i + |Render(Tuple(xs, wrapped), false, false)|, [])
    decreases Tuple(xs, wrapped), 2
  {
    hide ParseExpr, ParsePrimary, ParseLoop, ParseArgs, ParseParenthetical, ParseEntries, ParseRecord, ParseFields, Here, Halts, Continues, SkipBreaks, Prec, Wraps, NotCaptured, NoArgument, Print, PrintArgs, PrintItems, PrintFields, PrintField, AsRead, AllAsRead, FieldsAsRead, At, Closing, Separator, Ends;
    var items := PrintItems(xs, wrapped, wrapped);
    var tail := Opening(wrapped) + (items + [RightParen]);
    Split(ts, i, [LeftParen], tail);
    First(ts, i, [LeftParen]);
    Split(ts, i + 1, Opening(wrapped), items + [RightParen]);
    var j := i + 1 + |Opening(wrapped)|;
    Split(ts, j, items, [RightParen]);
    First(ts, j + |items|, [RightParen]);
    ItemsBegin(xs, wrapped, wrapped);
    First(ts, j, items);
    SkipOpening(ts, i + 1, wrapped);
    ItemsParse(Tuple(xs, wrapped), xs, wrapped, wrapped, ts, j);
    ParenStep(ts, i, AllAsRead(xs, 0, false), j + |items|, restrict);
  }

  lemma {:induction false} ItemsParse(parent: Expr, xs: seq<Expr>, wrapped: bool, spaced: bool, ts: seq<Token>, i: nat)
    requires xs != [] && forall x :: x in xs ==> x < parent && WellFormed(x)
    requires Here(ts, i, PrintItems(xs, wrapped, spaced))
    requires var j := i + |PrintItems(xs, wrapped, spaced)|; j < |ts| && ts[j] == RightParen
    ensures ParseEntries(ts, i) == Entries(AllAsRead(xs, 0, false), i + |PrintItems(xs, wrapped, spaced)|, [])
    decreases parent, 1, |xs|
  {
    hide ParseExpr, ParsePrimary, ParseLoop, ParseArgs, ParseParenthetical, ParseEntries, ParseRecord, ParseFields, Here, Halts, Continues, SkipBreaks, Prec, Wraps, NotCaptured, NoArgument, Print, PrintArgs, PrintItems, PrintFields, PrintField, Render, AsRead, AllAsRead, FieldsAsRead, BareAsRead, WellFormed, Begins, At, Opening, Closing, Separator, Ends;
    assert xs[0] in xs && forall x :: x in xs[1..] ==> x in xs;
    if |xs| > 1 {
      ItemsMore(xs, wrapped, spaced);
      var item, more, rest := Print(xs[0], 0, false, spaced), Separator(true, wrapped), PrintItems(xs[1..], wrapped, true);
      Split(ts, i, item, more + rest);
      Split(ts, i + |item|, more, rest);
      ItemsBegin(xs[1..], wrapped, true);
      First(ts, i + |item| + |more|, rest);
      ItemsParse(parent, xs[1..], wrapped, true, ts, i + |item| + |more|);
      ItemThenMore(parent, xs[0], spaced, wrapped, ts, i, AllAsRead(xs[1..], 0, false), i + |PrintItems(xs, wrapped, spaced)|);
    } else {
      ItemsOne(xs, wrapped, spaced);
      Split(ts, i, Print(xs[0], 0, false, spaced), Closing(wrapped));
      LastItem(parent, xs[0], spaced, wrapped, ts, i);
    }
  }

  lemma ItemsMore(xs: seq<Expr>, wrapped: bool, spaced: bool)
    requires |xs| > 1
    ensures PrintItems(xs, wrapped, spaced) ==
            Print(xs[0], 0, false, spaced) + (Separator(true, wrapped) + PrintItems(xs[1..], wrapped, true))
    ensures AllAsRead(xs, 0, false) == [AsRead(xs[0], 0, false)] + AllAsRead(xs[1..], 0, false)
  {
    hide Print, AsRead;
  }

  lemma ItemsOne(xs: seq<Expr>, wrapped: bool, spaced: bool)
    requires |xs| == 1
    ensures PrintItems(xs, wrapped, spaced) == Print(xs[0], 0, false, spaced) + Closing(wrapped)
    ensures AllAsRead(xs, 0, false) == [AsRead(xs[0], 0, false)]
  {
    hide Print, AsRead;
    assert xs[1..] == [];
    assert Separator(false, wrapped) + PrintItems(xs[1..], wrapped, true) == Closing(wrapped);
  }

  lemma {:induction false} ItemThenMore(parent: Expr, x: Expr, spaced: bool, wrapped: bool, ts: seq<Token>, i: nat, rest: seq<Expr>, k: nat)
    requires x < parent && WellFormed(x) && Here(ts, i, Print(x, 0, false, spaced))
    requires var j := i + |Print(x, 0, false, spaced)|; Here(ts, j, Separator(true, wrapped))
    requires var j := i + |Print(x, 0, false, spaced)| + |Separator(true, wrapped)|;
             j < |ts| && ts[j] != Break && ParseEntries(ts, j) == Entries(rest, k, [])
    ensures ParseEntries(ts, i) == Entries([AsRead(x, 0, false)] + rest, k, [])
    decreases parent, 0, 1
  {
    hide ParseExpr, ParsePrimary, ParseLoop, ParseArgs, ParseParenthetical, ParseEntries, ParseRecord, ParseFields, Here, Halts, Continues, SkipBreaks, Prec, Wraps, NotCaptured, NoArgument, Print, PrintArgs, PrintItems, PrintFields, PrintField, Render, AsRead, AllAsRead, FieldsAsRead, BareAsRead, WellFormed, Begins, Opening, Closing, Ends;
    var j := i + |Print(x, 0, false, spaced)|;
    Split(ts, j, [Comma], Opening(wrapped));
    First(ts, j, [Comma]);
    SkipOpening(ts, j + 1, wrapped);
    ItemParses(parent, x, spaced, ts, i);
    EntryMore(ts, i, AsRead(x, 0, false), j, rest, k);
  }

  lemma {:induction false} LastItem(parent: Expr, x: Expr, spaced: bool, wrapped: bool, ts: seq<Token>, i: nat)
    requires x < parent && WellFormed(x) && Here(ts, i, Print(x, 0, false, spaced))
    requires var j := i + |Print(x, 0, false, spaced)|; Here(ts, j, Closing(wrapped))
    requires var k := i + |Print(x, 0, false, spaced)| + |Closing(wrapped)|; k < |ts| && ts[k] == RightParen
    ensures ParseEntries(ts, i) == Entries([AsRead(x, 0, false)], i + |Print(x, 0, false, spaced)| + |Closing(wrapped)|, [])
    decreases parent, 0, 1
  {
    hide ParseExpr, ParsePrimary, ParseLoop, ParseArgs, ParseParenthetical, ParseEntries, ParseRecord, ParseFields, Here, Halts, Continues, SkipBreaks, Prec, Wraps, NotCaptured, NoArgument, Print, PrintArgs, PrintItems, PrintFields, PrintField, Render, AsRead, AllAsRead, FieldsAsRead, BareAsRead, WellFormed, Begins, Opening, Separator, Ends;
    var j := i + |Print(x, 0, false, spaced)|;
    ClosingTokens(ts, j, wrapped);
    ItemParses(parent, x, spaced, ts, i);
    if wrapped {
      NoEntry(ts, j + 2);
      EntryMore(ts, i, AsRead(x, 0, false), j, [], j + 2);
    } else {
      EntryLast(ts, i, AsRead(x, 0, false), j);
    }
  }

  lemma {:induction false} ItemParses(parent: Expr, x: Expr, spaced: bool, ts: seq<Token>, i: nat)
    requires x < parent && WellFormed(x) && Here(ts, i, Print(x, 0, false, spaced))
    requires var j := i + |Print(x, 0, false, spaced)|; j < |ts| && ts[j] in {Comma, RightParen, RightBrace}
    ensures ParseExpr(ts, i, 0, false) == Outcome(Some(AsRead(x, 0, false)), i + |Print(x, 0, false, spaced)|, [])
    decreases parent, 0, 0
  {
    hide ParseExpr, ParsePrimary, ParseLoop, ParseArgs, ParseParenthetical, ParseEntries, ParseRecord, ParseFields, Here, Halts, Continues, SkipBreaks, Prec, Wraps, NotCaptured, NoArgument, Print, PrintArgs, PrintItems, PrintFields, PrintField, Render, AsRead, AllAsRead, FieldsAsRead, BareAsRead, WellFormed, Begins, Opening, Closing, Separator, Ends;
    var j := i + |Print(x, 0, false, spaced)|;
    EndsHere(ts, j);
    EndsNotCaptured(x, 0, false, ts, j);
    PrintedParses(x, 0, false, spaced, ts, i, 0);
    HaltsAtMore(ts, j, 0, 20, false);
    ResumeAtHalt(ts, j, AsRead(x, 0, false), 0, false);
    HaltsMeans(ts, j, 0, false, AsRead(x, 0, false));
  }

  lemma {:induction false} RecordParses(fs: seq<Field>, wrapped: bool, ts: seq<Token>, i: nat)
    requires var e := Record(fs, wrapped); WellFormed(e) && Here(ts, i, Render(e, false, false))
    ensures ParsePrimary(ts, i, false) ==
            Outcome(Some(BareAsRead(Record(fs, wrapped), false)), i + |Render(Record(fs, wrapped), false, false)|, [])
    decreases Record(fs, wrapped), 2
  {
    hide ParseExpr, ParsePrimary, ParseLoop, ParseArgs, ParseParenthetical, ParseEntries, ParseRecord, ParseFields, Here, Halts, Continues, Prec, Wraps, NotCaptured, NoArgument, Print, PrintArgs, PrintItems, PrintFields, PrintField, AsRead, AllAsRead, FieldsAsRead, Begins, Closing, Separator, Ends;
    if fs == [] {
      assert [LeftBrace] + [RightBrace] == [LeftBrace, RightBrace];
      Split(ts, i, [LeftBrace], [RightBrace]);
      First(ts, i, [LeftBrace]);
      First(ts, i + 1, [RightBrace]);
      NoField(ts, i + 1);
      RecordStep(ts, i, [], i + 1);
    } else {
      var fields := PrintFields(fs, wrapped);
      Split(ts, i, [LeftBrace], Opening(wrapped) + (fields + [RightBrace]));
      First(ts, i, [LeftBrace]);
      Split(ts, i + 1, Opening(wrapped), fields + [RightBrace]);
      var j := i + 1 + |Opening(wrapped)|;
      Split(ts, j, fields, [RightBrace]);
      First(ts, j + |fields|, [RightBrace]);
      FieldsBegin(fs, wrapped);
      First(ts, j, fields);
      SkipOpening(ts, i + 1, wrapped);
      FieldsParse(Record(fs, wrapped), fs, wrapped, ts, j);
      RecordStep(ts, i, FieldsAsRead(fs), j + |fields|);
    }
  }

  lemma FieldsBegin(fs: seq<Field>, wrapped: bool)
    requires fs != []
    ensures PrintFields(fs, wrapped) != [] && PrintFields(fs, wrapped)[0] == IdentTok(fs[0].name)
  {
    assert PrintField(fs[0])[0] == IdentTok(fs[0].name);
  }

  lemma NoField(ts: seq<Token>, i: nat)
    requires i < |ts| && ts[i] == RightBrace
    ensures ParseFields(ts, i) == Fields([], i, [], true)
  {
  }

  lemma {:induction false} FieldsParse(parent: Expr, fs: seq<Field>, wrapped: bool, ts: seq<Token>, i: nat)
    requires fs != [] && forall f :: f in fs ==> f.value < parent && WellFormed(f.value)
    requires Here(ts, i, PrintFields(fs, wrapped))
    requires var j := i + |PrintFields(fs, wrapped)|; j < |ts| && ts[j] == RightBrace
    ensures ParseFields(ts, i) == Fields(FieldsAsRead(fs), i + |PrintFields(fs, wrapped)|, [], true)
    decreases parent, 1, |fs|
  {
    hide ParseExpr, ParsePrimary, ParseLoop, ParseArgs, ParseParenthetical, ParseEntries, ParseRecord, ParseFields, Here, Halts, Continues, SkipBreaks, Prec, Wraps, NotCaptured, NoArgument, Print, PrintArgs, PrintItems, PrintFields, PrintField, Render, AsRead, AllAsRead, FieldsAsRead, BareAsRead, WellFormed, Begins, At, Opening, Closing, Separator, Ends;
    assert fs[0] in fs && forall f :: f in fs[1..] ==> f in fs;
    if |fs| > 1 {
      FieldsMore(fs, wrapped);
      var field, more, rest := PrintField(fs[0]), Separator(true, wrapped), PrintFields(fs[1..], wrapped);
      Split(ts, i, field, more + rest);
      Split(ts, i + |field|, more, rest);
      FieldsBegin(fs[1..], wrapped);
      First(ts, i + |field| + |more|, rest);
      FieldsParse(parent, fs[1..], wrapped, ts, i + |field| + |more|);
      FieldThenMore(parent, fs[0], wrapped, ts, i, FieldsAsRead(fs[1..]), i + |PrintFields(fs, wrapped)|);
    } else {
      FieldsOne(fs, wrapped);
      Split(ts, i, PrintField(fs[0]), Closing(wrapped));
      LastField(parent, fs[0], wrapped, ts, i);
    }
  }

  lemma FieldsMore(fs: seq<Field>, wrapped: bool)
    requires |fs| > 1
    ensures PrintFields(fs, wrapped) == PrintField(fs[0]) + (Separator(true, wrapped) + PrintFields(fs[1..], wrapped))
    ensures FieldsAsRead(fs) == [FieldAsRead(fs[0])] + FieldsAsRead(fs[1..])
  {
    hide PrintField, AsRead;
  }

  lemma FieldsOne(fs: seq<Field>, wrapped: bool)
    requires |fs| == 1
    ensures PrintFields(fs, wrapped) == PrintField(fs[0]) + Closing(wrapped)
    ensures FieldsAsRead(fs) == [FieldAsRead(fs[0])]
  {
    hide PrintField, AsRead;
    assert fs[1..] == [];
    assert Separator(false, wrapped) + PrintFields(fs[1..], wrapped) == Closing(wrapped);
  }

  ghost function FieldAsRead(f: Field): Field { Field(f.name, AsRead(f.value, 0, false)) }

  lemma {:induction false} FieldThenMore(parent: Expr, f: Field, wrapped: bool, ts: seq<Token>, i: nat, rest: seq<Field>, k: nat)
    requires f.value < parent && WellFormed(f.value) && Here(ts, i, PrintField(f))
    requires var j := i + |PrintField(f)|; Here(ts, j, Separator(true, wrapped))
    requires var j := i + |PrintField(f)| + |Separator(true, wrapped)|;
             j < |ts| && ts[j] != Break && ParseFields(ts, j) == Fields(rest, k, [], true)
    ensures ParseFields(ts, i) == Fields([FieldAsRead(f)] + rest, k, [], true)
    decreases parent, 0, 2
  {
    hide ParseExpr, ParsePrimary, ParseLoop, ParseArgs, ParseParenthetical, ParseEntries, ParseRecord, ParseFields, Here, Halts, Continues, SkipBreaks, Prec, Wraps, NotCaptured, NoArgument, Print, PrintArgs, PrintItems, PrintFields, PrintField, Render, AsRead, AllAsRead, FieldsAsRead, BareAsRead, WellFormed, Begins, Opening, Closing, Ends;
    var j := i + |PrintField(f)|;
    Split(ts, j, [Comma], Opening(wrapped));
    First(ts, j, [Comma]);
    SkipOpening(ts, j + 1, wrapped);
    FieldParses(parent, f, ts, i);
    FieldMore(ts, i, FieldAsRead(f), j, rest, k);
  }

  lemma {:induction false} LastField(parent: Expr, f: Field, wrapped: bool, ts: seq<Token>, i: nat)
    requires f.value < parent && WellFormed(f.value) && Here(ts, i, PrintField(f))
    requires var j := i + |PrintField(f)|; Here(ts, j, Closing(wrapped))
    requires var k := i + |PrintField(f)| + |Closing(wrapped)|; k < |ts| && ts[k] == RightBrace
    ensures ParseFields(ts, i) == Fields([FieldAsRead(f)], i + |PrintField(f)| + |Closing(wrapped)|, [], true)
    decreases parent, 0, 2
  {
    hide ParseExpr, ParsePrimary, ParseLoop, ParseArgs, ParseParenthetical, ParseEntries, ParseRecord, ParseFields, Here, Halts, Continues, SkipBreaks, Prec, Wraps, NotCaptured, NoArgument, Print, PrintArgs, PrintItems, PrintFields, PrintField, Render, AsRead, AllAsRead, FieldsAsRead, BareAsRead, WellFormed, Begins, Opening, Separator, Ends;
    var j := i + |PrintField(f)|;
    ClosingTokens(ts, j, wrapped);
    FieldParses(parent, f, ts, i);
    if wrapped {
      NoField(ts, j + 2);
      FieldMore(ts, i, FieldAsRead(f), j, [], j + 2);
    } else {
      FieldLast(ts, i, FieldAsRead(f), j);
    }
  }

  lemma {:induction false} FieldParses(parent: Expr, f: Field, ts: seq<Token>, i: nat)
    requires f.value < parent && WellFormed(f.value) && Here(ts, i, PrintField(f))
    requires var j := i + |PrintField(f)|; j < |ts| && (ts[j] in {Comma, RightBrace})
    ensures FieldAt(ts, i, Field(f.name, AsRead(f.value, 0, false)), i + |PrintField(f)|)
    decreases parent, 0, 1
  {
    hide ParseExpr, ParsePrimary, ParseLoop, ParseArgs, ParseParenthetical, ParseEntries, ParseRecord, ParseFields, Here, Halts, Continues, SkipBreaks, NotCaptured, NoArgument, Print, PrintArgs, PrintItems, PrintFields, Render, AllAsRead, FieldsAsRead, WellFormed, Begins, Opening, Closing, Separator, Ends;
    First(ts, i, PrintField(f));
    if f.value != Ident(f.name) {
      var value := Print(f.value, 0, false, true);
      Split(ts, i, [IdentTok(f.name), Colon], value);
      assert ts[i..i + 2][1] == ts[i + 1];
      ItemParses(parent, f.value, true, ts, i + 2);
    }
  }

  // ----- main results -----

  /** The printed form of any expression, followed by text that ends it, is read as exactly
      `AsRead` says, without a diagnostic, and the following text is left untouched: at every
      binding power, and in a brace-restricted subject as well. */
  lemma PrintedReadsAs(e: Expr, minPrec: nat, bp: nat, restrict: bool, spaced: bool, rest: seq<Token>)
    requires WellFormed(e) && bp <= minPrec && Ends(rest, 0, restrict)
    ensures var printed := Print(e, minPrec, restrict, spaced);
            ParseExpr(printed + rest, 0, bp, restrict) == Outcome(Some(AsRead(e, minPrec, restrict)), |printed|, [])
  {
    hide ParseExpr, ParsePrimary, ParseLoop, ParseArgs, ParseParenthetical, ParseEntries, ParseRecord, ParseFields, Halts, Continues, SkipBreaks, Prec, Wraps, NotCaptured, NoArgument, Print, PrintArgs, PrintItems, PrintFields, PrintField, Render, AsRead, WellFormed, Begins, At, Opening, Closing, Separator, Ends, Resume;
    var printed := Print(e, minPrec, restrict, spaced);
    var ts := printed + rest;
    assert Here(ts, 0, printed);
    EndsShift(rest, ts, |printed|, restrict);
    EndsNotCaptured(e, minPrec, restrict, ts, |printed|);
    PrintedParses(e, minPrec, restrict, spaced, ts, 0, bp);
    EndsHalt(ts, |printed|, bp, restrict);
    ResumeAtHalt(ts, |printed|, AsRead(e, minPrec, restrict), bp, restrict);
    HaltsMeans(ts, |printed|, bp, restrict, AsRead(e, minPrec, restrict));
  }

  lemma EndsHalt(ts: seq<Token>, j: nat, bp: nat, restrict: bool)
    requires j <= |ts| && Ends(ts, j, restrict)
    ensures Halts(ts, j, bp, restrict) && Halts(ts, j, 20, restrict)
  {
  }

  /** The printed form parses back to the expression, with a grouping where the printer put
      parentheses, exactly when no `or` has a left operand that ends in a bare `??`. */
  lemma RoundTripExactly(e: Expr, minPrec: nat, bp: nat, restrict: bool, spaced: bool, rest: seq<Token>)
    requires WellFormed(e) && bp <= minPrec && Ends(rest, 0, restrict)
    ensures var printed := Print(e, minPrec, restrict, spaced);
            ParseExpr(printed + rest, 0, bp, restrict) == Outcome(Some(Regrouped(e, minPrec, restrict)), |printed|, [])
            <==> Safe(e)
  {
    hide ParseExpr, Print, AsRead, Regrouped, Safe, WellFormed, Ends;
    PrintedReadsAs(e, minPrec, bp, restrict, spaced, rest);
    ReadAsMeantExactly(e, minPrec, restrict);
  }

  lemma EndsShift(rest: seq<Token>, ts: seq<Token>, n: nat, restrict: bool)
    requires n <= |ts| && ts[n..] == rest && Ends(rest, 0, restrict)
    ensures Ends(ts, n, restrict)
  {
    SkipShift(rest, ts, n, 0);
    if rest != [] { assert ts[n] == rest[0]; }
    var k := SkipBreaks(rest, 0);
    if k < |rest| { assert ts[n + k] == rest[k]; }
  }

  lemma SkipShift(rest: seq<Token>, ts: seq<Token>, n: nat, i: nat)
    requires n <= |ts| && ts[n..] == rest && i <= |rest|
    ensures SkipBreaks(ts, n + i) == n + SkipBreaks(rest, i)
    decreases |rest| - i
  {
    if i < |rest| { assert ts[n + i] == rest[i]; SkipShift(rest, ts, n, i + 1); }
  }

  /** Dropping the groupings again gives the tree the input stood for. */
  lemma {:induction false} RegroupedStrips(e: Expr, minPrec: nat, restrict: bool)
    ensures Strip(Regrouped(e, minPrec, restrict)) == Strip(e)
    decreases e, 1
  {
    if e.Grouping? {
      RegroupedStrips(e.inner, minPrec, restrict);
    } else {
      RebuiltStrips(e, if Wraps(e, minPrec, restrict) then false else restrict && IsBraceSpine(e));
    }
  }

  lemma {:induction false} RebuiltStrips(e: Expr, restrict: bool)
    requires !e.Grouping?
    ensures Strip(Rebuilt(e, restrict)) == Strip(e)
    decreases e, 0
  {
    match e
    case Binary(op, l, r) => RegroupedStrips(l, LeftMin(op), restrict); RegroupedStrips(r, RightMin(op), restrict);
    case Unary(p, x) => RegroupedStrips(x, PrefixPower(p), restrict);
    case Access(x, _) => RegroupedStrips(x, 100, restrict);
    case Call(f, xs) => RegroupedStrips(f, 91, restrict); AllStrips(e, xs, 91, restrict);
    case Tuple(xs, _) => AllStrips(e, xs, 0, false);
    case Record(fs, _) => FieldsStrip(e, fs);
    case _ =>
  }

  lemma {:induction false} AllStrips(parent: Expr, xs: seq<Expr>, minPrec: nat, restrict: bool)
    requires forall x :: x in xs ==> x < parent
    ensures StripAll(RegroupedAll(xs, minPrec, restrict)) == StripAll(xs)
    decreases parent, 0, |xs|
  {
    if xs != [] { assert xs[0] in xs && forall x :: x in xs[1..] ==> x in xs; }
    if xs != [] {
      assert xs[0] in xs;
      RegroupedStrips(xs[0], minPrec, restrict);
      assert RegroupedAll(xs, minPrec, restrict)[1..] == RegroupedAll(xs[1..], minPrec, restrict);
      AllStrips(parent, xs[1..], minPrec, restrict);
    }
  }

  lemma {:induction false} FieldsStrip(parent: Expr, fs: seq<Field>)
    requires forall f :: f in fs ==> f.value < parent
    ensures StripFields(RegroupedFields(fs)) == StripFields(fs)
    decreases parent, 0, |fs|
  {
    if fs != [] { assert fs[0] in fs && forall f :: f in fs[1..] ==> f in fs; }
    if fs != [] {
      assert fs[0] in fs;
      RegroupedStrips(fs[0].value, 0, false);
      assert RegroupedFields(fs)[1..] == RegroupedFields(fs[1..]);
      FieldsStrip(parent, fs[1..]);
    }
  }
}
