/** The documented levels of the operators, and that the parser groups by them alone. */
module Precedence {
  import opened Syntax
  import opened Wrappers
  import opened Parser
  import opened Printer
  import opened Reading
  import opened RoundTrip
  import Parentheses
  import ParserRange

  // ----- the levels -----

  /** From the pipe, which is loosest, to exponentiation. */
  function Level(op: Op): nat {
    match op
    case Chain => 0
    case Range => 1
    case LogicalOr => 2
    case NullCoalescing => 3
    case LogicalAnd => 4
    case Equality => 5 case Inequality => 5
    case LessThan => 6 case LessThanEquals => 6 case GreaterThan => 6 case GreaterThanEquals => 6
    case BitOr => 7
    case BitXor => 8
    case BitAnd => 9
    case ShiftLeft => 10 case ShiftRight => 10 case ShiftRightUnsigned => 10
    case Addition => 11 case Subtraction => 11 case Concat => 11
    case Multiplication => 12 case Division => 12 case Remainder => 12
    case Exponentiation => 13
  }

  /** Does `y` belong to `q` in `x p y q z`? It goes to the tighter operator, and of two on the
      same level to the second where they group to the right. An `or` behind a `??` takes it
      although it is looser. */
  predicate GoesRight(p: Op, q: Op) {
    || Level(q) > Level(p)
    || (Level(q) == Level(p) && q in {Exponentiation, NullCoalescing})
    || (p == NullCoalescing && q == LogicalOr)
  }

  /** Does `q` stand under the prefix operator in `p x q y`? `not` is between `and` and the
      comparisons, the others are between multiplication and exponentiation. */
  predicate StaysUnder(p: Prefix, q: Op) {
    if p == LogicalNot then Level(q) > Level(LogicalAnd) else q == Exponentiation
  }

  // ----- two operators -----

  /** An operand that is no operator expression itself. */
  ghost predicate Operand(x: Expr) { WellFormed(x) && !x.Binary? && !x.Unary? && !x.Grouping? }

  function Meant(x: Expr): Expr { BareAsRead(x, false) }

  /** Two infix operators group as their levels say, whatever their operands. */
  lemma OperatorsGroup(p: Op, q: Op, x: Expr, y: Expr, z: Expr, spaced: bool, rest: seq<Token>)
    requires Operand(x) && Operand(y) && Operand(z) && Ends(rest, 0, false)
    ensures var ts := Render(x, false, spaced) + ([OpToken(p)] + (Render(y, false, true) + ([OpToken(q)] + Render(z, false, true))));
            var read := if GoesRight(p, q) then Binary(p, Meant(x), Binary(q, Meant(y), Meant(z))) else Binary(q, Binary(p, Meant(x), Meant(y)), Meant(z));
            ParseExpr(ts + rest, 0, 0, false) == Outcome(Some(read), |ts|, [])
  {
    hide ParseExpr, Ends, WellFormed;
    if GoesRight(p, q) && !(p == NullCoalescing && q == LogicalOr) {
      var e := Binary(p, x, Binary(q, y, z));
      RightPrints(p, q, x, y, z, spaced);
      BinaryFormed(q, y, z);
      BinaryFormed(p, x, Binary(q, y, z));
      PrintedReadsAs(e, 0, 0, false, spaced, rest);
    } else {
      var e := Binary(q, Binary(p, x, y), z);
      LeftPrints(p, q, x, y, z, spaced);
      BinaryFormed(p, x, y);
      BinaryFormed(q, Binary(p, x, y), z);
      PrintedReadsAs(e, 0, 0, false, spaced, rest);
    }
  }

  lemma BinaryFormed(op: Op, l: Expr, r: Expr)
    requires WellFormed(l) && WellFormed(r)
    ensures WellFormed(Binary(op, l, r))
  {
  }

  lemma Bare(x: Expr, minPrec: nat, spaced: bool)
    requires Operand(x) && minPrec <= 90
    ensures Print(x, minPrec, false, spaced) == Render(x, false, spaced)
    ensures AsRead(x, minPrec, false) == Meant(x) && !Open(AsRead(x, minPrec, false))
  {
  }

  // The binding powers of the levels, in order.
  function Power(level: nat): nat {
    match level
    case 0 => 0 case 1 => 10 case 2 => 20 case 3 => 21 case 4 => 30 case 5 => 40 case 6 => 50
    case 7 => 52 case 8 => 54 case 9 => 56 case 10 => 58 case 11 => 60 case 12 => 70 case _ => 80
  }

  predicate ToTheRight(op: Op) { op == Exponentiation || op == NullCoalescing }

  lemma PowerOf(op: Op)
    ensures Level(op) <= 13 && OpPrec(op) == Power(Level(op)) && OpPrec(op) <= 80
    ensures LeftMin(op) == OpPrec(op) + (if ToTheRight(op) then 1 else 0)
    ensures RightMin(op) == OpPrec(op) + (if ToTheRight(op) then 0 else 1)
    ensures ToTheRight(op) <==> Level(op) == 13 || Level(op) == 3
    ensures op == Exponentiation <==> Level(op) == 13
    ensures op == NullCoalescing <==> Level(op) == 3
    ensures op == LogicalOr <==> Level(op) == 2
  {
  }

  lemma PowersClimb(i: nat, j: nat)
    requires i < j <= 13
    ensures Power(i) < Power(j)
  {
  }

  /** The levels are those of the two tables of powers. */
  lemma LevelsArePowers(p: Op, q: Op)
    ensures GoesRight(p, q) && !(p == NullCoalescing && q == LogicalOr) ==> RightMin(p) <= OpPrec(q)
    ensures !GoesRight(p, q) || (p == NullCoalescing && q == LogicalOr) ==> LeftMin(q) <= OpPrec(p)
    ensures LeftMin(p) <= 90 && RightMin(p) <= 90
  {
    hide Level, LeftMin, RightMin, OpPrec, Power;
    PowerOf(p);
    PowerOf(q);
    if Level(p) < Level(q) { PowersClimb(Level(p), Level(q)); }
    if Level(q) < Level(p) { PowersClimb(Level(q), Level(p)); }
  }

  lemma PrefixPowers(p: Prefix, q: Op)
    ensures if StaysUnder(p, q) then PrefixPower(p) <= OpPrec(q) else LeftMin(q) <= PrefixPower(p)
    ensures PrefixPower(p) <= 90
  {
  }

  lemma RightPrints(p: Op, q: Op, x: Expr, y: Expr, z: Expr, spaced: bool)
    requires Operand(x) && Operand(y) && Operand(z)
    requires GoesRight(p, q) && !(p == NullCoalescing && q == LogicalOr)
    ensures var e := Binary(p, x, Binary(q, y, z));
            && Print(e, 0, false, spaced) == Render(x, false, spaced) + ([OpToken(p)] + (Render(y, false, true) + ([OpToken(q)] + Render(z, false, true))))
            && AsRead(e, 0, false) == Binary(p, Meant(x), Binary(q, Meant(y), Meant(z)))
  {
    hide WellFormed, Meant, BareAsRead, Render, OpToken, Print, AsRead, GoesRight, LeftMin, RightMin, OpPrec;
    LevelsArePowers(p, q);
    LevelsArePowers(q, q);
    var r := Binary(q, y, z);
    Bare(x, LeftMin(p), spaced);
    Bare(y, LeftMin(q), true);
    Bare(z, RightMin(q), true);
    BinaryBare(q, y, z, RightMin(p), true);
    BinaryBare(p, x, r, 0, spaced);
  }

  /** A binary expression in a place it needs no parentheses in. */
  lemma BinaryBare(op: Op, l: Expr, r: Expr, minPrec: nat, spaced: bool)
    requires minPrec <= OpPrec(op)
    ensures Print(Binary(op, l, r), minPrec, false, spaced) == Print(l, LeftMin(op), false, spaced) + ([OpToken(op)] + Print(r, RightMin(op), false, true))
    ensures !Open(AsRead(l, LeftMin(op), false)) || op != LogicalOr ==> AsRead(Binary(op, l, r), minPrec, false) == Binary(op, AsRead(l, LeftMin(op), false), AsRead(r, RightMin(op), false))
    ensures op == LogicalOr ==> AsRead(Binary(op, l, r), minPrec, false) == Graft(AsRead(l, LeftMin(op), false), AsRead(r, RightMin(op), false))
  {
    var e := Binary(op, l, r);
    assert Print(e, minPrec, false, spaced) == Render(e, false, spaced);
    assert AsRead(e, minPrec, false) == BareAsRead(e, false);
  }

  lemma LeftPrints(p: Op, q: Op, x: Expr, y: Expr, z: Expr, spaced: bool)
    requires Operand(x) && Operand(y) && Operand(z)
    requires !GoesRight(p, q) || (p == NullCoalescing && q == LogicalOr)
    ensures var e := Binary(q, Binary(p, x, y), z);
            && Print(e, 0, false, spaced) == Render(x, false, spaced) + ([OpToken(p)] + (Render(y, false, true) + ([OpToken(q)] + Render(z, false, true))))
            && AsRead(e, 0, false) == if GoesRight(p, q) then Binary(p, Meant(x), Binary(q, Meant(y), Meant(z))) else Binary(q, Binary(p, Meant(x), Meant(y)), Meant(z))
  {
    hide WellFormed, Meant, BareAsRead, Render, OpToken, Print, AsRead, Level, LeftMin, RightMin, OpPrec;
    LevelsArePowers(p, q);
    LevelsArePowers(q, q);
    var l := Binary(p, x, y);
    Bare(x, LeftMin(p), spaced);
    Bare(y, RightMin(p), true);
    Bare(z, RightMin(q), true);
    BinaryBare(p, x, y, LeftMin(q), spaced);
    BinaryBare(q, l, z, 0, spaced);
    var a, b, c := Render(x, false, spaced), Render(y, false, true), Render(z, false, true);
    assert (a + ([OpToken(p)] + b)) + ([OpToken(q)] + c) == a + ([OpToken(p)] + (b + ([OpToken(q)] + c)));
  }

  /** A prefix operator has under it what its level says. */
  lemma PrefixGroups(p: Prefix, q: Op, x: Expr, y: Expr, spaced: bool, rest: seq<Token>)
    requires Operand(x) && Operand(y) && Ends(rest, 0, false)
    ensures var ts := [PrefixToken(p, spaced)] + (Render(x, false, false) + ([OpToken(q)] + Render(y, false, true)));
            var read := if StaysUnder(p, q) then Unary(p, Binary(q, Meant(x), Meant(y))) else Binary(q, Unary(p, Meant(x)), Meant(y));
            ParseExpr(ts + rest, 0, 0, false) == Outcome(Some(read), |ts|, [])
  {
    hide ParseExpr, Ends, WellFormed, Meant, BareAsRead, OpToken, Print, AsRead, Render, Graft, LeftMin, RightMin, OpPrec, Level, StaysUnder;
    PrefixPowers(p, q);
    LevelsArePowers(q, q);
    Bare(x, LeftMin(q), false);
    Bare(x, PrefixPower(p), false);
    Bare(y, RightMin(q), true);
    if StaysUnder(p, q) {
      BinaryFormed(q, x, y);
      UnaryFormed(p, Binary(q, x, y));
      UnaryBare(p, Binary(q, x, y), 0, spaced);
      BinaryBare(q, x, y, PrefixPower(p), false);
      PrintedReadsAs(Unary(p, Binary(q, x, y)), 0, 0, false, spaced, rest);
    } else {
      UnaryFormed(p, x);
      BinaryFormed(q, Unary(p, x), y);
      UnaryBare(p, x, LeftMin(q), spaced);
      BinaryBare(q, Unary(p, x), y, 0, spaced);
      var a, b := Render(x, false, false), Render(y, false, true);
      assert ([PrefixToken(p, spaced)] + a) + ([OpToken(q)] + b) == [PrefixToken(p, spaced)] + (a + ([OpToken(q)] + b));
      PrintedReadsAs(Binary(q, Unary(p, x), y), 0, 0, false, spaced, rest);
    }
  }

  lemma UnaryFormed(p: Prefix, x: Expr)
    requires WellFormed(x)
    ensures WellFormed(Unary(p, x))
  {
  }

  lemma UnaryBare(p: Prefix, x: Expr, minPrec: nat, spaced: bool)
    requires minPrec <= PrefixPower(p)
    ensures Print(Unary(p, x), minPrec, false, spaced) == [PrefixToken(p, spaced)] + Print(x, PrefixPower(p), false, false)
    ensures AsRead(Unary(p, x), minPrec, false) == Unary(p, AsRead(x, PrefixPower(p), false))
  {
    assert Print(Unary(p, x), minPrec, false, spaced) == Render(Unary(p, x), false, spaced);
    assert AsRead(Unary(p, x), minPrec, false) == BareAsRead(Unary(p, x), false);
  }

  // ----- every source -----

  /** Every operator stands over its operands as the levels say; calls and accesses stand under
      all operators, accesses under calls. */
  ghost predicate Levelled(e: Expr)
    decreases e
  {
    match e
    case Grouping(x) => Levelled(x)
    case Binary(op, l, r) =>
      && Levelled(l) && Levelled(r)
      && (l.Binary? ==> Level(l.op) > Level(op) || (Level(l.op) == Level(op) && op !in {Exponentiation, NullCoalescing}))
      && (l.Unary? ==> !StaysUnder(l.prefix, op))
      && (r.Binary? ==> GoesRight(op, r.op))
    case Unary(p, x) => Levelled(x) && (x.Binary? ==> StaysUnder(p, x.op))
    case Access(x, _) => Levelled(x) && !x.Binary? && !x.Unary? && !x.Call?
    case Call(f, xs) =>
      && Levelled(f) && !f.Binary? && !f.Unary? && !f.Call?
      && forall x :: x in xs ==> Levelled(x) && !x.Binary? && !x.Call?
    case Tuple(xs, _) => forall x :: x in xs ==> Levelled(x)
    case Record(fs, _) => forall f :: f in fs ==> Levelled(f.value)
    case _ => true
  }

  lemma OperandsLevelled(op: Op, l: Expr, r: Expr)
    requires Parentheses.Fits(l, LeftMin(op)) && Parentheses.FitsRight(op, r)
    ensures l.Binary? ==> Level(l.op) > Level(op) || (Level(l.op) == Level(op) && op !in {Exponentiation, NullCoalescing})
    ensures l.Unary? ==> !StaysUnder(l.prefix, op)
    ensures r.Binary? ==> GoesRight(op, r.op)
  {
    hide Printer.Prec;
    PrecIs(l);
    PrecIs(r);
  }

  lemma UnderPrefix(p: Prefix, x: Expr)
    requires Parentheses.FitsTight(x, PrefixPower(p))
    ensures x.Binary? ==> StaysUnder(p, x.op)
  {
    hide Printer.Prec;
    PrecIs(x);
  }

  lemma Tight(x: Expr, minPrec: nat)
    requires Parentheses.Fits(x, minPrec) && minPrec >= 91
    ensures !x.Binary? && !x.Unary? && !x.Call?
  {
    hide Printer.Prec;
    PrecIs(x);
  }

  lemma PrecIs(e: Expr)
    ensures e.Binary? ==> Printer.Prec(e) == OpPrec(e.op)
    ensures e.Unary? ==> Printer.Prec(e) == PrefixPower(e.prefix)
    ensures e.Call? ==> Printer.Prec(e) == 90
  {
  }

  lemma {:induction false} LeanIsLevelled(e: Expr)
    requires Parentheses.Lean(e)
    ensures Levelled(e)
    decreases e
  {
    hide Printer.Prec, Level, LeftMin, RightMin, OpPrec, StaysUnder, GoesRight, Parentheses.FitsRight;
    match e
    case Grouping(x) => LeanIsLevelled(x);
    case Binary(op, l, r) =>
      LeanIsLevelled(l);
      LeanIsLevelled(r);
      OperandsLevelled(op, l, r);
    case Unary(p, x) =>
      LeanIsLevelled(x);
      UnderPrefix(p, x);
    case Access(x, _) =>
      LeanIsLevelled(x);
      Tight(x, 100);
    case Call(f, xs) =>
      LeanIsLevelled(f);
      Tight(f, 91);
      forall x | x in xs ensures Levelled(x) && !x.Binary? && !x.Call? {
        LeanIsLevelled(x);
        if !x.Unary? { Tight(x, 91); }
      }
    case Tuple(xs, _) => forall x | x in xs ensures Levelled(x) { LeanIsLevelled(x); }
    case Record(fs, _) => forall f | f in fs ensures Levelled(f.value) { LeanIsLevelled(f.value); }
    case _ =>
  }

  /** So does the tree of every source read without a diagnostic. */
  lemma EverySourceIsLevelled(ts: seq<Token>, i: nat, minBp: nat, restrict: bool)
    requires i <= |ts| && ParserRange.NothingDropped(ts)
    ensures var o := ParseExpr(ts, i, minBp, restrict); o.expr.Some? && o.errs == [] ==> Levelled(o.expr.value)
  {
    hide ParseExpr, Levelled, ParserRange.NothingDropped;
    Parentheses.ExprLean(ts, restrict, i, minBp);
    var o := ParseExpr(ts, i, minBp, restrict);
    if o.expr.Some? && o.errs == [] { LeanIsLevelled(o.expr.value); }
  }
}
