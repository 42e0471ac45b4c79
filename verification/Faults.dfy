/** What the expression parser reports where something is missing: one diagnostic, of the kind
    the place calls for, and no expression. */
module Faults {
  import opened Syntax
  import opened Wrappers
  import opened Parser
  import opened Printer
  import opened Reading
  import opened RoundTrip
  import opened Separators
  import opened LineBreaks

  /** No expression begins here. */
  predicate NoOperand(rest: seq<Token>) {
    rest != [] ==> rest[0] in {RightParen, RightBrace, Comma, Colon, Break} || rest[0].Other? || rest[0].InfixTok?
  }

  lemma NoOperandAt(ts: seq<Token>, i: nat, rest: seq<Token>, bp: nat, restrict: bool)
    requires i <= |ts| && ts[i..] == rest && NoOperand(rest)
    ensures ParseExpr(ts, i, bp, restrict) == Outcome(None, i, [])
  {
    if i < |ts| { assert ts[i] == rest[0]; }
    assert ParsePrimary(ts, i, restrict) == Outcome(None, i, []);
  }

  // ----- operands -----

  lemma PrefixMissing(ts: seq<Token>, i: nat, p: Prefix, bp: nat, restrict: bool)
    requires i < |ts| && PrefixOf(ts[i]) == Some(p) && ParseExpr(ts, i + 1, PrefixPower(p), restrict) == Outcome(None, i + 1, [])
    ensures ParseExpr(ts, i, bp, restrict) == Outcome(None, i + 1, [ExpectedExpression])
  {
    hide ParseLoop, ParseArgs, ParseParenthetical, ParseEntries, ParseRecord, ParseFields;
    assert ParsePrimary(ts, i, restrict) == Outcome(None, i + 1, [ExpectedExpression]);
  }

  /** A prefix operator with nothing behind it. */
  lemma MissingOperand(p: Prefix, spaced: bool, rest: seq<Token>, bp: nat, restrict: bool)
    requires NoOperand(rest)
    ensures ParseExpr([PrefixToken(p, spaced)] + rest, 0, bp, restrict) == Outcome(None, 1, [ExpectedExpression])
  {
    hide ParseExpr;
    var ts := [PrefixToken(p, spaced)] + rest;
    assert ts[1..] == rest;
    NoOperandAt(ts, 1, rest, PrefixPower(p), restrict);
    PrefixMissing(ts, 0, p, bp, restrict);
  }

  lemma OperatorMissing(ts: seq<Token>, j: nat, lhs: Expr, op: Op, bp: nat, restrict: bool)
    requires j < |ts| && ts[j] == OpToken(op) && bp <= LeftPower(op)
    requires ParseExpr(ts, j + 1, RightPower(op), restrict) == Outcome(None, j + 1, [])
    ensures ParseLoop(ts, j, lhs, bp, restrict) == Outcome(None, j + 1, [ExpectedExpression])
  {
    hide ParseExpr, ParsePrimary, ParseArgs, ParseParenthetical, ParseEntries, ParseRecord, ParseFields;
  }

  /** An `or` with nothing behind it, on an operand that may still be open. */
  lemma {:induction false} OrMissing(ts: seq<Token>, j: nat, x: Expr, bp: nat, restrict: bool)
    requires OrAt(ts, j) && (!Open(x) ==> bp <= 20)
    requires ParseExpr(ts, j + 1, 21, restrict) == Outcome(None, j + 1, [])
    ensures Resume(ts, j, x, bp, restrict) == Outcome(None, j + 1, [ExpectedExpression])
    decreases x
  {
    hide ParseExpr, ParsePrimary, ParseLoop, ParseArgs, ParseParenthetical, ParseEntries, ParseRecord, ParseFields;
    if Open(x) {
      OrMissing(ts, j, x.right, RightPower(x.op), restrict);
    } else {
      OperatorMissing(ts, j, x, LogicalOr, bp, restrict);
    }
  }

  /** An infix operator with nothing behind it, whatever expression stands before it. */
  lemma MissingRightOperand(op: Op, l: Expr, restrict: bool, spaced: bool, rest: seq<Token>)
    requires WellFormed(l) && NoOperand(rest)
    ensures var printed := Print(l, LeftMin(op), restrict, spaced);
            ParseExpr(printed + ([OpToken(op)] + rest), 0, 0, restrict) == Outcome(None, |printed| + 1, [ExpectedExpression])
  {
    hide ParseExpr, ParseLoop, Halts, Continues, NotCaptured, NoArgument, Print, AsRead, WellFormed, Resume, Open, NoOperand;
    var printed := Print(l, LeftMin(op), restrict, spaced);
    var ts, j := printed + ([OpToken(op)] + rest), |printed|;
    assert ts[0..j] == printed && ts[j] == OpToken(op) && ts[j + 1..] == rest;
    OperatorNotCaptured(l, LeftMin(op), restrict, ts, j, op);
    PrintedParses(l, LeftMin(op), restrict, spaced, ts, 0, 0);
    NoOperandAt(ts, j + 1, rest, RightPower(op), restrict);
    var l' := AsRead(l, LeftMin(op), restrict);
    if op == LogicalOr {
      OrMissing(ts, j, l', 0, restrict);
    } else {
      BeforeOperator(l, op, restrict, ts, j, 0);
      OperatorMissing(ts, j, l', op, 0, restrict);
    }
  }

  // ----- accessors -----

  lemma AccessorMissing(ts: seq<Token>, j: nat, lhs: Expr, restrict: bool)
    requires j < |ts| && ts[j] == Dot && (j + 1 < |ts| ==> !ts[j + 1].IdentTok? && !ts[j + 1].DigitsTok?)
    ensures ParseLoop(ts, j, lhs, 0, restrict) == Outcome(None, j + 1, [InvalidExpressionAfterDot])
  {
    hide ParseExpr, ParsePrimary, ParseArgs, ParseParenthetical, ParseEntries, ParseRecord, ParseFields;
  }

  /** A dot with no name or index behind it. */
  lemma MissingAccessor(x: Expr, restrict: bool, spaced: bool, rest: seq<Token>)
    requires WellFormed(x) && !IsNumber(x) && (rest != [] ==> !rest[0].IdentTok? && !rest[0].DigitsTok?)
    ensures var printed := Print(x, 100, restrict, spaced);
            ParseExpr(printed + ([Dot] + rest), 0, 0, restrict) == Outcome(None, |printed| + 1, [InvalidExpressionAfterDot])
  {
    hide ParseExpr, ParseLoop, Halts, Continues, NotCaptured, NoArgument, Print, AsRead, WellFormed, Resume, Open;
    var printed := Print(x, 100, restrict, spaced);
    var ts, j := printed + ([Dot] + rest), |printed|;
    assert ts[0..j] == printed && ts[j] == Dot && ts[j + 1..] == rest;
    TightNotCaptured(x, 100, restrict, ts, j);
    PrintedParses(x, 100, restrict, spaced, ts, 0, 0);
    TightResumes(x, 100, restrict, ts, j, 0);
    AccessorMissing(ts, j, AsRead(x, 100, restrict), restrict);
  }

  /** A dot that no receiver stands before, and one that number digits do. */
  lemma LoneDots(name: string, digits: nat, rest: seq<Token>, bp: nat, restrict: bool)
    ensures ParseExpr([Dot, IdentTok(name)] + rest, 0, bp, restrict) == Outcome(None, 2, [LeadingDotOutsideUsing])
    ensures (rest != [] ==> !rest[0].IdentTok?) ==> ParseExpr([Dot] + rest, 0, bp, restrict) == Outcome(None, 1, [ExpectedIdentifier])
    ensures (rest != [] ==> !rest[0].DigitsTok?) ==> ParseExpr([DigitsTok(digits), Dot] + rest, 0, bp, restrict) == Outcome(None, 2, [ExpectedDigits])
  {
    hide ParseLoop, ParseArgs, ParseParenthetical, ParseRecord;
    var ts := [Dot, IdentTok(name)] + rest;
    assert ParsePrimary(ts, 0, restrict) == Outcome(None, 2, [LeadingDotOutsideUsing]);
    var us := [Dot] + rest;
    if rest != [] ==> !rest[0].IdentTok? { assert ParsePrimary(us, 0, restrict) == Outcome(None, 1, [ExpectedIdentifier]); }
    var vs := [DigitsTok(digits), Dot] + rest;
    if rest != [] ==> !rest[0].DigitsTok? { assert ParsePrimary(vs, 0, restrict) == Outcome(None, 2, [ExpectedDigits]); }
  }

  // ----- arguments -----

  /** What a call's argument may begin with: a `-` only with white space before it and none
      behind, no other prefix operator, and no brace where a body's brace would follow. */
  predicate BeginsArgument(t: Token, restrict: bool) {
    t.IdentTok? || t.DigitsTok? || t.LiteralTok? || t == LeftParen || t == UnaryMinus || (t == LeftBrace && !restrict)
  }

  /** Nothing else behind an expression begins an argument: what is neither one of these, nor an
      operator, a dot or a line break, is left to whoever reads on. */
  lemma NoOtherArgument(name: string, t: Token, rest: seq<Token>, restrict: bool)
    requires !BeginsArgument(t, restrict) && t != Minus && !t.InfixTok? && t != Dot && t != Break
    ensures ParseExpr([IdentTok(name), t] + rest, 0, 0, restrict) == Outcome(Some(Ident(name)), 1, [])
  {
    hide ParseArgs, ParseParenthetical, ParseRecord, ParseLoop;
    var ts := [IdentTok(name), t] + rest;
    assert ParsePrimary(ts, 0, restrict) == Outcome(Some(Ident(name)), 1, []);
    assert Halts(ts, 1, 0, restrict);
    HaltsMeans(ts, 1, 0, restrict, Ident(name));
  }

  // ----- brackets -----

  lemma ParenMissing(ts: seq<Token>, i: nat, items: seq<Expr>, k: nat, restrict: bool)
    requires i < |ts| && ts[i] == LeftParen && k <= |ts| && At(ts, k) != Some(RightParen) && At(ts, k) != Some(Break)
    requires ParseEntries(ts, SkipBreaks(ts, i + 1)) == Entries(items, k, [])
    ensures ParseExpr(ts, i, 0, restrict) == Outcome(None, k, [UnexpectedToken(RightParen)])
  {
    hide ParseLoop, ParseArgs, ParseEntries, ParseRecord, ParseFields;
    assert SkipBreaks(ts, k) == k;
    assert ParsePrimary(ts, i, restrict) == Outcome(None, k, [UnexpectedToken(RightParen)]);
  }

  lemma BraceMissing(ts: seq<Token>, i: nat, fields: seq<Field>, k: nat)
    requires i < |ts| && ts[i] == LeftBrace && k <= |ts| && At(ts, k) != Some(RightBrace) && At(ts, k) != Some(Break)
    requires ParseFields(ts, SkipBreaks(ts, i + 1)) == Fields(fields, k, [], true)
    ensures ParseExpr(ts, i, 0, false) == Outcome(None, k, [UnexpectedToken(RightBrace)])
  {
    hide ParseLoop, ParseArgs, ParseParenthetical, ParseEntries, ParseFields;
    assert SkipBreaks(ts, k) == k;
    assert ParsePrimary(ts, i, false) == Outcome(None, k, [UnexpectedToken(RightBrace)]);
  }

  lemma OpenedBy(open: Token, lead: nat, inner: seq<Token>, rest: seq<Token>)
    ensures var ts := [open] + (Breaks(lead) + (inner + rest)); var j := 1 + lead + |inner|;
            |ts| >= j && ts[0] == open && Here(ts, 1, Breaks(lead)) && Here(ts, 1 + lead, inner) && ts[j..] == rest
  {
    hide Breaks;
    BreaksAre(lead);
    var ts := [open] + (Breaks(lead) + (inner + rest));
    assert ts[1..1 + lead] == Breaks(lead) && ts[1 + lead..1 + lead + |inner|] == inner;
  }

  /** A closing parenthesis missing behind well-formed entries. */
  lemma MissingParenthesis(xs: seq<Expr>, seps: seq<Sep>, lead: nat, restrict: bool, rest: seq<Token>)
    requires |seps| == |xs| && Separated(seps) && forall x :: x in xs ==> WellFormed(x)
    requires rest != [] ==> rest[0] == RightBrace || rest[0].Other?
    ensures var ts := [LeftParen] + (Breaks(lead) + Listed(ItemTokens(xs, lead > 0), seps));
            ParseExpr(ts + rest, 0, 0, restrict) == Outcome(None, |ts|, [UnexpectedToken(RightParen)])
  {
    hide ParseExpr, ParseEntries, Here, Listed, ItemTokens, Breaks, WellFormed, Separated, SkipBreaks;
    var inner := Listed(ItemTokens(xs, lead > 0), seps);
    var ts, j := [LeftParen] + (Breaks(lead) + inner), 1 + lead + |inner|;
    BreaksAre(lead);
    OpenedBy(LeftParen, lead, inner, rest);
    var all := [LeftParen] + (Breaks(lead) + (inner + rest));
    assert ts + rest == all;
    if j < |all| { assert all[j] == rest[0]; }
    EntriesBetween(xs, seps, lead > 0, all, lead);
    ParenMissing(all, 0, AllAsRead(xs, 0, false), j, restrict);
  }

  /** And a closing brace behind well-formed fields. */
  lemma MissingBrace(fs: seq<Field>, seps: seq<Sep>, lead: nat, rest: seq<Token>)
    requires |seps| == |fs| && Separated(seps) && forall f :: f in fs ==> WellFormed(f.value)
    requires rest != [] ==> rest[0] == RightParen || rest[0].Other?
    ensures var ts := [LeftBrace] + (Breaks(lead) + Listed(FieldTokens(fs), seps));
            ParseExpr(ts + rest, 0, 0, false) == Outcome(None, |ts|, [UnexpectedToken(RightBrace)])
  {
    hide ParseExpr, ParseFields, Here, Listed, FieldTokens, Breaks, WellFormed, Separated, SkipBreaks;
    var inner := Listed(FieldTokens(fs), seps);
    var ts, j := [LeftBrace] + (Breaks(lead) + inner), 1 + lead + |inner|;
    BreaksAre(lead);
    OpenedBy(LeftBrace, lead, inner, rest);
    var all := [LeftBrace] + (Breaks(lead) + (inner + rest));
    assert ts + rest == all;
    if j < |all| { assert all[j] == rest[0]; }
    FieldsBetween(fs, seps, all, lead);
    BraceMissing(all, 0, FieldsAsRead(fs), j);
  }
}
