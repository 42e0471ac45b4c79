/** The binding-power expression parser: a specification by recursion on the tokens, and
    the stateful parser that implements it with loops over its cursor. */
module Parser {
  import opened Syntax
  import opened Wrappers

  datatype ParseError =
    | ExpectedExpression | InvalidExpressionAfterDot | LeadingDotOutsideUsing
    | ExpectedIdentifier | ExpectedDigits | UnexpectedToken(expected: Token)

  /** A sub-parser's outcome: an expression or none, the cursor after it, and the errors
      it reported. */
  datatype Outcome = Outcome(expr: Option<Expr>, pos: nat, errs: seq<ParseError>)

  datatype Entries = Entries(items: seq<Expr>, pos: nat, errs: seq<ParseError>)

  /** `ok` is false when a field's value could not be parsed. */
  datatype Fields = Fields(items: seq<Field>, pos: nat, errs: seq<ParseError>, ok: bool)

  function At(ts: seq<Token>, i: nat): Option<Token> {
    if i < |ts| then Some(ts[i]) else None
  }

  function SkipBreaks(ts: seq<Token>, i: nat): (j: nat)
    requires i <= |ts|
    ensures i <= j <= |ts|
    ensures At(ts, j) != Some(Break)
    decreases |ts| - i
  {
    if At(ts, i) == Some(Break) then SkipBreaks(ts, i + 1) else i
  }

  ghost predicate Advances(o: Outcome, ts: seq<Token>, i: nat) {
    i <= o.pos <= |ts| && (o.expr.Some? ==> i < o.pos)
  }

  // ----- specification -----

  function ParseExpr(ts: seq<Token>, i: nat, minBp: nat, restrict: bool): (o: Outcome)
    requires i <= |ts|
    ensures Advances(o, ts, i)
    decreases |ts| - i, 4
  {
    var first := ParsePrimary(ts, i, restrict);
    if first.expr == None then first else
      var o := ParseLoop(ts, first.pos, first.expr.value, minBp, restrict);
      o.(errs := first.errs + o.errs)
  }

  function ParsePrimary(ts: seq<Token>, i: nat, restrict: bool): (o: Outcome)
    requires i <= |ts|
    ensures Advances(o, ts, i)
    decreases |ts| - i, 3
  {
    if i == |ts| then Outcome(None, i, [])
    else if ts[i] == LeftParen then ParseParenthetical(ts, i)
    else if ts[i] == LeftBrace && !restrict then ParseRecord(ts, i)
    else if ts[i].IdentTok? then Outcome(Some(Ident(ts[i].name)), i + 1, [])
    else if ts[i].DigitsTok? then ParseNumber(ts, i)
    else if ts[i].LiteralTok? then Outcome(Some(Literal(ts[i].code)), i + 1, [])
    else if ts[i] == Dot then ParseLeadingDot(ts, i)
    else if PrefixOf(ts[i]).Some? then
      var p := PrefixOf(ts[i]).value;
      var o := Require(ParseExpr(ts, i + 1, PrefixPower(p), restrict));
      if o.expr == None then o else o.(expr := Some(Unary(p, o.expr.value)))
    else Outcome(None, i, [])
  }

  /** Digits, or digits with a dot and digits behind them; a dot right behind digits is
      always taken for a decimal point. */
  function ParseNumber(ts: seq<Token>, i: nat): (o: Outcome)
    requires i < |ts| && ts[i].DigitsTok?
    ensures Advances(o, ts, i) && i < o.pos && (o.expr == None ==> o.errs != [])
  {
    if At(ts, i + 1) != Some(Dot) then Outcome(Some(Number(ts[i].value)), i + 1, [])
    else match At(ts, i + 2)
      case Some(DigitsTok(fraction)) => Outcome(Some(Float(ts[i].value, fraction)), i + 3, [])
      case _ => Outcome(None, i + 2, [ExpectedDigits])
  }

  /** A member without a receiver, which only a `using` block gives a meaning. */
  function ParseLeadingDot(ts: seq<Token>, i: nat): (o: Outcome)
    requires i < |ts| && ts[i] == Dot
    ensures Advances(o, ts, i) && i < o.pos && o.expr == None && o.errs != []
  {
    match At(ts, i + 1)
    case Some(IdentTok(_)) => Outcome(None, i + 2, [LeadingDotOutsideUsing])
    case _ => Outcome(None, i + 1, [ExpectedIdentifier])
  }

  /** A missing mandatory operand is an error unless one was just reported. */
  function Require(o: Outcome): Outcome {
    if o.expr == None && o.errs == [] then o.(errs := [ExpectedExpression]) else o
  }

  /** The token the loop looks at: a line break is passed over when an operator follows. */
  function Continues(ts: seq<Token>, i: nat): (j: nat)
    requires i <= |ts|
    ensures i <= j <= |ts|
  {
    if At(ts, i) == Some(Break) then
      var j := SkipBreaks(ts, i);
      if j < |ts| && IsOperator(ts[j]) then j else i
    else i
  }

  function ParseLoop(ts: seq<Token>, i: nat, lhs: Expr, minBp: nat, restrict: bool): (o: Outcome)
    requires i <= |ts|
    ensures i <= o.pos <= |ts|
    decreases |ts| - i, 6
  {
    var j := Continues(ts, i);
    if j == |ts| then Outcome(Some(lhs), j, [])
    else if InfixOf(ts[j]).Some? then
      var op := InfixOf(ts[j]).value;
      if LeftPower(op) < minBp then Outcome(Some(lhs), j, []) else
        var rhs := Require(ParseExpr(ts, j + 1, RightPower(op), restrict));
        if rhs.expr == None then rhs else
          var o := ParseLoop(ts, rhs.pos, Binary(op, lhs, rhs.expr.value), minBp, restrict);
          o.(errs := rhs.errs + o.errs)
    else if ts[j] == Dot then
      if DOT_LEFT < minBp then Outcome(Some(lhs), j, []) else
        match ParseAccessor(ts, j + 1) {
          case None => Outcome(None, j + 1, [InvalidExpressionAfterDot])
          case Some(a) => ParseLoop(ts, j + 2, Access(lhs, a), minBp, restrict)
        }
    else if CanStartExpression(ts[j]) then
      if CALL_LEFT < minBp then Outcome(Some(lhs), j, []) else
        var args := ParseArgs(ts, j, restrict);
        if args.items == [] then Outcome(Some(lhs), args.pos, args.errs) else
          var o := ParseLoop(ts, args.pos, Call(lhs, args.items), minBp, restrict);
          o.(errs := args.errs + o.errs)
    else Outcome(Some(lhs), j, [])
  }

  function ParseAccessor(ts: seq<Token>, i: nat): (a: Option<Accessor>)
    ensures a.Some? ==> i < |ts|
  {
    match At(ts, i)
    case Some(IdentTok(n)) => Some(Name(n))
    case Some(DigitsTok(n)) => Some(Index(n))
    case _ => None
  }

  function ParseArgs(ts: seq<Token>, i: nat, restrict: bool): (r: Entries)
    requires i <= |ts|
    ensures i <= r.pos <= |ts| && (r.items != [] ==> i < r.pos)
    decreases |ts| - i, 5
  {
    if At(ts, i) == Some(Minus) then Entries([], i, []) else
      var arg := ParseExpr(ts, i, CALL_RIGHT, restrict);
      if arg.expr == None then Entries([], arg.pos, arg.errs) else
        var rest := ParseArgs(ts, arg.pos, restrict);
        Entries([arg.expr.value] + rest.items, rest.pos, arg.errs + rest.errs)
  }

  function ParseParenthetical(ts: seq<Token>, i: nat): (o: Outcome)
    requires i < |ts| && ts[i] == LeftParen
    ensures Advances(o, ts, i)
    decreases |ts| - i, 2
  {
    var entries := ParseEntries(ts, SkipBreaks(ts, i + 1));
    var j := SkipBreaks(ts, entries.pos);
    if At(ts, j) != Some(RightParen) then Outcome(None, j, entries.errs + [UnexpectedToken(RightParen)])
    else if entries.items == [] then Outcome(Some(EmptyTuple), j + 1, entries.errs)
    else if |entries.items| == 1 then Outcome(Some(Grouping(entries.items[0])), j + 1, entries.errs)
    else Outcome(Some(Tuple(entries.items, false)), j + 1, entries.errs)
  }

  function ParseEntries(ts: seq<Token>, i: nat): (r: Entries)
    requires i <= |ts|
    ensures i <= r.pos <= |ts|
    decreases |ts| - i, 5
  {
    var entry := ParseExpr(ts, i, 0, false);
    if entry.expr == None then Entries([], entry.pos, entry.errs) else
      match NextEntry(ts, entry.pos)
      case Some(j) =>
        var rest := ParseEntries(ts, j);
        Entries([entry.expr.value] + rest.items, rest.pos, entry.errs + rest.errs)
      case None => Entries([entry.expr.value], entry.pos, entry.errs)
  }

  /** Where a list of entries goes on after one of them, if it does. */
  function NextEntry(ts: seq<Token>, i: nat): (j: Option<nat>)
    requires i <= |ts|
    ensures j.Some? ==> i < j.value <= |ts|
  {
    match At(ts, i)
    case Some(Comma) => Some(SkipBreaks(ts, i + 1))
    case Some(Break) => Some(SkipBreaks(ts, i))
    case _ => None
  }

  function ParseRecord(ts: seq<Token>, i: nat): (o: Outcome)
    requires i < |ts| && ts[i] == LeftBrace
    ensures Advances(o, ts, i)
    decreases |ts| - i, 2
  {
    var fields := ParseFields(ts, SkipBreaks(ts, i + 1));
    if !fields.ok then Outcome(None, fields.pos, fields.errs) else
      var j := SkipBreaks(ts, fields.pos);
      if At(ts, j) != Some(RightBrace) then Outcome(None, j, fields.errs + [UnexpectedToken(RightBrace)])
      else Outcome(Some(Record(fields.items, false)), j + 1, fields.errs)
  }

  function ParseFields(ts: seq<Token>, i: nat): (r: Fields)
    requires i <= |ts|
    ensures i <= r.pos <= |ts|
    decreases |ts| - i, 5
  {
    if i == |ts| || !ts[i].IdentTok? then Fields([], i, [], true) else
      var value := FieldValue(ts, i);
      if value.expr == None then Fields([], value.pos, value.errs, false) else
        var field := Field(ts[i].name, value.expr.value);
        match NextEntry(ts, value.pos)
        case Some(j) =>
          var rest := ParseFields(ts, j);
          Fields([field] + rest.items, rest.pos, value.errs + rest.errs, rest.ok)
        case None => Fields([field], value.pos, value.errs, true)
  }

  /** The value of the field named at `i`; without a colon the name stands for itself. */
  function FieldValue(ts: seq<Token>, i: nat): (o: Outcome)
    requires i < |ts| && ts[i].IdentTok?
    ensures i < o.pos <= |ts|
    decreases |ts| - i, 4
  {
    if At(ts, i + 1) == Some(Colon) then ParseExpr(ts, i + 2, 0, false)
    else Outcome(Some(Ident(ts[i].name)), i + 1, [])
  }
}
