/** The parser as the source runs it: a cursor and an error list updated in place, with
    loops for operators, arguments, entries and fields. Every method is proved equal to
    the recursive specification. */
module ParserState {
  import opened Syntax
  import opened Wrappers
  import opened Parser

  // ----- the specification, one unfolding at a time -----

  lemma LoopStops(ts: seq<Token>, i: nat, lhs: Expr, minBp: nat, restrict: bool)
    requires i <= |ts|
    requires var j := Continues(ts, i);
             j == |ts| || (InfixOf(ts[j]) == None && ts[j] != Dot && !CanStartExpression(ts[j]))
    ensures ParseLoop(ts, i, lhs, minBp, restrict) == Outcome(Some(lhs), Continues(ts, i), [])
  {
  }

  lemma LoopAtInfix(ts: seq<Token>, i: nat, lhs: Expr, minBp: nat, restrict: bool, op: Op)
    requires i <= |ts|
    requires var j := Continues(ts, i); j < |ts| && InfixOf(ts[j]) == Some(op)
    ensures var j := Continues(ts, i);
            ParseLoop(ts, i, lhs, minBp, restrict) ==
            if LeftPower(op) < minBp then Outcome(Some(lhs), j, []) else
              var rhs := Require(ParseExpr(ts, j + 1, RightPower(op), restrict));
              if rhs.expr == None then rhs else
                var o := ParseLoop(ts, rhs.pos, Binary(op, lhs, rhs.expr.value), minBp, restrict);
                o.(errs := rhs.errs + o.errs)
  {
    hide ParseExpr, Continues;
  }

  lemma LoopAtDot(ts: seq<Token>, i: nat, lhs: Expr, minBp: nat, restrict: bool)
    requires i <= |ts|
    requires var j := Continues(ts, i); j < |ts| && ts[j] == Dot
    ensures var j := Continues(ts, i);
            ParseLoop(ts, i, lhs, minBp, restrict) ==
            if DOT_LEFT < minBp then Outcome(Some(lhs), j, []) else
              match ParseAccessor(ts, j + 1)
              case None => Outcome(None, j + 1, [InvalidExpressionAfterDot])
              case Some(a) => ParseLoop(ts, j + 2, Access(lhs, a), minBp, restrict)
  {
    hide ParseExpr, Continues;
  }

  lemma LoopAtArgument(ts: seq<Token>, i: nat, lhs: Expr, minBp: nat, restrict: bool)
    requires i <= |ts|
    requires var j := Continues(ts, i); j < |ts| && InfixOf(ts[j]) == None && CanStartExpression(ts[j])
    ensures var j := Continues(ts, i);
            ParseLoop(ts, i, lhs, minBp, restrict) ==
            if CALL_LEFT < minBp then Outcome(Some(lhs), j, []) else
              var args := ParseArgs(ts, j, restrict);
              if args.items == [] then Outcome(Some(lhs), args.pos, args.errs) else
                var o := ParseLoop(ts, args.pos, Call(lhs, args.items), minBp, restrict);
                o.(errs := args.errs + o.errs)
  {
    hide ParseArgs, Continues;
  }

  lemma FieldsUnfold(ts: seq<Token>, i: nat)
    requires i < |ts| && ts[i].IdentTok?
    ensures ParseFields(ts, i) ==
            var value := FieldValue(ts, i);
            if value.expr == None then Fields([], value.pos, value.errs, false) else
              var field := Field(ts[i].name, value.expr.value);
              match NextEntry(ts, value.pos)
              case Some(j) =>
                var rest := ParseFields(ts, j);
                Fields([field] + rest.items, rest.pos, value.errs + rest.errs, rest.ok)
              case None => Fields([field], value.pos, value.errs, true)
  {
    hide ParseExpr, ParsePrimary, ParseLoop, ParseArgs, ParseParenthetical, ParseEntries, ParseRecord, SkipBreaks;
  }

  lemma EntriesUnfold(ts: seq<Token>, i: nat)
    requires i <= |ts|
    ensures ParseEntries(ts, i) ==
            var entry := ParseExpr(ts, i, 0, false);
            if entry.expr == None then Entries([], entry.pos, entry.errs) else
              match NextEntry(ts, entry.pos)
              case Some(j) =>
                var rest := ParseEntries(ts, j);
                Entries([entry.expr.value] + rest.items, rest.pos, entry.errs + rest.errs)
              case None => Entries([entry.expr.value], entry.pos, entry.errs)
  {
    hide ParseExpr, SkipBreaks;
  }

  lemma NoFields(ts: seq<Token>, i: nat)
    requires i <= |ts| && (i == |ts| || !ts[i].IdentTok?)
    ensures ParseFields(ts, i) == Fields([], i, [], true)
  {
  }

  lemma SkipPast(ts: seq<Token>, i: nat)
    requires At(ts, i) == Some(Break)
    ensures SkipBreaks(ts, i) > i
  {
  }

  lemma Assoc<T>(a: seq<T>, b: seq<T>, c: seq<T>)
    ensures (a + b) + c == a + (b + c)
  {
  }

  class ExpressionParser {
    const tokens: seq<Token>
    var pos: nat
    var errors: seq<ParseError>

    constructor (ts: seq<Token>)
      ensures tokens == ts && pos == 0 && errors == [] && Valid()
    {
      tokens, pos, errors := ts, 0, [];
    }

    predicate Valid()
      reads this
    {
      pos <= |tokens|
    }

    function Current(): Option<Token>
      requires Valid()
      reads this
    {
      At(tokens, pos)
    }

    method SkipLineBreaks()
      requires Valid()
      modifies this`pos
      ensures Valid() && pos == SkipBreaks(tokens, old(pos))
    {
      while pos < |tokens| && tokens[pos] == Break
        invariant Valid() && SkipBreaks(tokens, pos) == SkipBreaks(tokens, old(pos))
        decreases |tokens| - pos
      {
        pos := pos + 1;
      }
    }

    /** The first token that is not a line break, without consuming anything. */
    method PeekPastBreaks() returns (t: Option<Token>)
      requires Valid()
      ensures t == At(tokens, SkipBreaks(tokens, pos))
    {
      var i := pos;
      while i < |tokens| && tokens[i] == Break
        invariant i <= |tokens| && SkipBreaks(tokens, i) == SkipBreaks(tokens, pos)
        decreases |tokens| - i
      {
        i := i + 1;
      }
      t := At(tokens, i);
    }

    method RequireExpression(parsed: Option<Expr>, errorsBefore: nat)
      returns (r: Option<Expr>)
      requires Valid() && errorsBefore <= |errors|
      modifies this`errors
      ensures r == parsed
      ensures errors == old(errors) + if parsed == None && |old(errors)| == errorsBefore then [ExpectedExpression] else []
    {
      if parsed == None && |errors| == errorsBefore { errors := errors + [ExpectedExpression]; }
      r := parsed;
    }

    method Expect(t: Token) returns (ok: bool)
      requires Valid()
      modifies this
      ensures Valid() && ok == (At(tokens, old(pos)) == Some(t))
      ensures pos == (if ok then old(pos) + 1 else old(pos))
      ensures errors == old(errors) + if ok then [] else [UnexpectedToken(t)]
    {
      ok := Current() == Some(t);
      if ok { pos := pos + 1; } else { errors := errors + [UnexpectedToken(t)]; }
    }

    method ParsePrimaryExpression(restrict: bool) returns (r: Option<Expr>)
      requires Valid()
      modifies this
      ensures var o := ParsePrimary(tokens, old(pos), restrict);
              Valid() && r == o.expr && pos == o.pos && errors == old(errors) + o.errs
      decreases |tokens| - pos, 3
    {
      hide ParseExpr, ParseLoop, ParseArgs, ParseParenthetical, ParseEntries, ParseRecord, ParseFields;
      if pos == |tokens| {
        r := None;
      } else if tokens[pos] == LeftParen {
        r := ParseParentheses();
      } else if tokens[pos] == LeftBrace && !restrict {
        r := ParseRecordLiteral();
      } else if tokens[pos].IdentTok? {
        r := Some(Ident(tokens[pos].name));
        pos := pos + 1;
      } else if tokens[pos].DigitsTok? {
        r := ParseDecimalNumber();
      } else if tokens[pos].LiteralTok? {
        r := Some(Literal(tokens[pos].code));
        pos := pos + 1;
      } else if tokens[pos] == Dot {
        r := ParseImplicitMember();
      } else if PrefixOf(tokens[pos]).Some? {
        var p := PrefixOf(tokens[pos]).value;
        var errorsBefore := |errors|;
        pos := pos + 1;
        r := ParseExpressionWithBindingPower(PrefixPower(p), restrict);
        r := RequireExpression(r, errorsBefore);
        if r.Some? { r := Some(Unary(p, r.value)); }
      } else {
        r := None;
      }
    }

    method ParseDecimalNumber() returns (r: Option<Expr>)
      requires Valid() && pos < |tokens| && tokens[pos].DigitsTok?
      modifies this
      ensures var o := ParseNumber(tokens, old(pos));
              Valid() && r == o.expr && pos == o.pos && errors == old(errors) + o.errs
    {
      var whole := tokens[pos].value;
      pos := pos + 1;
      if Current() == Some(Dot) {
        pos := pos + 1;
        if pos < |tokens| && tokens[pos].DigitsTok? {
          r := Some(Float(whole, tokens[pos].value));
          pos := pos + 1;
        } else {
          errors := errors + [ExpectedDigits];
          r := None;
        }
      } else {
        r := Some(Number(whole));
      }
    }

    /** `.member` where no `using` block is open. */
    method ParseImplicitMember() returns (r: Option<Expr>)
      requires Valid() && Current() == Some(Dot)
      modifies this
      ensures var o := ParseLeadingDot(tokens, old(pos));
              Valid() && r == o.expr && pos == o.pos && errors == old(errors) + o.errs
    {
      pos := pos + 1;
      r := None;
      if pos < |tokens| && tokens[pos].IdentTok? {
        pos := pos + 1;
        errors := errors + [LeadingDotOutsideUsing];
      } else {
        errors := errors + [ExpectedIdentifier];
      }
    }

    method ParseExpressionWithBindingPower(minBp: nat, restrict: bool) returns (r: Option<Expr>)
      requires Valid()
      modifies this
      ensures var o := ParseExpr(tokens, old(pos), minBp, restrict);
              Valid() && r == o.expr && pos == o.pos && errors == old(errors) + o.errs
      decreases |tokens| - pos, 4
    {
      hide ParsePrimary, ParseLoop, ParseArgs, ParseParenthetical, ParseEntries, ParseRecord, ParseFields, SkipBreaks;
      r := ParsePrimaryExpression(restrict);
      if r == None { return; }
      var done := false;
      ghost var goal := ParseExpr(tokens, old(pos), minBp, restrict);
      while !done
        invariant Valid() && pos > old(pos)
        invariant if done then r == goal.expr && pos == goal.pos && errors == old(errors) + goal.errs
                  else r.Some? && var o := ParseLoop(tokens, pos, r.value, minBp, restrict);
                       goal.expr == o.expr && goal.pos == o.pos && errors + o.errs == old(errors) + goal.errs
        decreases !done, |tokens| - pos
      {
        done, r := ContinueExpression(r.value, minBp, restrict);
      }
    }

    /** One turn of the operator loop. */
    method ContinueExpression(lhs: Expr, minBp: nat, restrict: bool) returns (done: bool, r: Option<Expr>)
      requires Valid()
      modifies this
      ensures Valid() && pos >= old(pos) && (!done ==> pos > old(pos) && r.Some?)
      ensures var whole := ParseLoop(tokens, old(pos), lhs, minBp, restrict);
              if done then r == whole.expr && pos == whole.pos && errors == old(errors) + whole.errs
              else var o := ParseLoop(tokens, pos, r.value, minBp, restrict);
                   whole.expr == o.expr && whole.pos == o.pos && errors + o.errs == old(errors) + whole.errs
      decreases |tokens| - pos, 6
    {
      hide ParseExpr, ParsePrimary, ParseLoop, ParseArgs, ParseParenthetical, ParseEntries, ParseRecord, ParseFields, SkipBreaks, Continues;
      done, r := true, Some(lhs);
      SkipToOperator();
      if pos == |tokens| { LoopStops(tokens, old(pos), lhs, minBp, restrict); return; }
      var token := tokens[pos];
      if InfixOf(token).Some? {
        var op := InfixOf(token).value;
        LoopAtInfix(tokens, old(pos), lhs, minBp, restrict, op);
        if LeftPower(op) < minBp { return; }
        var errorsBefore := |errors|;
        pos := pos + 1;
        var rhs := ParseExpressionWithBindingPower(RightPower(op), restrict);
        rhs := RequireExpression(rhs, errorsBefore);
        if rhs == None { return true, None; }
        ghost var more := ParseLoop(tokens, pos, Binary(op, lhs, rhs.value), minBp, restrict).errs;
        Assoc(old(errors), errors[|old(errors)|..], more);
        return false, Some(Binary(op, lhs, rhs.value));
      } else if token == Dot {
        LoopAtDot(tokens, old(pos), lhs, minBp, restrict);
        if DOT_LEFT < minBp { return; }
        pos := pos + 1;
        var accessor := ParseFieldOrElementAccess();
        if accessor == None { return true, None; }
        return false, Some(Access(lhs, accessor.value));
      } else if CanStartExpression(token) {
        LoopAtArgument(tokens, old(pos), lhs, minBp, restrict);
        if CALL_LEFT < minBp { return; }
        var args := ParseCallArguments(restrict);
        if args == [] { return; }
        ghost var more := ParseLoop(tokens, pos, Call(lhs, args), minBp, restrict).errs;
        Assoc(old(errors), errors[|old(errors)|..], more);
        return false, Some(Call(lhs, args));
      } else {
        LoopStops(tokens, old(pos), lhs, minBp, restrict);
      }
    }

    /** Pass over line breaks when an operator follows them. */
    method SkipToOperator()
      requires Valid()
      modifies this`pos
      ensures Valid() && pos == Continues(tokens, old(pos))
    {
      if Current() == Some(Break) {
        var next := PeekPastBreaks();
        if next.Some? && IsOperator(next.value) { SkipLineBreaks(); }
      }
    }

    method ParseFieldOrElementAccess() returns (r: Option<Accessor>)
      requires Valid()
      modifies this
      ensures Valid() && r == ParseAccessor(tokens, old(pos))
      ensures pos == (if r.Some? then old(pos) + 1 else old(pos))
      ensures errors == old(errors) + if r.Some? then [] else [InvalidExpressionAfterDot]
    {
      r := ParseAccessor(tokens, pos);
      if r.Some? { pos := pos + 1; } else { errors := errors + [InvalidExpressionAfterDot]; }
    }

    method ParseCallArguments(restrict: bool) returns (args: seq<Expr>)
      requires Valid()
      modifies this
      ensures var o := ParseArgs(tokens, old(pos), restrict);
              Valid() && args == o.items && pos == o.pos && errors == old(errors) + o.errs
      decreases |tokens| - pos, 5
    {
      hide ParseExpr, ParsePrimary, ParseLoop, ParseArgs, ParseParenthetical, ParseEntries, ParseRecord, ParseFields;
      args := [];
      var more := true;
      ghost var goal := ParseArgs(tokens, pos, restrict);
      while more
        invariant Valid() && pos >= old(pos)
        invariant var o := if more then ParseArgs(tokens, pos, restrict) else Entries([], pos, []);
                  goal.items == args + o.items && goal.pos == o.pos && errors + o.errs == old(errors) + goal.errs
        decreases more, |tokens| - pos
      {
        more, args := ParseArgument(args, restrict);
      }
      assert args + [] == args && errors + [] == errors;
    }

    /** One turn of the argument loop. */
    method ParseArgument(args: seq<Expr>, restrict: bool) returns (more: bool, args': seq<Expr>)
      requires Valid()
      modifies this
      ensures Valid() && pos >= old(pos) && (more ==> pos > old(pos))
      ensures var whole := ParseArgs(tokens, old(pos), restrict);
              var o := if more then ParseArgs(tokens, pos, restrict) else Entries([], pos, []);
              args + whole.items == args' + o.items && whole.pos == o.pos && errors + o.errs == old(errors) + whole.errs
      decreases |tokens| - pos, 5, 0
    {
      hide ParseExpr, ParsePrimary, ParseLoop, ParseParenthetical, ParseEntries, ParseRecord, ParseFields;
      more, args' := false, args;
      if Current() == Some(Minus) { return; }
      var arg := ParseExpressionWithBindingPower(CALL_RIGHT, restrict);
      if arg.Some? {
        more, args' := true, args + [arg.value];
      }
    }

    method ParseParentheses() returns (r: Option<Expr>)
      requires Valid() && Current() == Some(LeftParen)
      modifies this
      ensures var o := ParseParenthetical(tokens, old(pos));
              Valid() && r == o.expr && pos == o.pos && errors == old(errors) + o.errs
      decreases |tokens| - pos, 2
    {
      hide ParseExpr, ParsePrimary, ParseLoop, ParseArgs, ParseRecord, ParseFields, ParseEntries, SkipBreaks;
      pos := pos + 1;
      SkipLineBreaks();
      var entries: seq<Expr>, more := [], true;
      ghost var start := pos;
      ghost var goal := ParseEntries(tokens, start);
      while more
        invariant Valid() && pos >= start
        invariant var o := if more then ParseEntries(tokens, pos) else Entries([], pos, []);
                  goal.items == entries + o.items && goal.pos == o.pos && errors + o.errs == old(errors) + goal.errs
        decreases more, |tokens| - pos
      {
        more, entries := ParseEntry(entries);
      }
      assert entries + [] == entries && errors + [] == errors;
      SkipLineBreaks();
      var ok := Expect(RightParen);
      if !ok { return None; }
      if entries == [] { return Some(EmptyTuple); }
      if |entries| == 1 { return Some(Grouping(entries[0])); }
      return Some(Tuple(entries, false));
    }

    /** One turn of the entry loop. */
    method ParseEntry(entries: seq<Expr>) returns (more: bool, entries': seq<Expr>)
      requires Valid()
      modifies this
      ensures Valid() && pos >= old(pos) && (more ==> pos > old(pos))
      ensures var whole := ParseEntries(tokens, old(pos));
              var o := if more then ParseEntries(tokens, pos) else Entries([], pos, []);
              entries + whole.items == entries' + o.items && whole.pos == o.pos && errors + o.errs == old(errors) + whole.errs
      decreases |tokens| - pos, 5
    {
      hide ParseExpr, ParsePrimary, ParseLoop, ParseArgs, ParseParenthetical, ParseEntries, ParseRecord, ParseFields, SkipBreaks;
      more, entries' := false, entries;
      EntriesUnfold(tokens, pos);
      var entry := ParseExpressionWithBindingPower(0, false);
      if entry == None { return; }
      entries' := entries + [entry.value];
      ghost var after := pos;
      if Current() == Some(Comma) {
        pos := pos + 1;
        SkipLineBreaks();
        more := true;
      } else if Current() == Some(Break) {
        SkipPast(tokens, pos);
        SkipLineBreaks();
        more := true;
      }
      assert NextEntry(tokens, after) == if more then Some(pos) else None;
      if more {
        ghost var rest := ParseEntries(tokens, pos);
        Assoc(old(errors), errors[|old(errors)|..], rest.errs);
        Assoc(entries, [entry.value], rest.items);
      }
    }

    method ParseRecordLiteral() returns (r: Option<Expr>)
      requires Valid() && Current() == Some(LeftBrace)
      modifies this
      ensures var o := ParseRecord(tokens, old(pos));
              Valid() && r == o.expr && pos == o.pos && errors == old(errors) + o.errs
      decreases |tokens| - pos, 2
    {
      hide ParseExpr, ParsePrimary, ParseLoop, ParseArgs, ParseParenthetical, ParseEntries, ParseFields, SkipBreaks;
      pos := pos + 1;
      SkipLineBreaks();
      var entries: seq<Field>, more, ok := [], true, true;
      ghost var start := pos;
      ghost var goal := ParseFields(tokens, start);
      while more
        invariant Valid() && pos >= start && (more ==> ok)
        invariant var o := if more then ParseFields(tokens, pos) else Fields([], pos, [], ok);
                  goal.items == entries + o.items && goal.pos == o.pos && goal.ok == o.ok && errors + o.errs == old(errors) + goal.errs
        decreases more, |tokens| - pos
      {
        more, entries, ok := ParseField(entries);
      }
      assert entries + [] == entries && errors + [] == errors;
      if !ok { return None; }
      SkipLineBreaks();
      ok := Expect(RightBrace);
      if !ok { return None; }
      return Some(Record(entries, false));
    }

    /** One turn of the field loop; not `ok` when a field's value could not be parsed. */
    method ParseField(entries: seq<Field>) returns (more: bool, entries': seq<Field>, ok: bool)
      requires Valid()
      modifies this
      ensures Valid() && pos >= old(pos) && (more ==> pos > old(pos) && ok)
      ensures var whole := ParseFields(tokens, old(pos));
              var o := if more then ParseFields(tokens, pos) else Fields([], pos, [], ok);
              && entries + whole.items == entries' + o.items && whole.pos == o.pos && whole.ok == o.ok
              && errors + o.errs == old(errors) + whole.errs
      decreases |tokens| - pos, 5
    {
      hide ParseExpr, ParsePrimary, ParseLoop, ParseArgs, ParseParenthetical, ParseRecord, ParseEntries, ParseFields, SkipBreaks;
      more, entries', ok := false, entries, true;
      if pos == |tokens| || !tokens[pos].IdentTok? { NoFields(tokens, pos); return; }
      FieldsUnfold(tokens, pos);
      var name := tokens[pos].name;
      var value := ParseFieldValue();
      if value == None { ok := false; return; }
      entries' := entries + [Field(name, value.value)];
      ghost var after := pos;
      if Current() == Some(Comma) {
        pos := pos + 1;
        SkipLineBreaks();
        more := true;
      } else if Current() == Some(Break) {
        SkipPast(tokens, pos);
        SkipLineBreaks();
        more := true;
      }
      assert NextEntry(tokens, after) == if more then Some(pos) else None;
      if more {
        ghost var rest := ParseFields(tokens, pos);
        Assoc(old(errors), errors[|old(errors)|..], rest.errs);
        Assoc(entries, [Field(name, value.value)], rest.items);
      }
    }

    /** The value after a field's name; without a colon the name stands for itself. */
    method ParseFieldValue() returns (value: Option<Expr>)
      requires Valid() && pos < |tokens| && tokens[pos].IdentTok?
      modifies this
      ensures var o := FieldValue(tokens, old(pos));
              Valid() && value == o.expr && pos == o.pos && errors == old(errors) + o.errs
      decreases |tokens| - pos, 5, 0
    {
      hide ParseExpr;
      value := Some(Ident(tokens[pos].name));
      pos := pos + 1;
      if Current() == Some(Colon) {
        pos := pos + 1;
        value := ParseExpressionWithBindingPower(0, false);
      }
    }
  }
}
