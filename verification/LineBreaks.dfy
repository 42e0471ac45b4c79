/** Line breaks inside an expression: put before infix operators and dots they change nothing,
    and before anything else they end it. */
module LineBreaks {
  import opened Syntax
  import opened Wrappers
  import opened Parser
  import opened Printer
  import opened Reading
  import opened RoundTrip

  // ----- inserting line breaks -----

  /** The token ends an operand. */
  predicate EndsOperand(t: Token) { t.IdentTok? || t.DigitsTok? || t.LiteralTok? || t == RightParen || t == RightBrace }

  /** An infix operator or the dot of an access stands at `k`: behind an operand, and the dot
      not behind digits that it could be the decimal point of. */
  predicate Splits(ts: seq<Token>, k: nat)
    requires k < |ts|
  {
    && (InfixOf(ts[k]).Some? || ts[k] == Dot) && k > 0 && EndsOperand(ts[k - 1])
    && (ts[k] == Dot && ts[k - 1].DigitsTok? ==> k > 1 && ts[k - 2] == Dot)
  }

  /** `gaps[k]` line breaks are put before the `k`th token: any number before an operator or a
      dot, and none elsewhere. */
  predicate Gaps(ts: seq<Token>, gaps: seq<nat>): (g: bool)
    ensures g ==> |gaps| == |ts|
  {
    |gaps| == |ts| && forall k :: 0 <= k < |ts| && gaps[k] > 0 ==> Splits(ts, k)
  }

  function Breaks(n: nat): (r: seq<Token>)
    ensures |r| == n && forall k :: 0 <= k < n ==> r[k] == Break
  {
    seq(n, _ => Break)
  }

  function Spread(ts: seq<Token>, gaps: seq<nat>): seq<Token>
    requires |gaps| == |ts|
  {
    if ts == [] then [] else Breaks(gaps[0]) + ([ts[0]] + Spread(ts[1..], gaps[1..]))
  }

  /** Where the `i`th token's gap begins, and where the token itself stands. */
  function Behind(gaps: seq<nat>, i: nat): nat
    requires i <= |gaps|
  {
    if i == 0 then 0 else gaps[0] + 1 + Behind(gaps[1..], i - 1)
  }

  function To(gaps: seq<nat>, i: nat): (k: nat)
    requires i <= |gaps|
    ensures Behind(gaps, i) <= k
  {
    Behind(gaps, i) + if i < |gaps| then gaps[i] else 0
  }

  lemma {:induction false} Places(ts: seq<Token>, gaps: seq<nat>, i: nat)
    requires |gaps| == |ts| && i <= |ts|
    ensures var us := Spread(ts, gaps);
            && Behind(gaps, i) <= To(gaps, i) <= |us| && (i == |ts| ==> To(gaps, i) == |us|)
            && (i < |ts| ==> To(gaps, i) < |us| && us[To(gaps, i)] == ts[i] && Behind(gaps, i + 1) == To(gaps, i) + 1)
            && (forall k :: Behind(gaps, i) <= k < To(gaps, i) ==> us[k] == Break)
    decreases |ts|
  {
    var us := Spread(ts, gaps);
    if i == 0 {
      if ts != [] {
        assert us[gaps[0]] == ts[0];
        assert Behind(gaps, 1) == gaps[0] + 1 + Behind(gaps[1..], 0);
      }
    } else {
      Places(ts[1..], gaps[1..], i - 1);
      var rest := Spread(ts[1..], gaps[1..]);
      assert forall k :: 0 <= k < |rest| ==> us[gaps[0] + 1 + k] == rest[k];
      assert To(gaps, i) == gaps[0] + 1 + To(gaps[1..], i - 1);
      if i < |ts| { assert Behind(gaps, i + 1) == gaps[0] + 1 + Behind(gaps[1..], i); }
      forall k | Behind(gaps, i) <= k < To(gaps, i) ensures us[k] == Break {
        assert us[k] == rest[k - gaps[0] - 1];
      }
    }
  }

  /** No gap is next: the token stands right behind the one before. */
  lemma NoGap(ts: seq<Token>, gaps: seq<nat>, i: nat)
    requires Gaps(ts, gaps) && i < |ts| && (i + 1 < |ts| ==> !Splits(ts, i + 1))
    ensures To(gaps, i) + 1 == To(gaps, i + 1) == Behind(gaps, i + 1)
  {
    Places(ts, gaps, i);
    Places(ts, gaps, i + 1);
  }

  lemma {:induction false} SkipsTo(us: seq<Token>, p: nat, q: nat)
    requires p <= q <= |us| && (forall k :: p <= k < q ==> us[k] == Break) && At(us, q) != Some(Break)
    ensures SkipBreaks(us, p) == q
    decreases q - p
  {
    if p < q { SkipsTo(us, p + 1, q); }
  }

  /** Skipping line breaks ends at the same token. */
  lemma {:induction false} SkipSame(ts: seq<Token>, gaps: seq<nat>, i: nat, p: nat)
    requires Gaps(ts, gaps) && i <= |ts| && Behind(gaps, i) <= p <= To(gaps, i)
    ensures p <= |Spread(ts, gaps)| && SkipBreaks(Spread(ts, gaps), p) == To(gaps, SkipBreaks(ts, i))
    decreases |ts| - i
  {
    var us := Spread(ts, gaps);
    Places(ts, gaps, i);
    if At(ts, i) == Some(Break) {
      assert gaps[i] == 0;
      Places(ts, gaps, i + 1);
      SkipSame(ts, gaps, i + 1, p + 1);
    } else {
      SkipsTo(us, p, To(gaps, i));
    }
  }

  /** Digits at `i` are no index: no dot stands before them. */
  predicate NoIndex(ts: seq<Token>, i: nat) { i < |ts| && ts[i].DigitsTok? && i > 0 ==> ts[i - 1] != Dot }

  lemma {:induction false} SkippedNoIndex(ts: seq<Token>, i: nat)
    requires i <= |ts| && NoIndex(ts, i)
    ensures NoIndex(ts, SkipBreaks(ts, i))
    decreases |ts| - i
  {
    if At(ts, i) == Some(Break) { SkippedNoIndex(ts, i + 1); }
  }

  lemma ContinuesSame(ts: seq<Token>, gaps: seq<nat>, i: nat, p: nat)
    requires Gaps(ts, gaps) && i <= |ts| && Behind(gaps, i) <= p <= To(gaps, i) && NoIndex(ts, i)
    ensures p <= |Spread(ts, gaps)| && Continues(Spread(ts, gaps), p) == To(gaps, Continues(ts, i)) && NoIndex(ts, Continues(ts, i))
  {
    var us := Spread(ts, gaps);
    Places(ts, gaps, i);
    SkipSame(ts, gaps, i, p);
    SkippedNoIndex(ts, i);
    Places(ts, gaps, SkipBreaks(ts, i));
  }

  // ----- the parser over both -----

  /** The same expression and no diagnostics, ending at the same token. */
  ghost predicate Same(ts: seq<Token>, gaps: seq<nat>, o: Outcome, o': Outcome)
    requires |gaps| == |ts|
  {
    o.pos <= |ts| && o' == Outcome(o.expr, To(gaps, o.pos), o.errs) && NoIndex(ts, o.pos)
  }

  ghost predicate SameEntries(ts: seq<Token>, gaps: seq<nat>, r: Entries, r': Entries)
    requires |gaps| == |ts|
  {
    r.pos <= |ts| && r' == Entries(r.items, To(gaps, r.pos), r.errs) && NoIndex(ts, r.pos)
  }

  ghost predicate SameFields(ts: seq<Token>, gaps: seq<nat>, r: Fields, r': Fields)
    requires |gaps| == |ts|
  {
    r.pos <= |ts| && r' == Fields(r.items, To(gaps, r.pos), r.errs, r.ok) && NoIndex(ts, r.pos)
  }

  lemma {:induction false} ExprSame(ts: seq<Token>, gaps: seq<nat>, i: nat, minBp: nat, restrict: bool)
    requires Gaps(ts, gaps) && i <= |ts| && NoIndex(ts, i) && ParseExpr(ts, i, minBp, restrict).errs == []
    ensures To(gaps, i) <= |Spread(ts, gaps)| && Same(ts, gaps, ParseExpr(ts, i, minBp, restrict), ParseExpr(Spread(ts, gaps), To(gaps, i), minBp, restrict))
    decreases |ts| - i, 4
  {
    hide ParsePrimary, ParseLoop, ParseArgs, ParseParenthetical, ParseEntries, ParseRecord, ParseFields, Spread, To, Behind, Gaps;
    Places(ts, gaps, i);
    PrimarySame(ts, gaps, i, restrict);
    var first, first' := ParsePrimary(ts, i, restrict), ParsePrimary(Spread(ts, gaps), To(gaps, i), restrict);
    if first.expr.Some? { LoopSame(ts, gaps, first.pos, first'.pos, first.expr.value, minBp, restrict); }
  }

  lemma {:induction false} PrimarySame(ts: seq<Token>, gaps: seq<nat>, i: nat, restrict: bool)
    requires Gaps(ts, gaps) && i <= |ts| && NoIndex(ts, i) && ParsePrimary(ts, i, restrict).errs == []
    ensures To(gaps, i) <= |Spread(ts, gaps)|
    ensures var o, o' := ParsePrimary(ts, i, restrict), ParsePrimary(Spread(ts, gaps), To(gaps, i), restrict);
            && o.pos <= |ts| && o'.expr == o.expr && o'.errs == [] && NoIndex(ts, o.pos)
            && Behind(gaps, o.pos) <= o'.pos <= To(gaps, o.pos) && (o.expr == None ==> o'.pos == To(gaps, o.pos))
    decreases |ts| - i, 3
  {
    hide ParseExpr, ParseLoop, ParseArgs, ParseParenthetical, ParseEntries, ParseRecord, ParseFields, ParseNumber, Spread, To, Behind, Gaps;
    Places(ts, gaps, i);
    if i < |ts| {
      Places(ts, gaps, i + 1);
      if ts[i] == LeftParen {
        ParentheticalSame(ts, gaps, i);
      } else if ts[i] == LeftBrace && !restrict {
        RecordSame(ts, gaps, i);
      } else if ts[i].DigitsTok? {
        NumberSame(ts, gaps, i);
      } else if PrefixOf(ts[i]).Some? {
        NoGap(ts, gaps, i);
        ExprSame(ts, gaps, i + 1, PrefixPower(PrefixOf(ts[i]).value), restrict);
      }
    }
  }

  lemma NumberSame(ts: seq<Token>, gaps: seq<nat>, i: nat)
    requires Gaps(ts, gaps) && i < |ts| && ts[i].DigitsTok? && NoIndex(ts, i) && ParseNumber(ts, i).errs == []
    ensures To(gaps, i) < |Spread(ts, gaps)| && Spread(ts, gaps)[To(gaps, i)] == ts[i]
    ensures var o, o' := ParseNumber(ts, i), ParseNumber(Spread(ts, gaps), To(gaps, i));
            o.pos <= |ts| && o' == Outcome(o.expr, Behind(gaps, o.pos), []) && o.expr.Some? && NoIndex(ts, o.pos)
  {
    hide Spread, To, Behind;
    Places(ts, gaps, i);
    Places(ts, gaps, i + 1);
    if At(ts, i + 1) == Some(Dot) {
      assert !Splits(ts, i + 1);
      NoGap(ts, gaps, i);
      NoGap(ts, gaps, i + 1);
      Places(ts, gaps, i + 2);
    }
  }

  lemma {:induction false} ParentheticalSame(ts: seq<Token>, gaps: seq<nat>, i: nat)
    requires Gaps(ts, gaps) && i < |ts| && ts[i] == LeftParen && ParseParenthetical(ts, i).errs == []
    ensures To(gaps, i) < |Spread(ts, gaps)| && Spread(ts, gaps)[To(gaps, i)] == LeftParen
    ensures var o, o' := ParseParenthetical(ts, i), ParseParenthetical(Spread(ts, gaps), To(gaps, i));
            o.pos <= |ts| && o' == Outcome(o.expr, Behind(gaps, o.pos), []) && o.expr.Some? && NoIndex(ts, o.pos)
    decreases |ts| - i, 2
  {
    hide ParseExpr, ParsePrimary, ParseLoop, ParseArgs, ParseEntries, ParseRecord, ParseFields, Spread, To, Behind, Gaps, SkipBreaks;
    var k := SkipBreaks(ts, i + 1);
    Places(ts, gaps, i);
    SkipSame(ts, gaps, i + 1, To(gaps, i) + 1);
    SkippedNoIndex(ts, i + 1);
    EntriesSame(ts, gaps, k);
    var entries := ParseEntries(ts, k);
    Places(ts, gaps, entries.pos);
    SkipSame(ts, gaps, entries.pos, To(gaps, entries.pos));
    Places(ts, gaps, SkipBreaks(ts, entries.pos));
  }

  /** Where a list goes on after an entry. */
  lemma NextSame(ts: seq<Token>, gaps: seq<nat>, i: nat)
    requires Gaps(ts, gaps) && i <= |ts|
    ensures var us := Spread(ts, gaps);
            && To(gaps, i) <= |us|
            && NextEntry(us, To(gaps, i)) == (match NextEntry(ts, i) case None => None case Some(j) => Some(To(gaps, j)))
            && (NextEntry(ts, i).Some? ==> NoIndex(ts, NextEntry(ts, i).value))
  {
    hide Spread, To, Behind, Gaps, SkipBreaks;
    Places(ts, gaps, i);
    if At(ts, i) == Some(Comma) {
      SkipSame(ts, gaps, i + 1, To(gaps, i) + 1);
      SkippedNoIndex(ts, i + 1);
    } else if At(ts, i) == Some(Break) {
      SkipSame(ts, gaps, i, To(gaps, i));
      SkippedNoIndex(ts, i);
    }
  }

  lemma {:induction false} EntriesSame(ts: seq<Token>, gaps: seq<nat>, i: nat)
    requires Gaps(ts, gaps) && i <= |ts| && NoIndex(ts, i) && ParseEntries(ts, i).errs == []
    ensures To(gaps, i) <= |Spread(ts, gaps)| && SameEntries(ts, gaps, ParseEntries(ts, i), ParseEntries(Spread(ts, gaps), To(gaps, i)))
    decreases |ts| - i, 5
  {
    hide ParseExpr, ParsePrimary, ParseLoop, ParseArgs, ParseParenthetical, ParseRecord, ParseFields, Spread, To, Behind, Gaps, NextEntry;
    Places(ts, gaps, i);
    ExprSame(ts, gaps, i, 0, false);
    var entry := ParseExpr(ts, i, 0, false);
    if entry.expr.Some? {
      NextSame(ts, gaps, entry.pos);
      if NextEntry(ts, entry.pos).Some? { EntriesSame(ts, gaps, NextEntry(ts, entry.pos).value); }
    }
  }

  lemma {:induction false} RecordSame(ts: seq<Token>, gaps: seq<nat>, i: nat)
    requires Gaps(ts, gaps) && i < |ts| && ts[i] == LeftBrace && ParseRecord(ts, i).errs == []
    ensures To(gaps, i) < |Spread(ts, gaps)| && Spread(ts, gaps)[To(gaps, i)] == LeftBrace
    ensures var o, o' := ParseRecord(ts, i), ParseRecord(Spread(ts, gaps), To(gaps, i));
            && o.pos <= |ts| && o'.expr == o.expr && o'.errs == [] && NoIndex(ts, o.pos)
            && o'.pos == if o.expr == None then To(gaps, o.pos) else Behind(gaps, o.pos)
    decreases |ts| - i, 2
  {
    hide ParseExpr, ParsePrimary, ParseLoop, ParseArgs, ParseEntries, ParseParenthetical, ParseFields, Spread, To, Behind, Gaps, SkipBreaks;
    var k := SkipBreaks(ts, i + 1);
    Places(ts, gaps, i);
    SkipSame(ts, gaps, i + 1, To(gaps, i) + 1);
    SkippedNoIndex(ts, i + 1);
    var fields := ParseFields(ts, k);
    FieldsSame(ts, gaps, k);
    Places(ts, gaps, fields.pos);
    SkipSame(ts, gaps, fields.pos, To(gaps, fields.pos));
    Places(ts, gaps, SkipBreaks(ts, fields.pos));
  }

  /** The closing brace follows, or the fields are given up. */
  predicate Closes(ts: seq<Token>, r: Fields) { r.ok ==> r.pos <= |ts| && At(ts, SkipBreaks(ts, r.pos)) == Some(RightBrace) }

  lemma {:induction false} FieldsSame(ts: seq<Token>, gaps: seq<nat>, i: nat)
    requires Gaps(ts, gaps) && i <= |ts| && NoIndex(ts, i) && ParseFields(ts, i).errs == [] && Closes(ts, ParseFields(ts, i))
    ensures To(gaps, i) <= |Spread(ts, gaps)| && SameFields(ts, gaps, ParseFields(ts, i), ParseFields(Spread(ts, gaps), To(gaps, i)))
    decreases |ts| - i, 5
  {
    hide ParseExpr, ParsePrimary, ParseLoop, ParseArgs, ParseParenthetical, ParseRecord, ParseEntries, Spread, To, Behind, Gaps, FieldValue;
    Places(ts, gaps, i);
    if i < |ts| && ts[i].IdentTok? {
      var value := FieldValue(ts, i);
      assert value.errs == [];
      if At(ts, i + 1) != Some(Colon) { ShorthandEnds(ts, i); }
      ValueSame(ts, gaps, i);
      hide SkipBreaks;
      if value.expr.Some? {
        NextSame(ts, gaps, value.pos);
        hide NextEntry;
        if NextEntry(ts, value.pos).Some? { FieldsSame(ts, gaps, NextEntry(ts, value.pos).value); }
      }
    }
  }

  /** A field without a value is followed by a separator or the brace, not by an operator. */
  lemma ShorthandEnds(ts: seq<Token>, i: nat)
    requires i < |ts| && ts[i].IdentTok? && At(ts, i + 1) != Some(Colon) && Closes(ts, ParseFields(ts, i))
    ensures i + 1 < |ts| ==> !Splits(ts, i + 1)
  {
    hide ParseExpr, ParsePrimary, ParseLoop, ParseArgs, ParseParenthetical, ParseRecord, ParseEntries;
  }

  lemma {:induction false} ValueSame(ts: seq<Token>, gaps: seq<nat>, i: nat)
    requires Gaps(ts, gaps) && i < |ts| && ts[i].IdentTok? && FieldValue(ts, i).errs == []
    requires At(ts, i + 1) != Some(Colon) && i + 1 < |ts| ==> !Splits(ts, i + 1)
    ensures To(gaps, i) < |Spread(ts, gaps)| && Spread(ts, gaps)[To(gaps, i)] == ts[i]
    ensures Same(ts, gaps, FieldValue(ts, i), FieldValue(Spread(ts, gaps), To(gaps, i)))
    decreases |ts| - i, 4
  {
    hide ParseExpr, ParsePrimary, ParseLoop, ParseArgs, ParseParenthetical, ParseRecord, ParseEntries, ParseFields, Spread, To, Behind, Gaps;
    Places(ts, gaps, i);
    NoGap(ts, gaps, i);
    Places(ts, gaps, i + 1);
    if At(ts, i + 1) == Some(Colon) {
      NoGap(ts, gaps, i + 1);
      ExprSame(ts, gaps, i + 2, 0, false);
    }
  }

  lemma {:induction false} ArgsSame(ts: seq<Token>, gaps: seq<nat>, i: nat, restrict: bool)
    requires Gaps(ts, gaps) && i <= |ts| && NoIndex(ts, i) && ParseArgs(ts, i, restrict).errs == []
    ensures To(gaps, i) <= |Spread(ts, gaps)| && SameEntries(ts, gaps, ParseArgs(ts, i, restrict), ParseArgs(Spread(ts, gaps), To(gaps, i), restrict))
    decreases |ts| - i, 5
  {
    hide ParseExpr, ParsePrimary, ParseLoop, ParseParenthetical, ParseRecord, ParseEntries, ParseFields, Spread, To, Behind, Gaps;
    Places(ts, gaps, i);
    if At(ts, i) != Some(Minus) {
      ExprSame(ts, gaps, i, CALL_RIGHT, restrict);
      var arg := ParseExpr(ts, i, CALL_RIGHT, restrict);
      if arg.expr.Some? { ArgsSame(ts, gaps, arg.pos, restrict); }
    }
  }

  lemma {:induction false} LoopSame(ts: seq<Token>, gaps: seq<nat>, i: nat, p: nat, lhs: Expr, minBp: nat, restrict: bool)
    requires Gaps(ts, gaps) && i <= |ts| && Behind(gaps, i) <= p <= To(gaps, i) && NoIndex(ts, i) && ParseLoop(ts, i, lhs, minBp, restrict).errs == []
    ensures p <= |Spread(ts, gaps)| && Same(ts, gaps, ParseLoop(ts, i, lhs, minBp, restrict), ParseLoop(Spread(ts, gaps), p, lhs, minBp, restrict))
    decreases |ts| - i, 7
  {
    hide ParseExpr, ParsePrimary, ParseArgs, ParseParenthetical, ParseEntries, ParseRecord, ParseFields, Continues, Spread, To, Behind, Gaps;
    var j := Continues(ts, i);
    ContinuesSame(ts, gaps, i, p);
    Places(ts, gaps, j);
    if j < |ts| {
      if InfixOf(ts[j]).Some? {
        OperatorSame(ts, gaps, i, p, lhs, minBp, restrict);
      } else if ts[j] == Dot {
        DotSame(ts, gaps, i, p, lhs, minBp, restrict);
      } else if CanStartExpression(ts[j]) {
        CallSame(ts, gaps, i, p, lhs, minBp, restrict);
      }
    }
  }

  /** Where the loop stands in both, once line breaks are passed over. */
  ghost predicate Aligned(ts: seq<Token>, gaps: seq<nat>, i: nat, p: nat)
    requires Gaps(ts, gaps) && i <= |ts|
  {
    && p <= |Spread(ts, gaps)| && Continues(ts, i) < |ts| && Continues(Spread(ts, gaps), p) == To(gaps, Continues(ts, i)) < |Spread(ts, gaps)|
    && Spread(ts, gaps)[To(gaps, Continues(ts, i))] == ts[Continues(ts, i)] && NoIndex(ts, Continues(ts, i))
  }

  lemma {:induction false} OperatorSame(ts: seq<Token>, gaps: seq<nat>, i: nat, p: nat, lhs: Expr, minBp: nat, restrict: bool)
    requires Gaps(ts, gaps) && i <= |ts| && Aligned(ts, gaps, i, p) && ParseLoop(ts, i, lhs, minBp, restrict).errs == []
    requires InfixOf(ts[Continues(ts, i)]).Some?
    ensures Same(ts, gaps, ParseLoop(ts, i, lhs, minBp, restrict), ParseLoop(Spread(ts, gaps), p, lhs, minBp, restrict))
    decreases |ts| - i, 6
  {
    hide ParseExpr, ParsePrimary, ParseArgs, ParseParenthetical, ParseEntries, ParseRecord, ParseFields, ParseAccessor, Continues, Spread, To, Behind, Gaps;
    var j := Continues(ts, i);
    var op := InfixOf(ts[j]).value;
    if LeftPower(op) >= minBp {
      NoGap(ts, gaps, j);
      ExprSame(ts, gaps, j + 1, RightPower(op), restrict);
      var rhs := ParseExpr(ts, j + 1, RightPower(op), restrict);
      if rhs.expr.Some? {
        LoopSame(ts, gaps, rhs.pos, To(gaps, rhs.pos), Binary(op, lhs, rhs.expr.value), minBp, restrict);
      }
    }
  }

  lemma {:induction false} DotSame(ts: seq<Token>, gaps: seq<nat>, i: nat, p: nat, lhs: Expr, minBp: nat, restrict: bool)
    requires Gaps(ts, gaps) && i <= |ts| && Aligned(ts, gaps, i, p) && ParseLoop(ts, i, lhs, minBp, restrict).errs == []
    requires ts[Continues(ts, i)] == Dot
    ensures Same(ts, gaps, ParseLoop(ts, i, lhs, minBp, restrict), ParseLoop(Spread(ts, gaps), p, lhs, minBp, restrict))
    decreases |ts| - i, 6
  {
    hide ParseExpr, ParsePrimary, ParseArgs, ParseParenthetical, ParseEntries, ParseRecord, ParseFields, Continues, Spread, To, Behind, Gaps;
    var j := Continues(ts, i);
    var a := ParseAccessor(ts, j + 1);
    NoGap(ts, gaps, j);
    Places(ts, gaps, j + 1);
    if DOT_LEFT >= minBp && a.Some? {
      Places(ts, gaps, j + 2);
      LoopSame(ts, gaps, j + 2, Behind(gaps, j + 2), Access(lhs, a.value), minBp, restrict);
    }
  }

  lemma {:induction false} CallSame(ts: seq<Token>, gaps: seq<nat>, i: nat, p: nat, lhs: Expr, minBp: nat, restrict: bool)
    requires Gaps(ts, gaps) && i <= |ts| && Aligned(ts, gaps, i, p) && ParseLoop(ts, i, lhs, minBp, restrict).errs == []
    requires var t := ts[Continues(ts, i)]; !InfixOf(t).Some? && t != Dot && CanStartExpression(t)
    ensures Same(ts, gaps, ParseLoop(ts, i, lhs, minBp, restrict), ParseLoop(Spread(ts, gaps), p, lhs, minBp, restrict))
    decreases |ts| - i, 6
  {
    hide ParseExpr, ParsePrimary, ParseArgs, ParseParenthetical, ParseEntries, ParseRecord, ParseFields, ParseAccessor, Continues, Spread, To, Behind, Gaps;
    if CALL_LEFT >= minBp {
      var j := Continues(ts, i);
      ArgsSame(ts, gaps, j, restrict);
      var args := ParseArgs(ts, j, restrict);
      if args.items != [] {
        LoopSame(ts, gaps, args.pos, To(gaps, args.pos), Call(lhs, args.items), minBp, restrict);
      }
    }
  }

  // ----- what it means for sources and for printed expressions -----

  /** Whatever is read without a diagnostic is read alike with line breaks put before any of its
      infix operators and dots: the same tree, no diagnostic, and the same rest. */
  lemma BreaksChangeNothing(ts: seq<Token>, gaps: seq<nat>, minBp: nat, restrict: bool)
    requires Gaps(ts, gaps) && ParseExpr(ts, 0, minBp, restrict).errs == []
    ensures var o := ParseExpr(ts, 0, minBp, restrict);
            o.pos <= |ts| && ParseExpr(Spread(ts, gaps), 0, minBp, restrict) == Outcome(o.expr, To(gaps, o.pos), [])
  {
    ExprSame(ts, gaps, 0, minBp, restrict);
    assert To(gaps, 0) == 0;
  }

  /** So a printed expression may be broken before any operator and dot. */
  lemma PrintedAcrossLines(e: Expr, minPrec: nat, bp: nat, restrict: bool, spaced: bool, rest: seq<Token>, gaps: seq<nat>)
    requires WellFormed(e) && bp <= minPrec && Ends(rest, 0, restrict) && Gaps(Print(e, minPrec, restrict, spaced) + rest, gaps)
    ensures var printed := Print(e, minPrec, restrict, spaced);
            ParseExpr(Spread(printed + rest, gaps), 0, bp, restrict) == Outcome(Some(AsRead(e, minPrec, restrict)), To(gaps, |printed|), [])
  {
    hide ParseExpr, Print, AsRead, Spread, Gaps, To;
    PrintedReadsAs(e, minPrec, bp, restrict, spaced, rest);
    BreaksChangeNothing(Print(e, minPrec, restrict, spaced) + rest, gaps, bp, restrict);
  }

  /** The last token printed ends an operand; where a receiver's is digits, they are an index or
      the places of a decimal. */
  lemma {:induction false} PrintEnds(e: Expr, minPrec: nat, restrict: bool, spaced: bool)
    requires WellFormed(e)
    ensures var ts := Print(e, minPrec, restrict, spaced);
            ts != [] && EndsOperand(ts[|ts| - 1]) && (minPrec == 100 && !IsNumber(e) && ts[|ts| - 1].DigitsTok? ==> |ts| > 1 && ts[|ts| - 2] == Dot)
    decreases e, 1
  {
    if e.Grouping? {
      PrintEnds(e.inner, minPrec, restrict, spaced);
    } else if !Wraps(e, minPrec, restrict) {
      RenderEnds(e, restrict && IsBraceSpine(e), spaced);
    }
  }

  lemma {:induction false} RenderEnds(e: Expr, restrict: bool, spaced: bool)
    requires WellFormed(e) && !e.Grouping?
    ensures var ts := Render(e, restrict, spaced);
            ts != [] && EndsOperand(ts[|ts| - 1]) && (Prec(e) >= 100 && !IsNumber(e) && ts[|ts| - 1].DigitsTok? ==> |ts| > 1 && ts[|ts| - 2] == Dot)
    decreases e, 0
  {
    hide Print, PrintArgs, PrintItems, PrintFields;
    match e
    case Binary(op, l, r) => PrintEnds(r, RightMin(op), restrict, true);
    case Unary(p, x) => PrintEnds(x, PrefixPower(p), restrict, false);
    case Call(f, xs) => ArgsEnd(e, xs, restrict);
    case _ =>
  }

  lemma {:induction false} ArgsEnd(parent: Expr, xs: seq<Expr>, restrict: bool)
    requires xs != [] && forall x :: x in xs ==> x < parent && WellFormed(x)
    ensures var ts := PrintArgs(xs, restrict); ts != [] && EndsOperand(ts[|ts| - 1])
    decreases parent, 0, |xs|
  {
    assert xs[0] in xs;
    PrintEnds(xs[0], 91, restrict, true);
    if |xs| > 1 {
      assert forall x :: x in xs[1..] ==> x in xs;
      ArgsEnd(parent, xs[1..], restrict);
    } else {
      assert xs[1..] == [];
      assert PrintArgs(xs[1..], restrict) == [];
    }
  }

  /** Each printed infix operator, and each dot of an access, is such a place. */
  lemma OperatorsSplit(op: Op, l: Expr, r: Expr, restrict: bool, spaced: bool)
    requires WellFormed(l) && WellFormed(r)
    ensures var ts, k := Render(Binary(op, l, r), restrict, spaced), |Print(l, LeftMin(op), restrict, spaced)|;
            k < |ts| && InfixOf(ts[k]) == Some(op) && Splits(ts, k)
  {
    hide Print;
    PrintEnds(l, LeftMin(op), restrict, spaced);
  }

  lemma DotsSplit(x: Expr, a: Accessor, restrict: bool, spaced: bool)
    requires WellFormed(Access(x, a))
    ensures var ts, k := Render(Access(x, a), restrict, spaced), |Print(x, 100, restrict, spaced)|;
            k < |ts| && ts[k] == Dot && Splits(ts, k)
  {
    hide Print;
    PrintEnds(x, 100, restrict, spaced);
  }

  /** A line break before a token that is neither an infix operator nor a dot, or before none,
      ends a printed expression. */
  lemma BreakEnds(e: Expr, minPrec: nat, bp: nat, restrict: bool, spaced: bool, n: nat, rest: seq<Token>)
    requires WellFormed(e) && bp <= minPrec && n > 0
    requires rest != [] ==> rest[0] != Break && InfixOf(rest[0]) == None && rest[0] != Dot
    ensures var printed := Print(e, minPrec, restrict, spaced);
            ParseExpr(printed + (Breaks(n) + rest), 0, bp, restrict) == Outcome(Some(AsRead(e, minPrec, restrict)), |printed|, [])
  {
    hide ParseExpr, Print, AsRead;
    var after := Breaks(n) + rest;
    SkipsTo(after, 0, n);
    PrintedReadsAs(e, minPrec, bp, restrict, spaced, after);
  }
}
