/** Formatting what was formatted: when a second run of the printer changes nothing. */
module Idempotence {
  import opened Wrappers
  import opened Syntax
  import opened Parser
  import opened Printer
  import opened Reading
  import opened RoundTrip

  /** An expression without the groupings around it. */
  function Core(e: Expr): Expr
    decreases e
  {
    if e.Grouping? then Core(e.inner) else e
  }

  /** A record field whose value is its own name in parentheses: `a: (a)`. */
  predicate GroupedName(f: Field) { f.value.Grouping? && Core(f.value) == Ident(f.name) }

  /** How many such fields there are, at any depth. */
  function Names(e: Expr): nat
    decreases e, 0
  {
    match e
    case Grouping(x) => Names(x)
    case Binary(_, l, r) => Names(l) + Names(r)
    case Unary(_, x) => Names(x)
    case Access(x, _) => Names(x)
    case Call(f, xs) => Names(f) + NamesAll(xs)
    case Tuple(xs, _) => NamesAll(xs)
    case Record(fs, _) => NamesFields(fs)
    case _ => 0
  }

  function NamesAll(xs: seq<Expr>): nat
    decreases xs, 0
  {
    if xs == [] then 0 else Names(xs[0]) + NamesAll(xs[1..])
  }

  function NamesFields(fs: seq<Field>): nat
    decreases fs, 0
  {
    if fs == [] then 0 else (if GroupedName(fs[0]) then 1 else 0) + Names(fs[0].value) + NamesFields(fs[1..])
  }

  /** The expression with every collection on one line, as the parser returns it. */
  function OneLine(e: Expr): Expr
    decreases e, 0
  {
    match e
    case Grouping(x) => Grouping(OneLine(x))
    case Binary(op, l, r) => Binary(op, OneLine(l), OneLine(r))
    case Unary(p, x) => Unary(p, OneLine(x))
    case Access(x, a) => Access(OneLine(x), a)
    case Call(f, xs) => Call(OneLine(f), OneLineAll(xs))
    case Tuple(xs, _) => Tuple(OneLineAll(xs), false)
    case Record(fs, _) => Record(OneLineFields(fs), false)
    case _ => e
  }

  function OneLineAll(xs: seq<Expr>): (r: seq<Expr>)
    ensures |r| == |xs|
    decreases xs, 0
  {
    if xs == [] then [] else [OneLine(xs[0])] + OneLineAll(xs[1..])
  }

  function OneLineFields(fs: seq<Field>): (r: seq<Field>)
    ensures |r| == |fs|
    decreases fs, 0
  {
    if fs == [] then [] else [Field(fs[0].name, OneLine(fs[0].value))] + OneLineFields(fs[1..])
  }

  /** The second printing is `n` fields shorter, and the same when `n` is zero. */
  ghost predicate Shorter(again: seq<Token>, once: seq<Token>, n: nat) {
    |again| + 2 * n == |once| && (n == 0 ==> again == once)
  }

  lemma Joined(a: seq<Token>, a': seq<Token>, m: nat, b: seq<Token>, b': seq<Token>, n: nat)
    requires Shorter(a, a', m) && Shorter(b, b', n)
    ensures Shorter(a + b, a' + b', m + n)
  {
  }

  lemma Around(a: seq<Token>, a': seq<Token>, n: nat, before: seq<Token>, after: seq<Token>)
    requires Shorter(a, a', n)
    ensures Shorter(before + (a + after), before + (a' + after), n)
  {
  }

  lemma {:induction false} SamePrec(e: Expr, restrict: bool)
    requires !e.Grouping?
    ensures var b := Rebuilt(e, restrict);
            && Prec(b) == Prec(e) == Prec(OneLine(e)) && !b.Grouping? && !OneLine(e).Grouping?
            && b.Record? == e.Record? == OneLine(e).Record?
            && IsBraceSpine(b) == IsBraceSpine(e) == IsBraceSpine(OneLine(e))
  {
    hide Regrouped, RegroupedAll, RegroupedFields;
  }

  lemma {:induction false} PrintAgain(e: Expr, minPrec: nat, restrict: bool, spaced: bool)
    ensures Shorter(Print(Regrouped(e, minPrec, restrict), minPrec, restrict, spaced), Print(OneLine(e), minPrec, restrict, spaced), Names(e))
    decreases e, 2
  {
    hide Render, Rebuilt, Prec, IsBraceSpine, Shorter;
    if e.Grouping? {
      PrintAgain(e.inner, minPrec, restrict, spaced);
    } else {
      SamePrec(e, false);
      SamePrec(e, restrict && IsBraceSpine(e));
      if Wraps(e, minPrec, restrict) {
        RenderAgain(e, false, false);
        Around(Render(Rebuilt(e, false), false, false), Render(OneLine(e), false, false), Names(e), [LeftParen], [RightParen]);
      } else {
        RenderAgain(e, restrict && IsBraceSpine(e), spaced);
      }
    }
  }

  lemma {:induction false} RenderAgain(e: Expr, restrict: bool, spaced: bool)
    requires !e.Grouping?
    ensures Shorter(Render(Rebuilt(e, restrict), restrict, spaced), Render(OneLine(e), restrict, spaced), Names(e))
    decreases e, 1
  {
    hide Render, Rebuilt, OneLine, Names, Shorter;
    match e
    case Binary(op, l, r) => BinaryAgain(op, l, r, restrict, spaced);
    case Unary(p, x) => UnaryAgain(p, x, restrict, spaced);
    case Access(x, a) => AccessAgain(x, a, restrict, spaced);
    case Call(f, xs) => CallAgain(f, xs, restrict, spaced);
    case Tuple(_, _) => CollectionAgain(e, restrict, spaced);
    case Record(_, _) => CollectionAgain(e, restrict, spaced);
    case _ => AtomAgain(e, restrict, spaced);
  }

  lemma AtomAgain(e: Expr, restrict: bool, spaced: bool)
    requires e.Ident? || e.Number? || e.Float? || e.Literal? || e.EmptyTuple?
    ensures Shorter(Render(Rebuilt(e, restrict), restrict, spaced), Render(OneLine(e), restrict, spaced), Names(e))
  {
  }

  lemma {:induction false} BinaryAgain(op: Op, l: Expr, r: Expr, restrict: bool, spaced: bool)
    ensures var e := Binary(op, l, r); Shorter(Render(Rebuilt(e, restrict), restrict, spaced), Render(OneLine(e), restrict, spaced), Names(e))
    decreases Binary(op, l, r), 0
  {
    BinaryForms(op, l, r, restrict, spaced);
    hide Print, Render, Rebuilt, Regrouped, OneLine, Names, Shorter, LeftMin, RightMin;
    PrintAgain(l, LeftMin(op), restrict, spaced);
    PrintAgain(r, RightMin(op), restrict, true);
    var r1, r2 := Print(Regrouped(r, RightMin(op), restrict), RightMin(op), restrict, true), Print(OneLine(r), RightMin(op), restrict, true);
    Around(r1, r2, Names(r), [OpToken(op)], []);
    assert r1 + [] == r1 && r2 + [] == r2;
    Joined(Print(Regrouped(l, LeftMin(op), restrict), LeftMin(op), restrict, spaced), Print(OneLine(l), LeftMin(op), restrict, spaced), Names(l),
           [OpToken(op)] + r1, [OpToken(op)] + r2, Names(r));
  }

  lemma BinaryForms(op: Op, l: Expr, r: Expr, restrict: bool, spaced: bool)
    ensures var e := Binary(op, l, r);
            && Render(Rebuilt(e, restrict), restrict, spaced)
               == Print(Regrouped(l, LeftMin(op), restrict), LeftMin(op), restrict, spaced) + ([OpToken(op)] + Print(Regrouped(r, RightMin(op), restrict), RightMin(op), restrict, true))
            && Render(OneLine(e), restrict, spaced) == Print(OneLine(l), LeftMin(op), restrict, spaced) + ([OpToken(op)] + Print(OneLine(r), RightMin(op), restrict, true))
            && Names(e) == Names(l) + Names(r)
  {
    hide Print, Regrouped, LeftMin, RightMin;
  }

  lemma {:induction false} UnaryAgain(p: Prefix, x: Expr, restrict: bool, spaced: bool)
    ensures var e := Unary(p, x); Shorter(Render(Rebuilt(e, restrict), restrict, spaced), Render(OneLine(e), restrict, spaced), Names(e))
    decreases Unary(p, x), 0
  {
    hide Print, PrintArgs, PrintItems, PrintFields, Regrouped, RegroupedAll, RegroupedFields, OneLineAll, OneLineFields, Shorter;
    PrintAgain(x, PrefixPower(p), restrict, false);
    var x1, x2 := Print(Regrouped(x, PrefixPower(p), restrict), PrefixPower(p), restrict, false), Print(OneLine(x), PrefixPower(p), restrict, false);
    Around(x1, x2, Names(x), [PrefixToken(p, spaced)], []);
    assert x1 + [] == x1 && x2 + [] == x2;
  }

  lemma {:induction false} AccessAgain(x: Expr, a: Accessor, restrict: bool, spaced: bool)
    ensures var e := Access(x, a); Shorter(Render(Rebuilt(e, restrict), restrict, spaced), Render(OneLine(e), restrict, spaced), Names(e))
    decreases Access(x, a), 0
  {
    hide Print, PrintArgs, PrintItems, PrintFields, Regrouped, RegroupedAll, RegroupedFields, OneLineAll, OneLineFields, Shorter;
    PrintAgain(x, 100, restrict, spaced);
    var x1, x2 := Print(Regrouped(x, 100, restrict), 100, restrict, spaced), Print(OneLine(x), 100, restrict, spaced);
    var dot := [Dot, AccessorToken(a)];
    Around(x1, x2, Names(x), [], dot);
    assert [] + (x1 + dot) == x1 + dot && [] + (x2 + dot) == x2 + dot;
  }

  lemma {:induction false} CallAgain(f: Expr, xs: seq<Expr>, restrict: bool, spaced: bool)
    ensures var e := Call(f, xs); Shorter(Render(Rebuilt(e, restrict), restrict, spaced), Render(OneLine(e), restrict, spaced), Names(e))
    decreases Call(f, xs), 0
  {
    hide Print, PrintArgs, PrintItems, PrintFields, Regrouped, RegroupedAll, RegroupedFields, OneLineAll, OneLineFields, Shorter;
    PrintAgain(f, 91, restrict, spaced);
    ArgsAgain(xs, restrict);
    Joined(Print(Regrouped(f, 91, restrict), 91, restrict, spaced), Print(OneLine(f), 91, restrict, spaced), Names(f),
           PrintArgs(RegroupedAll(xs, 91, restrict), restrict), PrintArgs(OneLineAll(xs), restrict), NamesAll(xs));
  }

  lemma {:induction false} CollectionAgain(e: Expr, restrict: bool, spaced: bool)
    requires e.Tuple? || e.Record?
    ensures Shorter(Render(Rebuilt(e, restrict), restrict, spaced), Render(OneLine(e), restrict, spaced), Names(e))
    decreases e, 0
  {
    hide Print, PrintArgs, PrintItems, PrintFields, Regrouped, RegroupedAll, RegroupedFields, OneLineAll, OneLineFields, Shorter;
    if e.Tuple? {
      ItemsAgain(e.items, false);
      Enclosed(PrintItems(RegroupedAll(e.items, 0, false), false, false), PrintItems(OneLineAll(e.items), false, false), NamesAll(e.items), LeftParen, RightParen);
    } else if e.fields == [] {
      NoneShorter([LeftBrace, RightBrace]);
      assert Names(e) == 0;
    } else {
      FieldsAgain(e.fields);
      Enclosed(PrintFields(RegroupedFields(e.fields), false), PrintFields(OneLineFields(e.fields), false), NamesFields(e.fields), LeftBrace, RightBrace);
    }
  }

  lemma NoneShorter(ts: seq<Token>)
    ensures Shorter(ts, ts, 0)
  {
  }

  lemma Enclosed(a: seq<Token>, a': seq<Token>, n: nat, open: Token, close: Token)
    requires Shorter(a, a', n)
    ensures Shorter([open] + (Opening(false) + (a + [close])), [open] + (Opening(false) + (a' + [close])), n)
  {
    assert Opening(false) + (a + [close]) == a + [close] && Opening(false) + (a' + [close]) == a' + [close];
  }

  lemma {:induction false} ArgsAgain(xs: seq<Expr>, restrict: bool)
    ensures Shorter(PrintArgs(RegroupedAll(xs, 91, restrict), restrict), PrintArgs(OneLineAll(xs), restrict), NamesAll(xs))
    decreases xs, 0
  {
    hide Print, Regrouped, OneLine, Shorter, Names;
    if xs == [] {
      NoneShorter([]);
    } else {
      PrintAgain(xs[0], 91, restrict, true);
      ArgsAgain(xs[1..], restrict);
      Tails(xs, 91, restrict);
      Joined(Print(Regrouped(xs[0], 91, restrict), 91, restrict, true), Print(OneLine(xs[0]), 91, restrict, true), Names(xs[0]),
             PrintArgs(RegroupedAll(xs[1..], 91, restrict), restrict), PrintArgs(OneLineAll(xs[1..]), restrict), NamesAll(xs[1..]));
    }
  }

  lemma Tails(xs: seq<Expr>, minPrec: nat, restrict: bool)
    requires xs != []
    ensures var ys, zs := RegroupedAll(xs, minPrec, restrict), OneLineAll(xs);
            && ys[0] == Regrouped(xs[0], minPrec, restrict) && ys[1..] == RegroupedAll(xs[1..], minPrec, restrict)
            && zs[0] == OneLine(xs[0]) && zs[1..] == OneLineAll(xs[1..])
  {
    hide Regrouped, OneLine;
  }

  lemma {:induction false} ItemsAgain(xs: seq<Expr>, spaced: bool)
    ensures Shorter(PrintItems(RegroupedAll(xs, 0, false), false, spaced), PrintItems(OneLineAll(xs), false, spaced), NamesAll(xs))
    decreases xs, 0
  {
    hide Print, Regrouped, OneLine, Shorter, Names, Separator;
    if xs == [] {
      NoneShorter(Closing(false));
    } else {
      PrintAgain(xs[0], 0, false, spaced);
      ItemsAgain(xs[1..], true);
      Tails(xs, 0, false);
      var more := Separator(|xs| > 1, false);
      var a, b := PrintItems(RegroupedAll(xs[1..], 0, false), false, true), PrintItems(OneLineAll(xs[1..]), false, true);
      Around(a, b, NamesAll(xs[1..]), more, []);
      assert a + [] == a && b + [] == b;
      Joined(Print(Regrouped(xs[0], 0, false), 0, false, spaced), Print(OneLine(xs[0]), 0, false, spaced), Names(xs[0]), more + a, more + b, NamesAll(xs[1..]));
    }
  }

  lemma {:induction false} FieldsAgain(fs: seq<Field>)
    ensures Shorter(PrintFields(RegroupedFields(fs), false), PrintFields(OneLineFields(fs), false), NamesFields(fs))
    decreases fs, 0
  {
    hide PrintField, Regrouped, OneLine, Shorter, Names, Separator, GroupedName;
    if fs == [] {
      NoneShorter(Closing(false));
    } else {
      var f := fs[0];
      var n := (if GroupedName(f) then 1 else 0) + Names(f.value);
      FieldAgain(f);
      FieldsAgain(fs[1..]);
      var ys, zs := RegroupedFields(fs), OneLineFields(fs);
      assert ys[1..] == RegroupedFields(fs[1..]) && zs[1..] == OneLineFields(fs[1..]);
      var more := Separator(|fs| > 1, false);
      var a, b := PrintFields(ys[1..], false), PrintFields(zs[1..], false);
      Around(a, b, NamesFields(fs[1..]), more, []);
      assert a + [] == a && b + [] == b;
      Joined(PrintField(ys[0]), PrintField(zs[0]), n, more + a, more + b, NamesFields(fs[1..]));
    }
  }

  /** The first printing writes `a: a` for `a: (a)`, the second the name alone. */
  lemma {:induction false} FieldAgain(f: Field)
    ensures Shorter(PrintField(Field(f.name, Regrouped(f.value, 0, false))), PrintField(Field(f.name, OneLine(f.value))),
                    (if GroupedName(f) then 1 else 0) + Names(f.value))
    decreases f, 3
  {
    hide Print, Shorter;
    RegroupedName(f.value, f.name);
    PrintAgain(f.value, 0, false, true);
    if Core(f.value) == Ident(f.name) {
      NamedField(f);
    } else {
      var a, b := Print(Regrouped(f.value, 0, false), 0, false, true), Print(OneLine(f.value), 0, false, true);
      Around(a, b, Names(f.value), [IdentTok(f.name), Colon], []);
      assert a + [] == a && b + [] == b;
    }
  }

  lemma {:induction false} RegroupedName(e: Expr, name: string)
    ensures Regrouped(e, 0, false) == Ident(name) <==> Core(e) == Ident(name)
    ensures OneLine(e) == Ident(name) <==> e == Ident(name)
    ensures Core(e) == Ident(name) ==> Names(e) == 0 && Print(OneLine(e), 0, false, true) == [IdentTok(name)]
    decreases e
  {
    if e.Grouping? { RegroupedName(e.inner, name); }
  }

  lemma {:induction false} NamedField(f: Field)
    requires Core(f.value) == Ident(f.name)
    ensures Shorter(PrintField(Field(f.name, Regrouped(f.value, 0, false))), PrintField(Field(f.name, OneLine(f.value))),
                    (if GroupedName(f) then 1 else 0) + Names(f.value))
  {
    hide Print;
    RegroupedName(f.value, f.name);
  }

  // ----- what is read of an unsafe expression -----

  lemma {:induction false} OneLineNumber(e: Expr)
    ensures IsNumber(OneLine(e)) <==> IsNumber(e)
    decreases e
  {
    if e.Grouping? { OneLineNumber(e.inner); }
  }

  lemma {:induction false} ReadNumber(e: Expr, minPrec: nat, restrict: bool)
    ensures IsNumber(AsRead(e, minPrec, restrict)) <==> IsNumber(e)
    decreases e
  {
    if e.Grouping? { ReadNumber(e.inner, minPrec, restrict); } else if e.Binary? { GraftStaysOpen(AsRead(e.left, LeftMin(e.op), restrict), AsRead(e.right, RightMin(e.op), restrict)); }
  }

  lemma {:induction false} OneLineReads(e: Expr, minPrec: nat, restrict: bool)
    requires WellFormed(e)
    ensures WellFormed(OneLine(e)) && AsRead(OneLine(e), minPrec, restrict) == AsRead(e, minPrec, restrict)
    decreases e, 1
  {
    hide BareAsRead, Prec, IsBraceSpine;
    if e.Grouping? {
      OneLineReads(e.inner, minPrec, restrict);
    } else {
      SamePrec(e, false);
      OneLineBareReads(e, if Wraps(e, minPrec, restrict) then false else restrict && IsBraceSpine(e));
    }
  }

  lemma {:induction false} OneLineBareReads(e: Expr, restrict: bool)
    requires WellFormed(e) && !e.Grouping?
    ensures WellFormed(OneLine(e)) && BareAsRead(OneLine(e), restrict) == BareAsRead(e, restrict)
    decreases e, 0
  {
    hide AsRead, Graft, OneLineAll, OneLineFields, AllAsRead, FieldsAsRead;
    match e
    case Binary(op, l, r) => OneLineReads(l, LeftMin(op), restrict); OneLineReads(r, RightMin(op), restrict);
    case Unary(p, x) => OneLineReads(x, PrefixPower(p), restrict);
    case Access(x, _) => OneLineReads(x, 100, restrict); OneLineNumber(x);
    case Call(f, xs) => OneLineReads(f, 91, restrict); AllOneLineRead(e, xs, 91, restrict);
    case Tuple(xs, _) => AllOneLineRead(e, xs, 0, false);
    case Record(fs, _) => OneLineFieldsRead(e, fs);
    case _ =>
  }

  lemma {:induction false} AllOneLineRead(parent: Expr, xs: seq<Expr>, minPrec: nat, restrict: bool)
    requires forall x :: x in xs ==> x < parent && WellFormed(x)
    ensures AllAsRead(OneLineAll(xs), minPrec, restrict) == AllAsRead(xs, minPrec, restrict)
    ensures forall y :: y in OneLineAll(xs) ==> WellFormed(y)
    decreases parent, 0, |xs|
  {
    hide AsRead, OneLine, WellFormed;
    if xs != [] {
      assert xs[0] in xs && forall x :: x in xs[1..] ==> x in xs;
      OneLineReads(xs[0], minPrec, restrict);
      AllOneLineRead(parent, xs[1..], minPrec, restrict);
      assert OneLineAll(xs)[1..] == OneLineAll(xs[1..]);
    }
  }

  lemma {:induction false} OneLineFieldsRead(parent: Expr, fs: seq<Field>)
    requires forall f :: f in fs ==> f.value < parent && WellFormed(f.value)
    ensures FieldsAsRead(OneLineFields(fs)) == FieldsAsRead(fs)
    ensures forall g :: g in OneLineFields(fs) ==> WellFormed(g.value)
    decreases parent, 0, |fs|
  {
    hide AsRead, OneLine, WellFormed;
    if fs != [] {
      assert fs[0] in fs && forall f :: f in fs[1..] ==> f in fs;
      OneLineReads(fs[0].value, 0, false);
      OneLineFieldsRead(parent, fs[1..]);
      assert OneLineFields(fs)[1..] == OneLineFields(fs[1..]);
    }
  }

  /** Somewhere a `??` has a bare `or` for its right operand, which no printing shows bare. */
  predicate Flips(e: Expr)
    decreases e
  {
    match e
    case Grouping(x) => Flips(x)
    case Binary(op, l, r) => Flips(l) || Flips(r) || (op == NullCoalescing && r.Binary? && r.op == LogicalOr)
    case Unary(_, x) => Flips(x)
    case Access(x, _) => Flips(x)
    case Call(f, xs) => Flips(f) || exists x :: x in xs && Flips(x)
    case Tuple(xs, _) => exists x :: x in xs && Flips(x)
    case Record(fs, _) => exists f :: f in fs && Flips(f.value)
    case _ => false
  }

  lemma {:induction false} GraftFlips(x: Expr, z: Expr)
    requires WellFormed(x) && WellFormed(z)
    ensures WellFormed(Graft(x, z))
    ensures Open(x) || Flips(x) || Flips(z) ==> Flips(Graft(x, z))
    decreases x
  {
    if Open(x) { GraftFlips(x.right, z); }
  }

  lemma {:induction false} UnsafeFlips(e: Expr, minPrec: nat, restrict: bool)
    requires WellFormed(e)
    ensures WellFormed(AsRead(e, minPrec, restrict)) && (!Safe(e) ==> Flips(AsRead(e, minPrec, restrict)))
    decreases e, 1
  {
    hide BareAsRead;
    if e.Grouping? {
      UnsafeFlips(e.inner, minPrec, restrict);
    } else {
      UnsafeBareFlips(e, if Wraps(e, minPrec, restrict) then false else restrict && IsBraceSpine(e));
    }
  }

  lemma {:induction false} UnsafeBareFlips(e: Expr, restrict: bool)
    requires WellFormed(e) && !e.Grouping?
    ensures WellFormed(BareAsRead(e, restrict)) && (!Safe(e) ==> Flips(BareAsRead(e, restrict)))
    decreases e, 0
  {
    hide AsRead, Graft, Open, OpenCoalesce, AllAsRead, FieldsAsRead;
    match e
    case Binary(op, l, r) =>
      UnsafeFlips(l, LeftMin(op), restrict);
      UnsafeFlips(r, RightMin(op), restrict);
      if op == LogicalOr {
        if OpenCoalesce(l, LeftMin(op)) { OpenStaysOpen(l, LeftMin(op), restrict); }
        GraftFlips(AsRead(l, LeftMin(op), restrict), AsRead(r, RightMin(op), restrict));
      }
    case Unary(p, x) => UnsafeFlips(x, PrefixPower(p), restrict);
    case Access(x, _) => UnsafeFlips(x, 100, restrict); ReadNumber(x, 100, restrict);
    case Call(f, xs) => UnsafeFlips(f, 91, restrict); SomeUnsafeFlips(e, xs, 91, restrict);
    case Tuple(xs, _) => SomeUnsafeFlips(e, xs, 0, false);
    case Record(fs, _) => SomeUnsafeFieldFlips(e, fs);
    case _ =>
  }

  lemma {:induction false} SomeUnsafeFlips(parent: Expr, xs: seq<Expr>, minPrec: nat, restrict: bool)
    requires forall x :: x in xs ==> x < parent && WellFormed(x)
    ensures forall y :: y in AllAsRead(xs, minPrec, restrict) ==> WellFormed(y)
    ensures (exists x :: x in xs && !Safe(x)) ==> exists y :: y in AllAsRead(xs, minPrec, restrict) && Flips(y)
    decreases parent, 0, |xs|
  {
    hide AsRead, WellFormed, Safe, Flips;
    if xs != [] {
      assert xs[0] in xs && forall x :: x in xs <==> x == xs[0] || x in xs[1..];
      assert forall x :: x in xs[1..] ==> x in xs;
      UnsafeFlips(xs[0], minPrec, restrict);
      SomeUnsafeFlips(parent, xs[1..], minPrec, restrict);
      var ys := AllAsRead(xs, minPrec, restrict);
      assert ys[0] in ys && forall y :: y in AllAsRead(xs[1..], minPrec, restrict) ==> y in ys;
    }
  }

  lemma {:induction false} SomeUnsafeFieldFlips(parent: Expr, fs: seq<Field>)
    requires forall f :: f in fs ==> f.value < parent && WellFormed(f.value)
    ensures forall g :: g in FieldsAsRead(fs) ==> WellFormed(g.value)
    ensures (exists f :: f in fs && !Safe(f.value)) ==> exists g :: g in FieldsAsRead(fs) && Flips(g.value)
    decreases parent, 0, |fs|
  {
    hide AsRead, WellFormed, Safe, Flips;
    if fs != [] {
      assert fs[0] in fs && forall f :: f in fs <==> f == fs[0] || f in fs[1..];
      assert forall f :: f in fs[1..] ==> f in fs;
      UnsafeFlips(fs[0].value, 0, false);
      SomeUnsafeFieldFlips(parent, fs[1..]);
      var gs := FieldsAsRead(fs);
      assert gs[0] in gs && forall g :: g in FieldsAsRead(fs[1..]) ==> g in gs;
    }
  }

  lemma {:induction false} RegroupedNeverFlips(e: Expr, minPrec: nat, restrict: bool)
    ensures !Flips(Regrouped(e, minPrec, restrict))
    ensures minPrec > 20 ==> !(Regrouped(e, minPrec, restrict).Binary? && Regrouped(e, minPrec, restrict).op == LogicalOr)
    decreases e, 1
  {
    hide Rebuilt;
    if e.Grouping? {
      RegroupedNeverFlips(e.inner, minPrec, restrict);
    } else {
      RebuiltNeverFlips(e, if Wraps(e, minPrec, restrict) then false else restrict && IsBraceSpine(e));
    }
  }

  lemma {:induction false} RebuiltNeverFlips(e: Expr, restrict: bool)
    requires !e.Grouping?
    ensures !Flips(Rebuilt(e, restrict))
    ensures Rebuilt(e, restrict).Binary? ==> e.Binary? && Rebuilt(e, restrict).op == e.op
    decreases e, 0
  {
    hide Regrouped, RegroupedAll, RegroupedFields;
    match e
    case Binary(op, l, r) => RegroupedNeverFlips(l, LeftMin(op), restrict); RegroupedNeverFlips(r, RightMin(op), restrict);
    case Unary(p, x) => RegroupedNeverFlips(x, PrefixPower(p), restrict);
    case Access(x, _) => RegroupedNeverFlips(x, 100, restrict);
    case Call(f, xs) => RegroupedNeverFlips(f, 91, restrict); NoneFlips(e, xs, 91, restrict);
    case Tuple(xs, _) => NoneFlips(e, xs, 0, false);
    case Record(fs, _) => NoFieldFlips(e, fs);
    case _ =>
  }

  lemma {:induction false} NoneFlips(parent: Expr, xs: seq<Expr>, minPrec: nat, restrict: bool)
    requires forall x :: x in xs ==> x < parent
    ensures forall y :: y in RegroupedAll(xs, minPrec, restrict) ==> !Flips(y)
    decreases parent, 0, |xs|
  {
    hide Regrouped, Flips;
    if xs != [] {
      assert xs[0] in xs && forall x :: x in xs[1..] ==> x in xs;
      RegroupedNeverFlips(xs[0], minPrec, restrict);
      NoneFlips(parent, xs[1..], minPrec, restrict);
    }
  }

  lemma {:induction false} NoFieldFlips(parent: Expr, fs: seq<Field>)
    requires forall f :: f in fs ==> f.value < parent
    ensures forall g :: g in RegroupedFields(fs) ==> !Flips(g.value)
    decreases parent, 0, |fs|
  {
    hide Regrouped, Flips;
    if fs != [] {
      assert fs[0] in fs && forall f :: f in fs[1..] ==> f in fs;
      RegroupedNeverFlips(fs[0].value, 0, false);
      NoFieldFlips(parent, fs[1..]);
    }
  }

  lemma NothingEnds(restrict: bool)
    ensures Ends([], 0, restrict)
  {
    assert Continues([], 0) == 0;
  }

  /** Expressions that print alike are read alike. */
  lemma PrintedAlike(x: Expr, y: Expr, restrict: bool, spaced: bool)
    requires WellFormed(x) && WellFormed(y) && Print(x, 0, restrict, spaced) == Print(y, 0, restrict, spaced)
    ensures AsRead(x, 0, restrict) == AsRead(y, 0, restrict)
  {
    hide Print, ParseExpr, AsRead, WellFormed, Ends;
    NothingEnds(restrict);
    PrintedReadsAs(x, 0, 0, restrict, spaced, []);
    PrintedReadsAs(y, 0, 0, restrict, spaced, []);
  }

  /** An unsafe expression, read back, never prints as it did: what was read would be read
      once more as itself, so it would be safe and show no `or` bare under a `??`. */
  lemma UnsafePrintsAnew(e: Expr, restrict: bool, spaced: bool)
    requires WellFormed(e) && !Safe(e)
    ensures Print(AsRead(e, 0, restrict), 0, restrict, spaced) != Print(OneLine(e), 0, restrict, spaced)
  {
    hide Print, AsRead, WellFormed, Safe, Flips, OneLine, Regrouped;
    var x := AsRead(e, 0, restrict);
    OneLineReads(e, 0, restrict);
    UnsafeFlips(e, 0, restrict);
    if Print(x, 0, restrict, spaced) == Print(OneLine(e), 0, restrict, spaced) {
      PrintedAlike(x, OneLine(e), restrict, spaced);
      ReadingLeans(x, 0, restrict);
      ReadAsMeantExactly(x, 0, restrict);
      RegroupedNeverFlips(x, 0, restrict);
      assert false;
    }
  }

  /** Printing, parsing and printing again gives the first printing exactly when no `or`
      stands over a bare `??` and no record field's value is its own name in parentheses. */
  lemma FormatTwice(e: Expr, restrict: bool, spaced: bool, rest: seq<Token>)
    requires WellFormed(e) && Ends(rest, 0, restrict)
    ensures var once := Print(OneLine(e), 0, restrict, spaced);
            var read := ParseExpr(Print(e, 0, restrict, spaced) + rest, 0, 0, restrict);
            && read.expr.Some? && read.errs == []
            && (Print(read.expr.value, 0, restrict, spaced) == once <==> Safe(e) && Names(e) == 0)
  {
    hide Print, ParseExpr, Regrouped, AsRead, Names, OneLine, WellFormed, Safe, Ends;
    PrintedReadsAs(e, 0, 0, restrict, spaced, rest);
    if Safe(e) {
      ReadAsMeantExactly(e, 0, restrict);
      PrintAgain(e, 0, restrict, spaced);
    } else {
      UnsafePrintsAnew(e, restrict, spaced);
    }
  }
}
