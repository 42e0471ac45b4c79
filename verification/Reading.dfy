/** How the parser reads what the printer writes, tree by tree: as it was meant, except that
    an `or` after a bare `??` is taken into that `??`'s right operand. */
module Reading {
  import opened Syntax
  import opened Printer

  /** Does the bare right edge of `e`, printed at `minPrec`, end in a `??`? Its right operand
      is parsed at a power below `or`, so a following `or` is captured. */
  predicate OpenCoalesce(e: Expr, minPrec: nat)
    decreases e
  {
    match e
    case Grouping(x) => OpenCoalesce(x, minPrec)
    case Binary(op, _, r) => OpPrec(op) >= minPrec && (op == NullCoalescing || OpenCoalesce(r, RightMin(op)))
    case Unary(p, x) => PrefixPower(p) >= minPrec && OpenCoalesce(x, PrefixPower(p))
    case _ => false
  }

  /** No `or` has a left operand that ends in a bare `??`. */
  predicate Safe(e: Expr)
    decreases e
  {
    match e
    case Grouping(x) => Safe(x)
    case Binary(op, l, r) => Safe(l) && Safe(r) && !(op == LogicalOr && OpenCoalesce(l, LeftMin(op)))
    case Unary(_, x) => Safe(x)
    case Access(x, _) => Safe(x)
    case Call(f, xs) => Safe(f) && forall x :: x in xs ==> Safe(x)
    case Tuple(xs, _) => forall x :: x in xs ==> Safe(x)
    case Record(fs, _) => forall f :: f in fs ==> Safe(f.value)
    case _ => true
  }

  // ----- the tree read -----

  /** Is the parser still inside the right operand of a `??` when it has read `x`, at a power
      at which it goes on with `or`? */
  predicate Open(x: Expr)
    decreases x
  {
    x.Binary? && (x.op == NullCoalescing || (x.op == LogicalOr && Open(x.right)))
  }

  /** `or z` read after `x`: it joins the innermost operand the parser is still inside. */
  function Graft(x: Expr, z: Expr): Expr
    decreases x
  {
    if Open(x) then Binary(x.op, x.left, Graft(x.right, z)) else Binary(LogicalOr, x, z)
  }

  lemma {:induction false} GraftStaysOpen(x: Expr, z: Expr)
    ensures Graft(x, z).Binary? && (Open(x) || Open(z) ==> Open(Graft(x, z)))
    decreases x
  {
    if Open(x) { GraftStaysOpen(x.right, z); }
  }

  /** What the parser makes of `e`'s printed tokens. */
  function AsRead(e: Expr, minPrec: nat, restrict: bool): Expr
    decreases e, 1
  {
    if e.Grouping? then AsRead(e.inner, minPrec, restrict)
    else if Wraps(e, minPrec, restrict) then Grouping(BareAsRead(e, false))
    else BareAsRead(e, restrict && IsBraceSpine(e))
  }

  function BareAsRead(e: Expr, restrict: bool): Expr
    decreases e, 0
  {
    match e
    case Grouping(x) => AsRead(x, 0, restrict)
    case Binary(op, l, r) =>
      if op == LogicalOr then Graft(AsRead(l, LeftMin(op), restrict), AsRead(r, RightMin(op), restrict))
      else Binary(op, AsRead(l, LeftMin(op), restrict), AsRead(r, RightMin(op), restrict))
    case Unary(p, x) => Unary(p, AsRead(x, PrefixPower(p), restrict))
    case Access(x, a) => Access(AsRead(x, 100, restrict), a)
    case Call(f, xs) => Call(AsRead(f, 91, restrict), AllAsRead(xs, 91, restrict))
    case Tuple(xs, _) => Tuple(AllAsRead(xs, 0, false), false)
    case Record(fs, _) => Record(FieldsAsRead(fs), false)
    case _ => e
  }

  function AllAsRead(xs: seq<Expr>, minPrec: nat, restrict: bool): (r: seq<Expr>)
    ensures |r| == |xs|
    decreases xs, 0
  {
    if xs == [] then [] else [AsRead(xs[0], minPrec, restrict)] + AllAsRead(xs[1..], minPrec, restrict)
  }

  function FieldsAsRead(fs: seq<Field>): (r: seq<Field>)
    ensures |r| == |fs|
    decreases fs, 0
  {
    if fs == [] then [] else [Field(fs[0].name, AsRead(fs[0].value, 0, false))] + FieldsAsRead(fs[1..])
  }

  /** Where an operand is printed above `??`, it is never read as open. */
  lemma {:induction false} TightNotOpen(e: Expr, minPrec: nat, restrict: bool)
    requires minPrec >= 22
    ensures !Open(AsRead(e, minPrec, restrict))
    decreases e
  {
    if e.Grouping? { TightNotOpen(e.inner, minPrec, restrict); }
  }

  // ----- a safe expression is read as it was meant -----

  lemma {:induction false} TightNotOpenCoalesce(e: Expr, minPrec: nat)
    requires minPrec >= 22
    ensures !OpenCoalesce(e, minPrec)
    decreases e
  {
    match e
    case Grouping(x) => TightNotOpenCoalesce(x, minPrec);
    case Binary(op, _, r) => if OpPrec(op) >= minPrec { TightNotOpenCoalesce(r, RightMin(op)); }
    case Unary(p, x) => TightNotOpenCoalesce(x, PrefixPower(p));
    case _ =>
  }

  /** Regrouping leaves open exactly what is printed open. */
  lemma {:induction false} OpenAsPrinted(e: Expr, minPrec: nat, restrict: bool)
    requires 20 <= minPrec
    ensures Open(Regrouped(e, minPrec, restrict)) <==> OpenCoalesce(e, minPrec)
    decreases e
  {
    match e
    case Grouping(x) => OpenAsPrinted(x, minPrec, restrict);
    case Binary(op, _, r) =>
      if op == LogicalOr || op == NullCoalescing { OpenAsPrinted(r, RightMin(op), restrict); }
      else if OpPrec(op) >= minPrec { TightNotOpenCoalesce(r, RightMin(op)); }
    case Unary(p, x) => TightNotOpenCoalesce(x, PrefixPower(p));
    case _ =>
  }

  lemma {:induction false} SafeReads(e: Expr, minPrec: nat, restrict: bool)
    requires Safe(e)
    ensures AsRead(e, minPrec, restrict) == Regrouped(e, minPrec, restrict)
    decreases e, 1
  {
    if e.Grouping? {
      SafeReads(e.inner, minPrec, restrict);
    } else {
      SafeBareReads(e, if Wraps(e, minPrec, restrict) then false else restrict && IsBraceSpine(e));
    }
  }

  lemma {:induction false} SafeBareReads(e: Expr, restrict: bool)
    requires Safe(e) && !e.Grouping?
    ensures BareAsRead(e, restrict) == Rebuilt(e, restrict)
    decreases e, 0
  {
    match e
    case Binary(op, l, r) =>
      SafeReads(l, LeftMin(op), restrict);
      SafeReads(r, RightMin(op), restrict);
      if op == LogicalOr { OpenAsPrinted(l, LeftMin(op), restrict); }
    case Unary(p, x) => SafeReads(x, PrefixPower(p), restrict);
    case Access(x, _) => SafeReads(x, 100, restrict);
    case Call(f, xs) =>
      SafeReads(f, 91, restrict);
      AllSafeRead(e, xs, 91, restrict);
    case Tuple(xs, _) => AllSafeRead(e, xs, 0, false);
    case Record(fs, _) => SafeFieldsRead(e, fs);
    case _ =>
  }

  lemma {:induction false} AllSafeRead(parent: Expr, xs: seq<Expr>, minPrec: nat, restrict: bool)
    requires forall x :: x in xs ==> x < parent && Safe(x)
    ensures AllAsRead(xs, minPrec, restrict) == RegroupedAll(xs, minPrec, restrict)
    decreases parent, 0, |xs|
  {
    hide AsRead, Regrouped;
    if xs != [] {
      assert xs[0] in xs && forall x :: x in xs[1..] ==> x in xs;
      SafeReads(xs[0], minPrec, restrict);
      AllSafeRead(parent, xs[1..], minPrec, restrict);
    }
  }

  lemma {:induction false} SafeFieldsRead(parent: Expr, fs: seq<Field>)
    requires forall f :: f in fs ==> f.value < parent && Safe(f.value)
    ensures FieldsAsRead(fs) == RegroupedFields(fs)
    decreases parent, 0, |fs|
  {
    hide AsRead, Regrouped;
    if fs != [] {
      assert fs[0] in fs && forall f :: f in fs[1..] ==> f in fs;
      SafeReads(fs[0].value, 0, false);
      SafeFieldsRead(parent, fs[1..]);
    }
  }

  // ----- an unsafe one leans further to the right -----

  /** Nodes, not counting groupings. */
  function Size(e: Expr): nat
    decreases e, 0
  {
    match e
    case Grouping(x) => Size(x)
    case Binary(_, l, r) => 1 + Size(l) + Size(r)
    case Unary(_, x) => 1 + Size(x)
    case Access(x, _) => 1 + Size(x)
    case Call(f, xs) => 1 + Size(f) + SizeAll(xs)
    case Tuple(xs, _) => 1 + SizeAll(xs)
    case Record(fs, _) => 1 + SizeFields(fs)
    case _ => 1
  }

  function SizeAll(xs: seq<Expr>): nat
    decreases xs, 0
  {
    if xs == [] then 0 else Size(xs[0]) + SizeAll(xs[1..])
  }

  function SizeFields(fs: seq<Field>): nat
    decreases fs, 0
  {
    if fs == [] then 0 else Size(fs[0].value) + SizeFields(fs[1..])
  }

  /** How far to the right a tree leans: the sizes of all right operands together. */
  function Lean(e: Expr): nat
    decreases e, 0
  {
    match e
    case Grouping(x) => Lean(x)
    case Binary(_, l, r) => Lean(l) + Lean(r) + Size(r)
    case Unary(_, x) => Lean(x)
    case Access(x, _) => Lean(x)
    case Call(f, xs) => Lean(f) + LeanAll(xs)
    case Tuple(xs, _) => LeanAll(xs)
    case Record(fs, _) => LeanFields(fs)
    case _ => 0
  }

  function LeanAll(xs: seq<Expr>): nat
    decreases xs, 0
  {
    if xs == [] then 0 else Lean(xs[0]) + LeanAll(xs[1..])
  }

  function LeanFields(fs: seq<Field>): nat
    decreases fs, 0
  {
    if fs == [] then 0 else Lean(fs[0].value) + LeanFields(fs[1..])
  }

  lemma {:induction false} GraftLeans(x: Expr, z: Expr)
    ensures Size(Graft(x, z)) == Size(x) + Size(z) + 1
    ensures Lean(Graft(x, z)) >= Lean(x) + Lean(z) + Size(z)
    ensures Open(x) ==> Lean(Graft(x, z)) > Lean(x) + Lean(z) + Size(z)
    decreases x
  {
    if Open(x) { GraftLeans(x.right, z); }
  }

  /** The same size, no less lean, and more if `more`. */
  ghost predicate Leans(size: nat, lean: nat, size': nat, lean': nat, more: bool) {
    size == size' && lean <= lean' && (more ==> lean < lean')
  }

  lemma {:induction false} OpenStaysOpen(e: Expr, minPrec: nat, restrict: bool)
    requires 20 <= minPrec && OpenCoalesce(e, minPrec)
    ensures Open(AsRead(e, minPrec, restrict))
    decreases e
  {
    match e
    case Grouping(x) => OpenStaysOpen(x, minPrec, restrict);
    case Binary(op, l, r) =>
      if op == LogicalOr {
        OpenStaysOpen(r, RightMin(op), restrict);
        GraftStaysOpen(AsRead(l, LeftMin(op), restrict && IsBraceSpine(e)), AsRead(r, RightMin(op), restrict && IsBraceSpine(e)));
      } else if op != NullCoalescing {
        TightNotOpenCoalesce(r, RightMin(op));
      }
    case Unary(p, x) => TightNotOpenCoalesce(x, PrefixPower(p));
    case _ =>
  }

  /** Read back, an expression never leans less to the right than it was meant to, and an
      unsafe one leans more. */
  lemma {:induction false} ReadingLeans(e: Expr, minPrec: nat, restrict: bool)
    ensures Size(Regrouped(e, minPrec, restrict)) == Size(e) && Lean(Regrouped(e, minPrec, restrict)) == Lean(e)
    ensures Leans(Size(e), Lean(e), Size(AsRead(e, minPrec, restrict)), Lean(AsRead(e, minPrec, restrict)), !Safe(e))
    decreases e, 2
  {
    if e.Grouping? {
      ReadingLeans(e.inner, minPrec, restrict);
    } else {
      BareReadingLeans(e, if Wraps(e, minPrec, restrict) then false else restrict && IsBraceSpine(e));
    }
  }

  lemma {:induction false} BareReadingLeans(e: Expr, restrict: bool)
    requires !e.Grouping?
    ensures Size(Rebuilt(e, restrict)) == Size(e) && Lean(Rebuilt(e, restrict)) == Lean(e)
    ensures Leans(Size(e), Lean(e), Size(BareAsRead(e, restrict)), Lean(BareAsRead(e, restrict)), !Safe(e))
    decreases e, 1
  {
    hide AsRead, Regrouped, AllAsRead, RegroupedAll, FieldsAsRead, RegroupedFields, Wraps, Prec, Open, Graft, OpenCoalesce, SizeAll, LeanAll, SizeFields, LeanFields;
    match e
    case Binary(op, l, r) => BinaryReadingLeans(op, l, r, restrict);
    case Unary(p, x) => ReadingLeans(x, PrefixPower(p), restrict);
    case Access(x, _) => ReadingLeans(x, 100, restrict);
    case Call(f, xs) =>
      ReadingLeans(f, 91, restrict);
      AllReadingsLean(e, xs, 91, restrict);
    case Tuple(xs, _) => AllReadingsLean(e, xs, 0, false);
    case Record(fs, _) => FieldReadingsLean(e, fs);
    case _ =>
  }

  lemma {:induction false} BinaryReadingLeans(op: Op, l: Expr, r: Expr, restrict: bool)
    ensures var e := Binary(op, l, r); Size(Rebuilt(e, restrict)) == Size(e) && Lean(Rebuilt(e, restrict)) == Lean(e)
    ensures var e := Binary(op, l, r);
            Leans(Size(e), Lean(e), Size(BareAsRead(e, restrict)), Lean(BareAsRead(e, restrict)), !Safe(e))
    decreases Binary(op, l, r), 0
  {
    hide AsRead, Regrouped, Open, Graft, OpenCoalesce, Safe, Size, Lean;
    var l', r' := AsRead(l, LeftMin(op), restrict), AsRead(r, RightMin(op), restrict);
    ReadingLeans(l, LeftMin(op), restrict);
    ReadingLeans(r, RightMin(op), restrict);
    BinarySize(op, l, r);
    BinarySize(op, Regrouped(l, LeftMin(op), restrict), Regrouped(r, RightMin(op), restrict));
    BinarySize(op, l', r');
    if op == LogicalOr {
      GraftLeans(l', r');
      if OpenCoalesce(l, LeftMin(op)) { OpenStaysOpen(l, LeftMin(op), restrict); }
    }
  }

  lemma BinarySize(op: Op, l: Expr, r: Expr)
    ensures var e := Binary(op, l, r);
            && Size(e) == 1 + Size(l) + Size(r) && Lean(e) == Lean(l) + Lean(r) + Size(r)
            && (Safe(e) <==> Safe(l) && Safe(r) && !(op == LogicalOr && OpenCoalesce(l, LeftMin(op))))
  {
  }

  lemma {:induction false} AllReadingsLean(parent: Expr, xs: seq<Expr>, minPrec: nat, restrict: bool)
    requires forall x :: x in xs ==> x < parent
    ensures SizeAll(RegroupedAll(xs, minPrec, restrict)) == SizeAll(xs) && LeanAll(RegroupedAll(xs, minPrec, restrict)) == LeanAll(xs)
    ensures Leans(SizeAll(xs), LeanAll(xs), SizeAll(AllAsRead(xs, minPrec, restrict)), LeanAll(AllAsRead(xs, minPrec, restrict)),
                  exists x :: x in xs && !Safe(x))
    decreases parent, 0, |xs|
  {
    hide AsRead, Regrouped, Size, Lean, Safe;
    if xs != [] {
      assert xs[0] in xs && forall x :: x in xs <==> x == xs[0] || x in xs[1..];
      ReadingLeans(xs[0], minPrec, restrict);
      AllReadingsLean(parent, xs[1..], minPrec, restrict);
      assert AllAsRead(xs, minPrec, restrict)[1..] == AllAsRead(xs[1..], minPrec, restrict);
      assert RegroupedAll(xs, minPrec, restrict)[1..] == RegroupedAll(xs[1..], minPrec, restrict);
    }
  }

  lemma {:induction false} FieldReadingsLean(parent: Expr, fs: seq<Field>)
    requires forall f :: f in fs ==> f.value < parent
    ensures SizeFields(RegroupedFields(fs)) == SizeFields(fs) && LeanFields(RegroupedFields(fs)) == LeanFields(fs)
    ensures Leans(SizeFields(fs), LeanFields(fs), SizeFields(FieldsAsRead(fs)), LeanFields(FieldsAsRead(fs)),
                  exists f :: f in fs && !Safe(f.value))
    decreases parent, 0, |fs|
  {
    hide AsRead, Regrouped, Size, Lean, Safe;
    if fs != [] {
      assert fs[0] in fs && forall f :: f in fs <==> f == fs[0] || f in fs[1..];
      ReadingLeans(fs[0].value, 0, false);
      FieldReadingsLean(parent, fs[1..]);
      assert FieldsAsRead(fs)[1..] == FieldsAsRead(fs[1..]);
      assert RegroupedFields(fs)[1..] == RegroupedFields(fs[1..]);
    }
  }

  /** So the parser reads an expression as it was meant exactly when it is safe. */
  lemma ReadAsMeantExactly(e: Expr, minPrec: nat, restrict: bool)
    ensures AsRead(e, minPrec, restrict) == Regrouped(e, minPrec, restrict) <==> Safe(e)
  {
    ReadingLeans(e, minPrec, restrict);
    if Safe(e) { SafeReads(e, minPrec, restrict); }
  }
}
