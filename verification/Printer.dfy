/** The formatter's expression printer: parentheses are re-derived from binding powers, and
    braces are guarded where a subject's body would follow. */
module Printer {
  import opened Syntax

  function Prec(e: Expr): nat
    decreases e
  {
    match e
    case Grouping(x) => Prec(x)
    case Binary(op, _, _) => OpPrec(op)
    case Unary(p, _) => PrefixPower(p)
    case Call(_, _) => 90
    case Access(_, _) => 100
    case _ => 255
  }

  /** Whether a node prints a child bare, so that a brace in it stays exposed. */
  predicate IsBraceSpine(e: Expr) {
    e.Call? || e.Binary? || e.Unary? || e.Access?
  }

  function OpToken(op: Op): Token { if op == Subtraction then Minus else InfixTok(op) }

  /** The token a prefix operator is read as; `-` depends on what stands before it. */
  function PrefixToken(p: Prefix, spaced: bool): Token {
    match p
    case Negation => if spaced then UnaryMinus else Minus
    case LogicalNot => Bang
    case BitNot => Tilde
  }

  /** Does `e` print inside parentheses where `minPrec` is asked for? */
  predicate Wraps(e: Expr, minPrec: nat, restrict: bool) {
    (restrict && e.Record?) || Prec(e) < minPrec
  }

  /** The tokens `e` is printed as. `spaced` says whether white space precedes the first. */
  function Print(e: Expr, minPrec: nat, restrict: bool, spaced: bool): seq<Token>
    decreases e, 1
  {
    if e.Grouping? then Print(e.inner, minPrec, restrict, spaced)
    else if Wraps(e, minPrec, restrict) then [LeftParen] + (Render(e, false, false) + [RightParen])
    else Render(e, restrict && IsBraceSpine(e), spaced)
  }

  /** `e`'s own syntax; `Print` decides whether it needs parentheses. */
  function Render(e: Expr, restrict: bool, spaced: bool): seq<Token>
    decreases e, 0
  {
    match e
    case Ident(n) => [IdentTok(n)]
    case Number(n) => [DigitsTok(n)]
    case Float(n, d) => [DigitsTok(n), Dot, DigitsTok(d)]
    case Literal(c) => [LiteralTok(c)]
    case EmptyTuple => [LeftParen, RightParen]
    case Grouping(x) => Print(x, 0, restrict, spaced)
    case Binary(op, l, r) =>
      Print(l, LeftMin(op), restrict, spaced) + ([OpToken(op)] + Print(r, RightMin(op), restrict, true))
    case Unary(p, x) => [PrefixToken(p, spaced)] + Print(x, PrefixPower(p), restrict, false)
    case Access(x, a) => Print(x, 100, restrict, spaced) + [Dot, AccessorToken(a)]
    case Call(f, xs) => Print(f, 91, restrict, spaced) + PrintArgs(xs, restrict)
    case Tuple(xs, wrapped) => [LeftParen] + (Opening(wrapped) + (PrintItems(xs, wrapped, wrapped) + [RightParen]))
    case Record(fs, wrapped) => if fs == [] then [LeftBrace, RightBrace] else [LeftBrace] + (Opening(wrapped) + (PrintFields(fs, wrapped) + [RightBrace]))
  }

  function Opening(wrapped: bool): seq<Token> { if wrapped then [Break] else [] }

  /** After the last item: nothing, or a trailing comma and a line break. */
  function Closing(wrapped: bool): seq<Token> { if wrapped then [Comma, Break] else [] }

  function PrintArgs(xs: seq<Expr>, restrict: bool): seq<Token>
    decreases xs, 0
  {
    if xs == [] then [] else Print(xs[0], 91, restrict, true) + PrintArgs(xs[1..], restrict)
  }

  function PrintItems(xs: seq<Expr>, wrapped: bool, spaced: bool): seq<Token>
    decreases xs, 0
  {
    if xs == [] then Closing(wrapped)
    else Print(xs[0], 0, false, spaced) + (Separator(|xs| > 1, wrapped) + PrintItems(xs[1..], wrapped, true))
  }

  function Separator(more: bool, wrapped: bool): seq<Token> {
    if more then [Comma] + Opening(wrapped) else []
  }

  function PrintFields(fs: seq<Field>, wrapped: bool): seq<Token>
    decreases fs, 0
  {
    if fs == [] then Closing(wrapped)
    else PrintField(fs[0]) + (Separator(|fs| > 1, wrapped) + PrintFields(fs[1..], wrapped))
  }

  /** A field whose value is the identifier of the same name prints as the name alone. */
  function PrintField(f: Field): seq<Token>
    decreases f, 0
  {
    if f.value == Ident(f.name) then [IdentTok(f.name)]
    else [IdentTok(f.name), Colon] + Print(f.value, 0, false, true)
  }

  /** What the printed tokens say: `e` with a grouping wherever the printer puts parentheses. */
  function Regrouped(e: Expr, minPrec: nat, restrict: bool): Expr
    decreases e, 1
  {
    if e.Grouping? then Regrouped(e.inner, minPrec, restrict)
    else if Wraps(e, minPrec, restrict) then Grouping(Rebuilt(e, false))
    else Rebuilt(e, restrict && IsBraceSpine(e))
  }

  function Rebuilt(e: Expr, restrict: bool): Expr
    decreases e, 0
  {
    match e
    case Grouping(x) => Regrouped(x, 0, restrict)
    case Binary(op, l, r) => Binary(op, Regrouped(l, LeftMin(op), restrict), Regrouped(r, RightMin(op), restrict))
    case Unary(p, x) => Unary(p, Regrouped(x, PrefixPower(p), restrict))
    case Access(x, a) => Access(Regrouped(x, 100, restrict), a)
    case Call(f, xs) => Call(Regrouped(f, 91, restrict), RegroupedAll(xs, 91, restrict))
    case Tuple(xs, _) => Tuple(RegroupedAll(xs, 0, false), false)
    case Record(fs, _) => Record(RegroupedFields(fs), false)
    case _ => e
  }

  function RegroupedAll(xs: seq<Expr>, minPrec: nat, restrict: bool): (r: seq<Expr>)
    ensures |r| == |xs|
    decreases xs, 0
  {
    if xs == [] then [] else [Regrouped(xs[0], minPrec, restrict)] + RegroupedAll(xs[1..], minPrec, restrict)
  }

  function RegroupedFields(fs: seq<Field>): (r: seq<Field>)
    ensures |r| == |fs|
    decreases fs, 0
  {
    if fs == [] then [] else [Field(fs[0].name, Regrouped(fs[0].value, 0, false))] + RegroupedFields(fs[1..])
  }

  /** An expression without its groupings and layout choices: the tree it stands for. */
  function Strip(e: Expr): Expr
    decreases e
  {
    match e
    case Grouping(x) => Strip(x)
    case Binary(op, l, r) => Binary(op, Strip(l), Strip(r))
    case Unary(p, x) => Unary(p, Strip(x))
    case Access(x, a) => Access(Strip(x), a)
    case Call(f, xs) => Call(Strip(f), StripAll(xs))
    case Tuple(xs, _) => Tuple(StripAll(xs), false)
    case Record(fs, _) => Record(StripFields(fs), false)
    case _ => e
  }

  function StripAll(xs: seq<Expr>): seq<Expr>
    decreases xs
  {
    if xs == [] then [] else [Strip(xs[0])] + StripAll(xs[1..])
  }

  function StripFields(fs: seq<Field>): seq<Field>
    decreases fs
  {
    if fs == [] then [] else [Field(fs[0].name, Strip(fs[0].value))] + StripFields(fs[1..])
  }
}
