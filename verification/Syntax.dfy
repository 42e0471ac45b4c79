/** Tokens, operators and expressions shared by the expression parser and the formatter. */
module Syntax {
  import opened Wrappers

  datatype Op =
    | Chain | Range | LogicalOr | NullCoalescing | LogicalAnd
    | Equality | Inequality
    | LessThan | LessThanEquals | GreaterThan | GreaterThanEquals
    | BitOr | BitXor | BitAnd | ShiftLeft | ShiftRight | ShiftRightUnsigned
    | Addition | Subtraction | Concat
    | Multiplication | Division | Remainder | Exponentiation

  datatype Prefix = Negation | LogicalNot | BitNot

  /** `InfixTok` is every infix operator token except `-`, which is `Minus`; `UnaryMinus`
      is the `-` with white space before it and none after. `LiteralTok` is a literal of one
      token: a bool, a duration, a number in another base, a string without interpolation.
      `Break` is a line break or an indentation change. `Other` is any token that neither
      starts nor continues an expression. */
  datatype Token =
    | IdentTok(name: string)
    | DigitsTok(value: nat)
    | LiteralTok(code: nat)
    | InfixTok(op: Op)
    | Minus | UnaryMinus | Bang | Tilde | Dot
    | LeftParen | RightParen | LeftBrace | RightBrace
    | Comma | Colon | Break
    | Other(code: nat)

  datatype Accessor = Name(name: string) | Index(index: nat)

  datatype Field = Field(name: string, value: Expr)

  /** `wrapped` records whether the layout engine put a collection on several lines; it is
      a choice of the printed form, and the parser always produces `false`. */
  datatype Expr =
    | Ident(name: string)
    | Number(value: nat)
    | Float(whole: nat, fraction: nat)
    | Literal(code: nat)
    | EmptyTuple
    | Grouping(inner: Expr)
    | Binary(op: Op, left: Expr, right: Expr)
    | Unary(prefix: Prefix, operand: Expr)
    | Access(receiver: Expr, accessor: Accessor)
    | Call(callee: Expr, args: seq<Expr>)
    | Tuple(items: seq<Expr>, wrapped: bool)
    | Record(fields: seq<Field>, wrapped: bool)

  // ----- the parser's table -----

  const CALL_LEFT: nat := 90
  const CALL_RIGHT: nat := 91
  const DOT_LEFT: nat := 100

  function LeftPower(op: Op): nat {
    match op
    case Chain => 0
    case Range => 10
    case LogicalOr => 20
    case NullCoalescing => 21
    case LogicalAnd => 30
    case Equality => 40 case Inequality => 40
    case LessThan => 50 case LessThanEquals => 50 case GreaterThan => 50 case GreaterThanEquals => 50
    case BitOr => 52
    case BitXor => 54
    case BitAnd => 56
    case ShiftLeft => 58 case ShiftRight => 58 case ShiftRightUnsigned => 58
    case Addition => 60 case Subtraction => 60 case Concat => 60
    case Multiplication => 70 case Division => 70 case Remainder => 70
    case Exponentiation => 81
  }

  function RightPower(op: Op): nat {
    match op
    case NullCoalescing => 20
    case Exponentiation => 80
    case _ => LeftPower(op) + 1
  }

  function PrefixPower(p: Prefix): nat {
    match p
    case Negation => 75
    case BitNot => 75
    case LogicalNot => 35
  }

  // ----- the formatter's table -----

  function OpPrec(op: Op): nat {
    match op
    case Exponentiation => 80
    case _ => LeftPower(op)
  }

  predicate IsRightAssoc(op: Op) {
    op == Exponentiation || op == NullCoalescing
  }

  function LeftMin(op: Op): nat { if IsRightAssoc(op) then OpPrec(op) + 1 else OpPrec(op) }

  function RightMin(op: Op): nat { if IsRightAssoc(op) then OpPrec(op) else OpPrec(op) + 1 }

  // ----- token classes -----

  function InfixOf(t: Token): Option<Op> {
    match t
    case InfixTok(op) => Some(op)
    case Minus => Some(Subtraction)
    case _ => None
  }

  /** Infix operators, and the `.` of an access: what may continue across a line break. */
  predicate IsOperator(t: Token) { InfixOf(t).Some? || t == Dot }

  predicate CanStartExpression(t: Token) {
    t.IdentTok? || t.DigitsTok? || t.LiteralTok? || t == LeftParen || t == LeftBrace || t == UnaryMinus
  }

  function PrefixOf(t: Token): Option<Prefix> {
    match t
    case Minus => Some(Negation)
    case UnaryMinus => Some(Negation)
    case Bang => Some(LogicalNot)
    case Tilde => Some(BitNot)
    case _ => None
  }

  function AccessorToken(a: Accessor): Token {
    match a case Name(n) => IdentTok(n) case Index(n) => DigitsTok(n)
  }

  /** A whole number, under groupings or not. */
  predicate IsNumber(e: Expr)
    decreases e
  {
    if e.Grouping? then IsNumber(e.inner) else e.Number?
  }

  /** Calls have an argument, tuples at least two items, as the parser produces them. */
  ghost predicate Shaped(e: Expr)
    decreases e
  {
    match e
    case Grouping(x) => Shaped(x)
    case Binary(_, l, r) => Shaped(l) && Shaped(r)
    case Unary(_, x) => Shaped(x)
    case Access(x, _) => Shaped(x)
    case Call(f, xs) => Shaped(f) && |xs| >= 1 && forall x :: x in xs ==> Shaped(x)
    case Tuple(xs, _) => |xs| >= 2 && forall x :: x in xs ==> Shaped(x)
    case Record(fs, _) => forall f :: f in fs ==> Shaped(f.value)
    case _ => true
  }

  /** And no whole number is a receiver, since its dot would be read as a decimal point. */
  ghost predicate WellFormed(e: Expr)
    decreases e
  {
    match e
    case Grouping(x) => WellFormed(x)
    case Binary(_, l, r) => WellFormed(l) && WellFormed(r)
    case Unary(_, x) => WellFormed(x)
    case Access(x, _) => WellFormed(x) && !IsNumber(x)
    case Call(f, xs) => WellFormed(f) && |xs| >= 1 && forall x :: x in xs ==> WellFormed(x)
    case Tuple(xs, _) => |xs| >= 2 && forall x :: x in xs ==> WellFormed(x)
    case Record(fs, _) => forall f :: f in fs ==> WellFormed(f.value)
    case _ => true
  }
}
