/** The formatter's expression printer as the source runs it: the brace restriction is a
    cell that is replaced on the way down and put back on the way up. */
module FormatterState {
  import opened Syntax
  import opened Printer

  // ----- the specification, one item at a time -----

  lemma ItemsStep(xs: seq<Expr>, i: nat, wrapped: bool, spaced: bool, done: seq<Token>)
    requires i < |xs|
    ensures done + PrintItems(xs[i..], wrapped, spaced) ==
            done + Print(xs[i], 0, false, spaced) + Separator(i + 1 < |xs|, wrapped) + PrintItems(xs[i + 1..], wrapped, true)
  {
    hide Print, Separator;
    assert xs[i..][0] == xs[i] && xs[i..][1..] == xs[i + 1..];
  }

  lemma FieldsStep(fs: seq<Field>, i: nat, wrapped: bool, done: seq<Token>)
    requires i < |fs|
    ensures done + PrintFields(fs[i..], wrapped) ==
            done + PrintField(fs[i]) + Separator(i + 1 < |fs|, wrapped) + PrintFields(fs[i + 1..], wrapped)
  {
    hide PrintField, Separator;
    assert fs[i..][0] == fs[i] && fs[i..][1..] == fs[i + 1..];
  }

  lemma ArgsStep(xs: seq<Expr>, i: nat, restrict: bool, done: seq<Token>)
    requires i < |xs|
    ensures done + PrintArgs(xs[i..], restrict) == done + Print(xs[i], 91, restrict, true) + PrintArgs(xs[i + 1..], restrict)
  {
    hide Print;
    assert xs[i..][0] == xs[i] && xs[i..][1..] == xs[i + 1..];
  }

  lemma NoneLeft(xs: seq<Expr>, fs: seq<Field>, wrapped: bool, flag: bool)
    requires xs == [] && fs == []
    ensures PrintArgs(xs, flag) == [] && PrintItems(xs, wrapped, flag) == Closing(wrapped) && PrintFields(fs, wrapped) == Closing(wrapped)
  {
  }

  class Formatter {
    var restrictBrace: bool

    constructor ()
      ensures !restrictBrace
    {
      restrictBrace := false;
    }

    /** Print `e` where its context asks for `minPrec`, wrapping it if it binds looser. */
    method FmtPrec(e: Expr, minPrec: nat, spaced: bool) returns (out: seq<Token>)
      modifies this
      ensures out == Print(e, minPrec, old(restrictBrace), spaced) && restrictBrace == old(restrictBrace)
      decreases e, 1
    {
      if e.Grouping? {
        out := FmtPrec(e.inner, minPrec, spaced);
        return;
      }
      var restrict := restrictBrace;
      var braceGuard := restrict && e.Record?;
      if braceGuard || Prec(e) < minPrec {
        var saved := restrictBrace;
        restrictBrace := false;
        var doc := RenderExpr(e, false);
        restrictBrace := saved;
        out := [LeftParen] + (doc + [RightParen]);
      } else if restrict && !IsBraceSpine(e) {
        var saved := restrictBrace;
        restrictBrace := false;
        out := RenderExpr(e, spaced);
        restrictBrace := saved;
      } else {
        out := RenderExpr(e, spaced);
      }
    }

    /** Print `e`'s own syntax. */
    method RenderExpr(e: Expr, spaced: bool) returns (out: seq<Token>)
      requires e.Tuple? || e.Record? ==> !restrictBrace
      modifies this
      ensures out == Render(e, old(restrictBrace), spaced) && restrictBrace == old(restrictBrace)
      decreases e, 0
    {
      match e
      case Ident(n) => out := [IdentTok(n)];
      case Number(n) => out := [DigitsTok(n)];
      case Float(n, d) => out := [DigitsTok(n), Dot, DigitsTok(d)];
      case Literal(c) => out := [LiteralTok(c)];
      case EmptyTuple => out := [LeftParen, RightParen];
      case Grouping(x) => out := FmtPrec(x, 0, spaced);
      case Binary(op, l, r) =>
        var left := FmtPrec(l, LeftMin(op), spaced);
        var right := FmtPrec(r, RightMin(op), true);
        out := left + ([OpToken(op)] + right);
      case Unary(p, x) =>
        var operand := FmtPrec(x, PrefixPower(p), false);
        out := [PrefixToken(p, spaced)] + operand;
      case Access(x, a) =>
        var receiver := FmtPrec(x, 100, spaced);
        out := receiver + [Dot, AccessorToken(a)];
      case Call(f, xs) =>
        var callee := FmtPrec(f, 91, spaced);
        var args := FormatArgs(xs);
        out := callee + args;
      case Tuple(xs, wrapped) =>
        var items := FormatItems(xs, wrapped);
        out := [LeftParen] + (Opening(wrapped) + (items + [RightParen]));
      case Record(fs, wrapped) =>
        if fs == [] {
          out := [LeftBrace, RightBrace];
        } else {
          var fields := FormatFields(fs, wrapped);
          out := [LeftBrace] + (Opening(wrapped) + (fields + [RightBrace]));
        }
    }

    method FormatArgs(xs: seq<Expr>) returns (out: seq<Token>)
      modifies this
      ensures out == PrintArgs(xs, old(restrictBrace)) && restrictBrace == old(restrictBrace)
      decreases xs, 0
    {
      hide Print, PrintArgs;
      out := [];
      assert xs[0..] == xs;
      for i := 0 to |xs|
        invariant restrictBrace == old(restrictBrace)
        invariant out + PrintArgs(xs[i..], restrictBrace) == PrintArgs(xs, restrictBrace)
      {
        ArgsStep(xs, i, restrictBrace, out);
        var arg := FmtPrec(xs[i], 91, true);
        out := out + arg;
      }
      NoneLeft(xs[|xs|..], [], false, restrictBrace);
    }

    method FormatItems(xs: seq<Expr>, wrapped: bool) returns (out: seq<Token>)
      requires !restrictBrace
      modifies this
      ensures out == PrintItems(xs, wrapped, wrapped) && restrictBrace == old(restrictBrace)
      decreases xs, 0
    {
      hide Print, PrintItems, Separator, Closing;
      out := [];
      assert xs[0..] == xs;
      for i := 0 to |xs|
        invariant !restrictBrace
        invariant out + PrintItems(xs[i..], wrapped, i > 0 || wrapped) == PrintItems(xs, wrapped, wrapped)
      {
        ItemsStep(xs, i, wrapped, i > 0 || wrapped, out);
        var item := FmtPrec(xs[i], 0, i > 0 || wrapped);
        out := out + item + Separator(i + 1 < |xs|, wrapped);
      }
      NoneLeft(xs[|xs|..], [], wrapped, |xs| > 0 || wrapped);
      out := out + Closing(wrapped);
    }

    method FormatField(f: Field) returns (out: seq<Token>)
      requires !restrictBrace
      modifies this
      ensures out == PrintField(f) && restrictBrace == old(restrictBrace)
      decreases f, 0
    {
      hide Print;
      out := [IdentTok(f.name)];
      if f.value != Ident(f.name) {
        var value := FmtPrec(f.value, 0, true);
        out := [IdentTok(f.name), Colon] + value;
      }
    }

    method FormatFields(fs: seq<Field>, wrapped: bool) returns (out: seq<Token>)
      requires !restrictBrace
      modifies this
      ensures out == PrintFields(fs, wrapped) && restrictBrace == old(restrictBrace)
      decreases fs, 0
    {
      hide Print, PrintField, PrintFields, Separator, Closing;
      out := [];
      assert fs[0..] == fs;
      for i := 0 to |fs|
        invariant !restrictBrace
        invariant out + PrintFields(fs[i..], wrapped) == PrintFields(fs, wrapped)
      {
        FieldsStep(fs, i, wrapped, out);
        var field := FormatField(fs[i]);
        out := out + field + Separator(i + 1 < |fs|, wrapped);
      }
      NoneLeft([], fs[|fs|..], wrapped, false);
      out := out + Closing(wrapped);
    }

    /** An `if` or `while` subject: printed under the restriction, which is then lifted. */
    method FormatSubject(e: Expr, spaced: bool) returns (out: seq<Token>)
      modifies this
      ensures out == Print(e, 0, true, spaced) && restrictBrace == old(restrictBrace)
    {
      var saved := restrictBrace;
      restrictBrace := true;
      out := FmtPrec(e, 0, spaced);
      restrictBrace := saved;
    }
  }
}
