/** Tuples and records over several lines: commas, line breaks and both together separate
    their entries alike, and how the printer lays them out. */
module Separators {
  import opened Syntax
  import opened Wrappers
  import opened Parser
  import opened Printer
  import opened Reading
  import opened RoundTrip
  import opened LineBreaks

  /** What may stand behind an entry: a comma, line breaks, or a comma and then line breaks. */
  datatype Sep = Sep(comma: bool, breaks: nat)

  function SepTokens(s: Sep): seq<Token> { (if s.comma then [Comma] else []) + Breaks(s.breaks) }

  predicate Divides(s: Sep) { s.comma || s.breaks > 0 }

  /** Entries with something between any two of them; behind the last there may be nothing. */
  predicate Separated(seps: seq<Sep>) { forall i :: 0 <= i < |seps| - 1 ==> Divides(seps[i]) }

  function Listed(entries: seq<seq<Token>>, seps: seq<Sep>): seq<Token>
    requires |entries| == |seps|
  {
    if entries == [] then [] else entries[0] + (SepTokens(seps[0]) + Listed(entries[1..], seps[1..]))
  }

  /** The printed items; `spaced` says whether white space precedes the first. */
  function ItemTokens(xs: seq<Expr>, spaced: bool): (r: seq<seq<Token>>)
    ensures |r| == |xs|
  {
    if xs == [] then [] else [Print(xs[0], 0, false, spaced)] + ItemTokens(xs[1..], true)
  }

  function FieldTokens(fs: seq<Field>): (r: seq<seq<Token>>)
    ensures |r| == |fs|
  {
    if fs == [] then [] else [PrintField(fs[0])] + FieldTokens(fs[1..])
  }

  // ----- between two entries -----

  lemma BreaksAre(n: nat)
    ensures |Breaks(n)| == n && forall t :: t in Breaks(n) ==> t == Break
    ensures n > 0 ==> Breaks(n)[0] == Break
  {
  }

  lemma SkipsBreaks(ts: seq<Token>, i: nat, n: nat)
    requires Here(ts, i, Breaks(n)) && At(ts, i + n) != Some(Break)
    ensures i + n <= |ts| && SkipBreaks(ts, i) == i + n
  {
    BreaksAre(n);
    forall k | i <= k < i + n ensures ts[k] == Break { assert ts[i..i + n][k - i] == Breaks(n)[k - i]; }
    SkipsTo(ts, i, i + n);
  }

  lemma NextIs(ts: seq<Token>, i: nat, s: Sep)
    requires Here(ts, i, SepTokens(s)) && Divides(s) && At(ts, i + |SepTokens(s)|) != Some(Break)
    ensures NextEntry(ts, i) == Some(i + |SepTokens(s)|)
  {
    BreaksAre(s.breaks);
    if s.comma {
      Split(ts, i, [Comma], Breaks(s.breaks));
      First(ts, i, [Comma]);
      SkipsBreaks(ts, i + 1, s.breaks);
    } else {
      assert SepTokens(s) == Breaks(s.breaks);
      First(ts, i, Breaks(s.breaks));
      SkipsBreaks(ts, i, s.breaks);
    }
  }

  /** Nothing more of a list stands at `i`: no entry and no separator. */
  predicate Over(ts: seq<Token>, i: nat) { i < |ts| ==> ts[i] == RightParen || ts[i] == RightBrace || ts[i].Other? }

  lemma OverEnds(ts: seq<Token>, i: nat)
    requires i <= |ts| && Over(ts, i)
    ensures Ends(ts, i, false) && NextEntry(ts, i) == None && At(ts, i) != Some(Break) && At(ts, i) != Some(Colon)
    ensures ParseEntries(ts, i) == Entries([], i, []) && ParseFields(ts, i) == Fields([], i, [], true)
    ensures i < |ts| ==> !IsOperator(ts[i])
  {
    assert ParsePrimary(ts, i, false) == Outcome(None, i, []);
    assert ParseExpr(ts, i, 0, false) == Outcome(None, i, []);
  }

  /** An entry ends where a separator stands behind it, or nothing more of the list; behind line
      breaks alone there must not be an operator. */
  lemma EndsBefore(ts: seq<Token>, i: nat, s: Sep)
    requires Here(ts, i, SepTokens(s))
    requires var n := i + |SepTokens(s)|; (n < |ts| ==> ts[n] != Break && !IsOperator(ts[n])) && (!Divides(s) ==> Over(ts, n))
    ensures i <= |ts| && Ends(ts, i, false) && At(ts, i) != Some(Colon)
  {
    BreaksAre(s.breaks);
    if s.comma {
      Split(ts, i, [Comma], Breaks(s.breaks));
      First(ts, i, [Comma]);
    } else {
      assert SepTokens(s) == Breaks(s.breaks);
      if s.breaks > 0 {
        First(ts, i, Breaks(s.breaks));
        SkipsBreaks(ts, i, s.breaks);
      } else {
        OverEnds(ts, i);
      }
    }
  }

  /** Behind white space, nothing printed begins with an operator. */
  lemma {:induction false} BeginsNoOperator(e: Expr, minPrec: nat)
    requires WellFormed(e)
    ensures var ts := Print(e, minPrec, false, true); ts != [] && !IsOperator(ts[0]) && ts[0] != Break
    decreases e
  {
    match e
    case Grouping(x) => BeginsNoOperator(x, minPrec);
    case Binary(op, l, _) => BeginsNoOperator(l, LeftMin(op));
    case Access(x, _) => BeginsNoOperator(x, 100);
    case Call(f, _) => BeginsNoOperator(f, 91);
    case _ =>
  }

  // ----- tuples -----

  lemma EntryReads(ts: seq<Token>, i: nat, x: Expr, spaced: bool)
    requires WellFormed(x) && Here(ts, i, Print(x, 0, false, spaced))
    requires var j := i + |Print(x, 0, false, spaced)|; Ends(ts, j, false)
    ensures ParseExpr(ts, i, 0, false) == Outcome(Some(AsRead(x, 0, false)), i + |Print(x, 0, false, spaced)|, [])
  {
    hide ParseExpr, Halts, Continues, NotCaptured, NoArgument, Print, AsRead, WellFormed, Resume;
    var j := i + |Print(x, 0, false, spaced)|;
    EndsNotCaptured(x, 0, false, ts, j);
    PrintedParses(x, 0, false, spaced, ts, i, 0);
    EndsHalt(ts, j, 0, false);
    ResumeAtHalt(ts, j, AsRead(x, 0, false), 0, false);
    HaltsMeans(ts, j, 0, false, AsRead(x, 0, false));
  }

  lemma EntryNext(ts: seq<Token>, i: nat, x: Expr, j: nat, n: nat, rest: seq<Expr>, k: nat)
    requires i <= |ts| && ParseExpr(ts, i, 0, false) == Outcome(Some(x), j, [])
    requires j <= |ts| && NextEntry(ts, j) == Some(n) && ParseEntries(ts, n) == Entries(rest, k, [])
    ensures ParseEntries(ts, i) == Entries([x] + rest, k, [])
  {
    hide ParseExpr, ParsePrimary, ParseLoop, ParseArgs, ParseParenthetical, ParseRecord, ParseFields;
  }

  lemma {:induction false} EntriesListed(xs: seq<Expr>, seps: seq<Sep>, spaced: bool, ts: seq<Token>, i: nat)
    requires xs != [] && |seps| == |xs| && Separated(seps) && forall x :: x in xs ==> WellFormed(x)
    requires Here(ts, i, Listed(ItemTokens(xs, spaced), seps))
    requires Over(ts, i + |Listed(ItemTokens(xs, spaced), seps)|)
    ensures ParseEntries(ts, i) == Entries(AllAsRead(xs, 0, false), i + |Listed(ItemTokens(xs, spaced), seps)|, [])
    decreases |xs|
  {
    hide ParseExpr, ParseEntries, ParseFields, Here, Ends, Print, AsRead, WellFormed, SepTokens, NextEntry, IsOperator, Over;
    var item, sep, others := Print(xs[0], 0, false, spaced), SepTokens(seps[0]), Listed(ItemTokens(xs[1..], true), seps[1..]);
    assert Listed(ItemTokens(xs, spaced), seps) == item + (sep + others) by { ListedStep(xs, seps, spaced); }
    Split(ts, i, item, sep + others);
    var j := i + |item|;
    Split(ts, j, sep, others);
    var n := j + |sep|;
    AllStep(xs);
    if |xs| > 1 {
      assert xs[1] in xs && xs[1..][0] == xs[1] && Divides(seps[0]);
      BeginsNoOperator(xs[1], 0);
      ListedBegins(xs[1..], seps[1..], ts, n);
      EndsBefore(ts, j, seps[0]);
      NextIs(ts, j, seps[0]);
      EntryReads(ts, i, xs[0], spaced);
      assert Separated(seps[1..]) by { assert forall k :: 0 <= k < |seps| - 2 ==> seps[1..][k] == seps[k + 1]; }
      EntriesListed(xs[1..], seps[1..], true, ts, n);
      EntryNext(ts, i, AsRead(xs[0], 0, false), j, n, AllAsRead(xs[1..], 0, false), n + |others|);
    } else {
      assert others == [];
      OverEnds(ts, n);
      EndsBefore(ts, j, seps[0]);
      EntryReads(ts, i, xs[0], spaced);
      if Divides(seps[0]) {
        NextIs(ts, j, seps[0]);
        EntryNext(ts, i, AsRead(xs[0], 0, false), j, n, [], n);
      } else {
        assert sep == [] by { NoSep(seps[0]); }
        EntryAlone(ts, i, AsRead(xs[0], 0, false), j);
      }
    }
  }

  lemma EntryAlone(ts: seq<Token>, i: nat, x: Expr, j: nat)
    requires i <= |ts| && ParseExpr(ts, i, 0, false) == Outcome(Some(x), j, []) && j <= |ts| && NextEntry(ts, j) == None
    ensures ParseEntries(ts, i) == Entries([x], j, [])
  {
    hide ParseExpr, ParsePrimary, ParseLoop, ParseArgs, ParseParenthetical, ParseRecord, ParseFields;
  }

  lemma NoSep(s: Sep)
    requires !Divides(s)
    ensures SepTokens(s) == []
  {
    BreaksAre(0);
  }

  lemma ListedStep(xs: seq<Expr>, seps: seq<Sep>, spaced: bool)
    requires xs != [] && |seps| == |xs|
    ensures Listed(ItemTokens(xs, spaced), seps) == Print(xs[0], 0, false, spaced) + (SepTokens(seps[0]) + Listed(ItemTokens(xs[1..], true), seps[1..]))
  {
    hide Print, SepTokens;
    assert ItemTokens(xs, spaced)[1..] == ItemTokens(xs[1..], true);
  }

  lemma AllStep(xs: seq<Expr>)
    requires xs != []
    ensures AllAsRead(xs, 0, false) == [AsRead(xs[0], 0, false)] + AllAsRead(xs[1..], 0, false)
  {
  }

  lemma ListedBegins(xs: seq<Expr>, seps: seq<Sep>, ts: seq<Token>, i: nat)
    requires xs != [] && |seps| == |xs| && Print(xs[0], 0, false, true) != [] && Here(ts, i, Listed(ItemTokens(xs, true), seps))
    ensures i < |ts| && ts[i] == Print(xs[0], 0, false, true)[0]
  {
    hide Print, SepTokens;
    ListedStep(xs, seps, true);
    First(ts, i, Listed(ItemTokens(xs, true), seps));
  }

  lemma HereFits(ts: seq<Token>, i: nat, xs: seq<Token>)
    requires Here(ts, i, xs)
    ensures i + |xs| <= |ts|
  {
  }

  lemma EntriesBetween(xs: seq<Expr>, seps: seq<Sep>, spaced: bool, all: seq<Token>, lead: nat)
    requires |seps| == |xs| && Separated(seps) && forall x :: x in xs ==> WellFormed(x)
    requires Here(all, 1, Breaks(lead)) && Here(all, 1 + lead, Listed(ItemTokens(xs, spaced), seps))
    requires Over(all, 1 + lead + |Listed(ItemTokens(xs, spaced), seps)|)
    ensures ParseEntries(all, SkipBreaks(all, 1)) == Entries(AllAsRead(xs, 0, false), 1 + lead + |Listed(ItemTokens(xs, spaced), seps)|, [])
  {
    hide ParseExpr, ParseEntries, Here, Print, AsRead, WellFormed, SepTokens, ParsePrimary, Separated, Listed, ItemTokens, SkipBreaks, Breaks, AllAsRead, Begins;
    var inner := Listed(ItemTokens(xs, spaced), seps);
    var i := 1 + lead;
    if xs == [] {
      assert inner == [] by { NothingListed(ItemTokens(xs, spaced), seps); }
      HereFits(all, i, inner);
      OverEnds(all, i);
      SkipsBreaks(all, 1, lead);
      assert AllAsRead(xs, 0, false) == [] by { AllNone(xs); }
    } else {
      ItemBegins(xs[0], spaced);
      ListedStep(xs, seps, spaced);
      First(all, i, inner);
      SkipsBreaks(all, 1, lead);
      EntriesListed(xs, seps, spaced, all, i);
    }
  }

  lemma Bracketed(open: Token, lead: nat, inner: seq<Token>, close: Token, rest: seq<Token>)
    ensures var ts := [open] + (Breaks(lead) + (inner + [close])); var all, i, j := ts + rest, 1 + lead, 1 + lead + |inner|;
            && |ts| == j + 1 && j < |all| && all[0] == open && Here(all, 1, Breaks(lead)) && Here(all, i, inner) && all[j] == close && all[j + 1..] == rest
  {
    hide Breaks;
    BreaksAre(lead);
    var ts := [open] + (Breaks(lead) + (inner + [close]));
    var all := ts + rest;
    assert all[0..|ts|] == ts;
    Split(all, 0, [open], Breaks(lead) + (inner + [close]));
    Split(all, 1, Breaks(lead), inner + [close]);
    Split(all, 1 + lead, inner, [close]);
    First(all, 1 + lead + |inner|, [close]);
  }

  /** Entries in parentheses, separated in any of these ways and on any lines, are the unit, the
      expression itself, or the tuple of them. */
  lemma ParenthesesOverLines(xs: seq<Expr>, seps: seq<Sep>, lead: nat, restrict: bool, rest: seq<Token>)
    requires |seps| == |xs| && Separated(seps) && Ends(rest, 0, restrict) && forall x :: x in xs ==> WellFormed(x)
    ensures var ts := [LeftParen] + (Breaks(lead) + (Listed(ItemTokens(xs, lead > 0), seps) + [RightParen]));
            var read := if xs == [] then EmptyTuple else if |xs| == 1 then Grouping(AsRead(xs[0], 0, false)) else Tuple(AllAsRead(xs, 0, false), false);
            ParseExpr(ts + rest, 0, 0, restrict) == Outcome(Some(read), |ts|, [])
  {
    hide ParseExpr, ParseEntries, Here, Ends, Print, AsRead, WellFormed, SepTokens, ParsePrimary, Separated, Halts, Listed, ItemTokens, SkipBreaks, Breaks, AllAsRead, Begins, Parenthetical;
    var inner := Listed(ItemTokens(xs, lead > 0), seps);
    var ts := [LeftParen] + (Breaks(lead) + (inner + [RightParen]));
    var all := ts + rest;
    var i, j := 1 + lead, 1 + lead + |inner|;
    Bracketed(LeftParen, lead, inner, RightParen, rest);
    EntriesBetween(xs, seps, lead > 0, all, lead);
    var items := AllAsRead(xs, 0, false);
    ParenStep(all, 0, items, j, restrict);
    PrimaryAlone(all, 0, restrict, Parenthetical(items), |ts|, rest);
    Enclosing(xs);
  }

  lemma Enclosing(xs: seq<Expr>)
    ensures Parenthetical(AllAsRead(xs, 0, false)) == if xs == [] then EmptyTuple else if |xs| == 1 then Grouping(AsRead(xs[0], 0, false)) else Tuple(AllAsRead(xs, 0, false), false)
  {
    hide AsRead;
  }

  lemma NothingListed(entries: seq<seq<Token>>, seps: seq<Sep>)
    requires entries == [] && seps == []
    ensures Listed(entries, seps) == []
  {
  }

  lemma AllNone(xs: seq<Expr>)
    requires xs == []
    ensures AllAsRead(xs, 0, false) == []
  {
  }

  lemma ItemBegins(x: Expr, spaced: bool)
    requires WellFormed(x)
    ensures var ts := Print(x, 0, false, spaced); ts != [] && ts[0] != Break
  {
    hide Print, WellFormed;
    PrintBegins(x, 0, false, spaced);
  }

  /** A primary expression with nothing behind it is the whole. */
  lemma PrimaryAlone(ts: seq<Token>, i: nat, restrict: bool, x: Expr, j: nat, rest: seq<Token>)
    requires i <= |ts| && ParsePrimary(ts, i, restrict) == Outcome(Some(x), j, []) && j <= |ts| && ts[j..] == rest && Ends(rest, 0, restrict)
    ensures ParseExpr(ts, i, 0, restrict) == Outcome(Some(x), j, [])
  {
    hide ParsePrimary, ParseLoop, Halts, Ends, NoArgument;
    EndsShift(rest, ts, j, restrict);
    EndsHalt(ts, j, 0, restrict);
    HaltsMeans(ts, j, 0, restrict, x);
  }

  // ----- records -----

  lemma FieldReads(ts: seq<Token>, i: nat, f: Field)
    requires WellFormed(f.value) && Here(ts, i, PrintField(f))
    requires var j := i + |PrintField(f)|; Ends(ts, j, false) && At(ts, j) != Some(Colon)
    ensures FieldAt(ts, i, FieldAsRead(f), i + |PrintField(f)|)
  {
    hide ParseExpr, Here, Ends, Print, WellFormed;
    First(ts, i, PrintField(f));
    if f.value != Ident(f.name) {
      var value := Print(f.value, 0, false, true);
      Split(ts, i, [IdentTok(f.name), Colon], value);
      Split(ts, i, [IdentTok(f.name)], [Colon] + value) by { assert [IdentTok(f.name), Colon] + value == [IdentTok(f.name)] + ([Colon] + value); }
      First(ts, i + 1, [Colon] + value);
      EntryReads(ts, i + 2, f.value, true);
    } else {
      assert AsRead(f.value, 0, false) == f.value;
    }
  }

  lemma FieldNext(ts: seq<Token>, i: nat, f: Field, j: nat, n: nat, rest: seq<Field>, k: nat)
    requires FieldAt(ts, i, f, j) && j <= |ts| && NextEntry(ts, j) == Some(n) && ParseFields(ts, n) == Fields(rest, k, [], true)
    ensures ParseFields(ts, i) == Fields([f] + rest, k, [], true)
  {
    hide ParseExpr, ParsePrimary, ParseLoop, ParseArgs, ParseParenthetical, ParseEntries, ParseRecord;
  }

  lemma FieldAlone(ts: seq<Token>, i: nat, f: Field, j: nat)
    requires FieldAt(ts, i, f, j) && j <= |ts| && NextEntry(ts, j) == None
    ensures ParseFields(ts, i) == Fields([f], j, [], true)
  {
    hide ParseExpr, ParsePrimary, ParseLoop, ParseArgs, ParseParenthetical, ParseEntries, ParseRecord;
  }

  lemma {:induction false} FieldsListed(fs: seq<Field>, seps: seq<Sep>, ts: seq<Token>, i: nat)
    requires fs != [] && |seps| == |fs| && Separated(seps) && forall f :: f in fs ==> WellFormed(f.value)
    requires Here(ts, i, Listed(FieldTokens(fs), seps))
    requires Over(ts, i + |Listed(FieldTokens(fs), seps)|)
    ensures ParseFields(ts, i) == Fields(FieldsAsRead(fs), i + |Listed(FieldTokens(fs), seps)|, [], true)
    decreases |fs|
  {
    hide ParseExpr, ParseEntries, ParseFields, Here, Ends, PrintField, AsRead, WellFormed, SepTokens, NextEntry, IsOperator, FieldAt, Over;
    var field, sep, others := PrintField(fs[0]), SepTokens(seps[0]), Listed(FieldTokens(fs[1..]), seps[1..]);
    assert Listed(FieldTokens(fs), seps) == field + (sep + others) by { FieldsStep(fs, seps); }
    Split(ts, i, field, sep + others);
    var j := i + |field|;
    Split(ts, j, sep, others);
    var n := j + |sep|;
    FieldsAsReadStep(fs);
    if |fs| > 1 {
      assert fs[1] in fs && fs[1..][0] == fs[1] && Divides(seps[0]);
      FieldsListedBegin(fs[1..], seps[1..], ts, n);
      EndsBefore(ts, j, seps[0]);
      NextIs(ts, j, seps[0]);
      FieldReads(ts, i, fs[0]);
      assert Separated(seps[1..]) by { assert forall k :: 0 <= k < |seps| - 2 ==> seps[1..][k] == seps[k + 1]; }
      FieldsListed(fs[1..], seps[1..], ts, n);
      FieldNext(ts, i, FieldAsRead(fs[0]), j, n, FieldsAsRead(fs[1..]), n + |others|);
    } else {
      assert others == [];
      OverEnds(ts, n);
      EndsBefore(ts, j, seps[0]);
      FieldReads(ts, i, fs[0]);
      if Divides(seps[0]) {
        NextIs(ts, j, seps[0]);
        FieldNext(ts, i, FieldAsRead(fs[0]), j, n, [], n);
      } else {
        assert sep == [] by { NoSep(seps[0]); }
        FieldAlone(ts, i, FieldAsRead(fs[0]), j);
      }
    }
  }

  lemma FieldsStep(fs: seq<Field>, seps: seq<Sep>)
    requires fs != [] && |seps| == |fs|
    ensures Listed(FieldTokens(fs), seps) == PrintField(fs[0]) + (SepTokens(seps[0]) + Listed(FieldTokens(fs[1..]), seps[1..]))
  {
    hide PrintField, SepTokens;
    assert FieldTokens(fs)[1..] == FieldTokens(fs[1..]);
  }

  lemma FieldsAsReadStep(fs: seq<Field>)
    requires fs != []
    ensures FieldsAsRead(fs) == [FieldAsRead(fs[0])] + FieldsAsRead(fs[1..])
  {
    hide AsRead;
  }

  lemma NameFirst(f: Field)
    ensures PrintField(f) != [] && PrintField(f)[0] == IdentTok(f.name)
  {
    hide Print;
  }

  lemma FieldsListedBegin(fs: seq<Field>, seps: seq<Sep>, ts: seq<Token>, i: nat)
    requires fs != [] && |seps| == |fs| && Here(ts, i, Listed(FieldTokens(fs), seps))
    ensures i < |ts| && ts[i] == IdentTok(fs[0].name) && !IsOperator(ts[i])
  {
    hide SepTokens, PrintField, Listed, FieldTokens, Here;
    FieldsStep(fs, seps);
    NameFirst(fs[0]);
    First(ts, i, Listed(FieldTokens(fs), seps));
  }

  lemma FieldsBetween(fs: seq<Field>, seps: seq<Sep>, all: seq<Token>, lead: nat)
    requires |seps| == |fs| && Separated(seps) && forall f :: f in fs ==> WellFormed(f.value)
    requires Here(all, 1, Breaks(lead)) && Here(all, 1 + lead, Listed(FieldTokens(fs), seps))
    requires Over(all, 1 + lead + |Listed(FieldTokens(fs), seps)|)
    ensures ParseFields(all, SkipBreaks(all, 1)) == Fields(FieldsAsRead(fs), 1 + lead + |Listed(FieldTokens(fs), seps)|, [], true)
  {
    hide ParseExpr, ParseFields, Here, PrintField, AsRead, WellFormed, SepTokens, ParsePrimary, Separated, Listed, FieldTokens, SkipBreaks, Breaks, FieldsAsRead, IsOperator;
    var inner := Listed(FieldTokens(fs), seps);
    var i := 1 + lead;
    if fs == [] {
      assert inner == [] by { NothingListed(FieldTokens(fs), seps); }
      HereFits(all, i, inner);
      OverEnds(all, i);
      SkipsBreaks(all, 1, lead);
      assert FieldsAsRead(fs) == [] by { NoFieldsRead(fs); }
    } else {
      FieldsListedBegin(fs, seps, all, i);
      SkipsBreaks(all, 1, lead);
      FieldsListed(fs, seps, all, i);
    }
  }

  /** Fields in braces, separated in any of these ways and on any lines, are the record. */
  lemma BracesOverLines(fs: seq<Field>, seps: seq<Sep>, lead: nat, rest: seq<Token>)
    requires |seps| == |fs| && Separated(seps) && Ends(rest, 0, false) && forall f :: f in fs ==> WellFormed(f.value)
    ensures var ts := [LeftBrace] + (Breaks(lead) + (Listed(FieldTokens(fs), seps) + [RightBrace]));
            ParseExpr(ts + rest, 0, 0, false) == Outcome(Some(Record(FieldsAsRead(fs), false)), |ts|, [])
  {
    hide ParseExpr, ParseFields, Here, Ends, PrintField, AsRead, WellFormed, SepTokens, ParsePrimary, Separated, Halts, Listed, FieldTokens, SkipBreaks, Breaks, FieldsAsRead, IsOperator;
    var inner := Listed(FieldTokens(fs), seps);
    var ts := [LeftBrace] + (Breaks(lead) + (inner + [RightBrace]));
    var all := ts + rest;
    var i, j := 1 + lead, 1 + lead + |inner|;
    Bracketed(LeftBrace, lead, inner, RightBrace, rest);
    FieldsBetween(fs, seps, all, lead);
    RecordStep(all, 0, FieldsAsRead(fs), j);
    PrimaryAlone(all, 0, false, Record(FieldsAsRead(fs), false), |ts|, rest);
  }

  lemma NoFieldsRead(fs: seq<Field>)
    requires fs == []
    ensures FieldsAsRead(fs) == []
  {
  }

  // ----- what the printer chooses -----

  /** On one line: commas between the entries. On several: a comma and a line break behind each,
      the last one too. */
  function Chosen(n: nat, wrapped: bool): (r: seq<Sep>)
    ensures |r| == n
    ensures forall i :: 0 <= i < n ==> r[i] == if wrapped then Sep(true, 1) else Sep(i < n - 1, 0)
  {
    seq(n, i => if wrapped then Sep(true, 1) else Sep(i < n - 1, 0))
  }

  lemma {:induction false} ItemsChosen(xs: seq<Expr>, wrapped: bool, spaced: bool)
    requires xs != []
    ensures PrintItems(xs, wrapped, spaced) == Listed(ItemTokens(xs, spaced), Chosen(|xs|, wrapped))
    decreases |xs|
  {
    hide Print;
    var seps := Chosen(|xs|, wrapped);
    ListedStep(xs, seps, spaced);
    assert Breaks(1) == [Break] && Breaks(0) == [];
    if |xs| > 1 {
      ItemsChosen(xs[1..], wrapped, true);
      assert seps[1..] == Chosen(|xs| - 1, wrapped);
      ItemsMore(xs, wrapped, spaced);
      assert SepTokens(seps[0]) == Separator(true, wrapped);
    } else {
      ItemsOne(xs, wrapped, spaced);
      assert Listed(ItemTokens(xs[1..], true), seps[1..]) == [];
      assert SepTokens(seps[0]) == Closing(wrapped);
    }
  }

  lemma {:induction false} FieldsChosen(fs: seq<Field>, wrapped: bool)
    requires fs != []
    ensures PrintFields(fs, wrapped) == Listed(FieldTokens(fs), Chosen(|fs|, wrapped))
    decreases |fs|
  {
    hide PrintField;
    var seps := Chosen(|fs|, wrapped);
    FieldsStep(fs, seps);
    assert Breaks(1) == [Break] && Breaks(0) == [];
    if |fs| > 1 {
      FieldsChosen(fs[1..], wrapped);
      assert seps[1..] == Chosen(|fs| - 1, wrapped);
      FieldsMore(fs, wrapped);
      assert SepTokens(seps[0]) == Separator(true, wrapped);
    } else {
      FieldsOne(fs, wrapped);
      assert Listed(FieldTokens(fs[1..]), seps[1..]) == [];
      assert SepTokens(seps[0]) == Closing(wrapped);
    }
  }

  /** A collection is printed so, with a line break behind its opening token if wrapped. */
  lemma TuplePrints(xs: seq<Expr>, wrapped: bool, spaced: bool)
    requires xs != []
    ensures var lead := if wrapped then 1 else 0;
            Print(Tuple(xs, wrapped), 0, false, spaced) == [LeftParen] + (Breaks(lead) + (Listed(ItemTokens(xs, wrapped), Chosen(|xs|, wrapped)) + [RightParen]))
  {
    hide PrintItems, Listed, ItemTokens;
    ItemsChosen(xs, wrapped, wrapped);
    assert Breaks(1) == [Break] && Breaks(0) == [];
    var e := Tuple(xs, wrapped);
    assert Print(e, 0, false, spaced) == Render(e, false, spaced);
  }

  lemma RecordPrints(fs: seq<Field>, wrapped: bool, spaced: bool)
    requires fs != []
    ensures var lead := if wrapped then 1 else 0;
            Print(Record(fs, wrapped), 0, false, spaced) == [LeftBrace] + (Breaks(lead) + (Listed(FieldTokens(fs), Chosen(|fs|, wrapped)) + [RightBrace]))
  {
    hide PrintFields, Listed, FieldTokens;
    FieldsChosen(fs, wrapped);
    assert Breaks(1) == [Break] && Breaks(0) == [];
    var e := Record(fs, wrapped);
    assert Print(e, 0, false, spaced) == Render(e, false, spaced);
  }
}
