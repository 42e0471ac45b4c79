# Pluma: verified models of the compiler, the formatter and the host

Pluma is a compiler front end, a formatter and a runtime host. This project models the parts
of it whose correctness spans many steps, and proves what they are for. Each module follows
one component of the repository; a method carries the source's loops and updates and is
proved equal to a specification function, or against a statement of its result, and lemmas
prove what is promised about that specification.

- **Type unification** (`Types`, `UnifierSpec`, `Unifier`, `RowMerge`, `PartialTuples`). The
  worklist solver over chained bindings, with its occurs check, lazy head resolution and final
  normalisation, against a solver that substitutes eagerly; the four tail cases of merging open
  records and partial tuples; and what whole runs of those merges make of a program's partial
  tuples.
- **Printing and parsing expressions** (`Syntax`, `Parser`, `ParserState`, `ParserRange`,
  `Printer`, `FormatterState`, `Reading`, `RoundTrip`, `NumberReceivers`, `Idempotence`,
  `Parentheses`, `Precedence`, `LineBreaks`, `Separators`, `Faults`). The formatter drops every
  source parenthesis and derives new ones from binding powers; the binding-power parser must
  read the same tree back, also where a brace would start a body. `Reading` says, tree by tree,
  what it reads, `Precedence` how operators group by their documented levels, `Parentheses` that
  no others are written than the source needs, `LineBreaks` and `Separators` what line breaks
  mean, and `Faults` what is reported where something is missing.
- **The layout engine** (`PrettyDoc`, `Layout`, `LayoutPaths`). The two stack machines `render`
  and `fits`, the recursive layout they implement, and that layout place by place.
- **Strings** (`Escapes`, `StringTokens`, `Templates`, `BlockLayout`, `BlockText`,
  `BlockDedent`, `BlockStrings`, `BlockRoundTrip`). Escapes, the tokenizer's string stacks,
  nested interpolations, and block strings through document, layout, white-space stripping,
  tokens, dedent and decoding.
- **The I/O reactor** (`Reactor`, `ReactorRuns`, `ReactorSafety`, `ReactorWakes`,
  `ReactorRecycling`). The reactor's own methods, and whole runs of it interleaved with any
  number of worker threads.
- **Exhaustiveness of `when`** (`WhenCheck`, `WhenMeaning`, `WhenOpen`, `WhenLowered`). The
  checks, what their acceptance means for values, and how it relates to the code the arms are
  lowered to.
- **Incremental analysis** (`Incremental`, `IncrementalSafety`, `IncrementalReports`). The
  depth-first module loader with its cache of clean analyses, against compiling from scratch,
  and what a pass reports and redoes.
- **Suggestions** (`Suggest`). Edit distance with two rolling rows, and the closest candidate.
- `Wrappers` holds the optional value.

## Where the code departs from what it is meant to do

Each of these is a lemma about a concrete input or family, beside the theorem that gives the
condition under which the property holds.

- `(a ?? b) or c` is printed as `a ?? b or c`, which reads as `a ?? (b or c)`
  (`ParserRange.CoalesceBeforeOr`): `??` has powers (21, 20), so its right operand takes in an
  `or` at 20. Every printed expression, number receivers aside, is read, without a diagnostic,
  as `Reading.AsRead` says (`RoundTrip.PrintedReadsAs`), and that is the expression itself
  exactly when no `or` has a left operand ending in a bare `??` (`RoundTrip.RoundTripExactly`).
  All other pairs of operators group by their levels (`Precedence.OperatorsGroup`).
- formatter/src/visitor.rs:503-523 says that every redundant parenthesis is dropped. `f -x` is
  printed as `f (-x)` and `a ?? b or c` as `a ?? (b or c)` (`Parentheses.SparePairsAreWritten`).
  A source of one line without brackets is printed as it was, token for token, exactly when no
  prefix operator stands in a tighter place than its own and no `or` is the right operand of
  `??` (`Parentheses.PrintUndoesParse`, `Parentheses.PrintIsSource`); and no source at all is
  printed with more parentheses than its own and one pair for each such place
  (`Parentheses.PrintAddsNone`).
- `{a: (a)}` is printed as `{a: a}` and, read again, as `{a}`. Formatting is idempotent exactly
  when no record field's value is its own name in parentheses and no `or` has a left operand
  ending in a bare `??` (`Idempotence.FormatTwice`).
- `(1).name` is printed as `1.name`, which does not read, `(1).2` as `1.2`, which reads as a
  decimal, and `1` with `.name` on the next line as `1.name` again
  (`NumberReceivers.NumberReceiverIsDecimal`). A printed expression is read back as itself
  exactly when no access has a whole number for its receiver, in parentheses or not, and no `or`
  stands over a bare `??` (`NumberReceivers.ShapedRoundTripExactly`); the expressions called
  well-formed in the other theorems have no such access.
- A record is dropped without a diagnostic exactly when its fields are well up to one whose
  colon has nothing behind it (`ParserRange.FieldsDropExactly`); a call then loses that argument
  (`ParserRange.HangingColonIsDropped`), and a following `or` lands over a bare `??`
  (`ParserRange.DroppedRecordLeavesRange`).
- A `when` over a number, a string, a function or a tuple needs no catch-all
  (`WhenOpen.OpenSubjectsAreNotChecked`), although compiler/src/analyzer.rs:4355-4358 says one
  is detected. On a type without bools, enums and lists it is exhaustive exactly when one arm
  tests nothing (`WhenOpen.OpenExhaustiveExactly`).
- `[a, b, ...rest]` counts as covering every non-empty list
  (`WhenOpen.LongHeadsCountAsNonEmpty`). Arms that go by length are exhaustive exactly when one
  of them takes every list from some length on and every shorter length is taken
  (`WhenOpen.ListExhaustiveExactly`), and any arms over lists
  exactly when they take every list no longer than one more than the longest arm
  (`WhenOpen.ListExhaustiveUpToLongest`).
- The cover test takes a product apart nowhere (`WhenMeaning.ProductsAreNotDecomposed`), and a
  name that is some prelude variant's for a test even where it binds: the check accepts exactly
  when the arms it can make use of are exhaustive (`WhenMeaning.CheckIsExact`).
- A bare name typed before its subject's type is known binds, but is lowered to a variant
  test when the type turns out to be a user enum with that variant
  (`WhenLowered.MisreadArmFallsThrough`); inside an arm the lowering binds even a prelude
  variant's name (`WhenLowered.NestedVariantNameBinds`). Inside an arm the two readings agree
  exactly when no identifier names a variant of its type beside another inhabited one, or the
  pattern runs on nothing (`WhenLowered.ReadingsAgreeExactly`); and no value falls through as
  lowered exactly when the arms, rewritten to what they run as, are exhaustive
  (`WhenLowered.FallsThroughExactly`, `WhenLowered.MisreadsFallThroughExactly`).
- A cached module that a pass does not load can be reused later although its dependency
  changed in between (`IncrementalSafety.UnloadedModuleGoesStale`). After a pass the cache
  matches the new sources exactly when every cached module it did not load is unchanged
  (`IncrementalSafety.PassAgrees`), as it is if neither it nor any import of it was edited
  (`IncrementalSafety.UneditedIsUnchanged`).
- A fiber's wake-up that is already buffered when the fiber is reaped still surfaces; from
  then until its id is recycled `poll` returns it exactly where that buffer held it
  (`ReactorWakes.ReapedWakesExactly`). The scheduler recycles the id too early: it reaps a fiber
  with its operation still in flight (wasm/src/helpers/task.rs:2450-2487), reclaims the finished
  scope at once (2572, 3555-3600) and hands the id to the next fiber (1913-1925). From every
  state of a run, recycling the id of a reaped fiber whose operation is in flight or whose
  wake-up is buffered can lead to a cancelled result delivered or to a call submitted twice
  (`ReactorRecycling.EarlyRecyclingGoesWrong`), and with the rule that waits for both no run
  does either (`ReactorRecycling.KeptRuleIsSafe`). `ReactorWakes.ReusedIdReceivesCancelled` is
  such a run from an idle reactor; of the two results the later one wins
  (`Reactor.ReusedIdTakesTheLater`).

## Model

| member | source | states |
|---|---|---|
| Unifier.UnifyEqConstraints | compiler/src/analyzer.rs:4919-5181 | A diagnostic is reported if and only if the constraints have no unifier; without one the substitution unifies them all and every unifier factors through it; it is always idempotent and introduces no variable. Diagnostics or not, substitution and diagnostics are those of the eager solver run to the end of the list, and the diagnostics account for every constraint. The loop terminates by (unbound variables, resolved size of the worklist). |
| Unifier.SolveTop | compiler/src/analyzer.rs:4940-5133 | One turn keeps the acyclic bindings and the equivalence of constraints with worklist and bindings (or the proof that there is no unifier), shrinks the measure, and takes the eager solver's next step, past diagnostics too. |
| UnifierSpec.RunAccounted | compiler/src/analyzer.rs:4940-5181 | Under the substitution returned, the diagnostics in their order are exactly those that the constraints in their order call for: none for sides that agree, one for each pair of heads that differ or variable that would contain itself, on the way down. |
| UnifierSpec.LeftIsBound | compiler/src/analyzer.rs:4955-4982 | Of two unsolved variables the left one is bound, to the right one. |
| Unifier.MatchHeads | compiler/src/analyzer.rs:4980-5133 | Nothing is reported exactly when the heads agree; then the children are pushed left to right; otherwise one diagnostic names the mismatch with its resolved types. |
| Unifier.Normalise | compiler/src/analyzer.rs:5135-5181 | Deep-resolving each bound variable once turns the chained map into its solved form. |
| Unifier.ResolveHead | compiler/src/analyzer.rs:5185-5194 | Chasing a head ends at an unbound variable or a constructor and changes the type for no substitution that respects the bindings. |
| Unifier.OccursIn | compiler/src/analyzer.rs:5196-5229 | Through the chained bindings it answers whether the variable occurs in the fully resolved type; it terminates because the bindings are acyclic. |
| Unifier.DeepResolve | compiler/src/analyzer.rs:5234-5319 | Resolving through the chains equals applying the solved substitution in one pass. |
| Unifier.BindKeepsTriangular | compiler/src/analyzer.rs:4965-4982 | Binding a variable past the occurs check keeps the binding map acyclic. |
| Unifier.OccursRefutes | compiler/src/analyzer.rs:4965-4982 | If the variable occurs in the other side, no substitution respecting the bindings unifies the two. |
| Unifier.KidsDecide | compiler/src/analyzer.rs:4984-5026 | Two compound types unify exactly when their heads agree and their children unify. |
| Unifier.RespectsSolved | compiler/src/analyzer.rs:5135-5181 | A substitution that respects the bindings cannot tell a type from its resolved form. |
| Unifier.DrainedMeaning | compiler/src/analyzer.rs:4940-5181 | With the worklist empty, being free of diagnostics is unifiability, and the solved form is a most general unifier. |
| RowMerge.UnifyRecords | compiler/src/analyzer.rs:5331-5493 | In every tail case it reports exactly the incompatible rows, field by field, and otherwise pushes and records the exact merge. |
| RowMerge.ReportedLabels | compiler/src/analyzer.rs:5331-5493 | The labels reported are exactly those one side has and the other, closed, has not, in the order of the fields. |
| RowMerge.UnifyTuples | compiler/src/analyzer.rs:5500-5628 | The same by index, with one mismatch report; a fresh row variable is spent only on two distinct open tails. |
| RowMerge.UnifyTupleWithPartial | compiler/src/analyzer.rs:5043-5115 | It reports exactly the indices out of bounds, pairs the elements in order, and closes an open tail with the indices left out. |
| RowMerge.IndexDecides | compiler/src/analyzer.rs:5043-5115 | For each access it is the tuple's length alone that decides between a report and a pushed pair. |
| RowMerge.MergeIsExact | compiler/src/analyzer.rs:5331-5493 | Compatible rows denote the same fields if and only if the pushed pairs hold and some value of the fresh row makes the recorded row solutions hold. |
| RowMerge.IncompatibleNeverEqual | compiler/src/analyzer.rs:5331-5493 | Rows reported as incompatible are equal under no reading of their types and tails. |
| RowMerge.MergeSameShape | compiler/src/analyzer.rs:5331-5628 | After the merge both rows resolve to the same labels and the same unsolved tail, and once the pushed pairs hold, to the same types at those labels. |
| RowMerge.TuplePartialExact | compiler/src/analyzer.rs:5043-5072 | On any pair of rows at all the tuple arm reports exactly the incompatible ones, save closed partial tuples with a gap. |
| RowMerge.ArmPairsMeaning | compiler/src/analyzer.rs:5043-5072 | The pairs the tuple arm pushes hold exactly when those of the row merge do. |
| PartialTuples.StepKeeps | compiler/src/analyzer.rs:5027-5115 | Accesses, merges, closings, read-backs and scheme instantiations keep it that partial tuples with one unsolved tail know the same indices, and a closed one leaves no gap. |
| PartialTuples.RunKeeps | compiler/src/analyzer.rs:5500-5628 | So it is in every state of every run. |
| PartialTuples.TupleArmIsExact | compiler/src/analyzer.rs:5058-5092 | In a run the tuple arm is handed only open partial tuples and reports exactly the pairs that can never be equal. |
| PartialTuples.OpenMergeNeverFails | compiler/src/analyzer.rs:5094-5098 | In a run two open partial tuples are never incompatible: the merge's mismatch report is not reached. |
| PrettyDoc.Fits | formatter/src/doc.rs:190-249 | It answers whether the first line of everything on the stack, groups in the mode they are reached in, stays within the budget and meets no mandatory newline flat. |
| PrettyDoc.Render | formatter/src/doc.rs:98-188 | The loop terminates and writes the recursive layout, in which each group has one mode. |
| PrettyDoc.StaysFlat | formatter/src/doc.rs:107-185 | A group reached inside a flat group is laid out flat: its own test cannot fail. |
| Layout.FlatLinesFit | formatter/src/doc.rs:98-249 | Every line that carries a flat group is at most the width, tabs counted as four. |
| Layout.RenderedLines | formatter/src/doc.rs:98-249 | Where no text holds a newline, the rendered string's own lines are the layout's, and those with a flat group fit; where the alternatives hold the same texts, all texts come out in order. |
| Layout.LayKeepsTexts | formatter/src/doc.rs:107-185 | Documents whose alternatives hold the same texts emit the same texts in the same order at every width. |
| Layout.FittingGroupIsFlat | formatter/src/doc.rs:152-180 | A group whose flat form and following first line fit is spelled flat, without a newline. |
| Layout.HardLineForcesBreak | formatter/src/doc.rs:152-180 | A mandatory newline breaks every group around it: taking all groups that hold one away changes the layout at no width, column or indentation. |
| Layout.BrokenLeadIsFirstLine | formatter/src/doc.rs:152-249 | What the fits test measures of a broken document is the first line it would be laid out with. |
| Layout.FlatLeadIsFlatForm | formatter/src/doc.rs:152-249 | What it measures of a document laid out flat is the flat form itself. |
| LayoutPaths.WrittenByPlace | formatter/src/doc.rs:98-188 | The layout is what is due at each place of the document, in document order and nothing else: texts, a blank or nothing at a break in a flat group, and at any other break a newline indented by the sum of all levels around its place. |
| FormatterState.Formatter.FmtPrec | formatter/src/visitor.rs:536-570 | Printing under the mutable brace restriction equals the specification and restores the restriction. |
| FormatterState.Formatter.RenderExpr | formatter/src/visitor.rs:571-608 | The arm of each expression form prints what the specification says and restores the restriction. |
| FormatterState.Formatter.FormatArgs | formatter/src/visitor.rs:754-786 | Arguments are printed at the call's right power, in order. |
| FormatterState.Formatter.FormatItems | formatter/src/visitor.rs:845-875 | Tuple items with their separators, on one line or several. |
| FormatterState.Formatter.FormatFields | formatter/src/visitor.rs:876-911 | Record fields with their separators. |
| FormatterState.Formatter.FormatField | formatter/src/visitor.rs:882-901 | A field shortens to its name exactly when its value is that identifier. |
| FormatterState.Formatter.FormatSubject | formatter/src/visitor.rs:1047-1052 | A subject is printed under the restriction, which is put back. |
| ParserState.ExpressionParser.ParseExpressionWithBindingPower | compiler/src/parser.rs:1024-1350 | Result, cursor and reported errors of the stateful parser are those of the recursive specification. |
| ParserState.ExpressionParser.ContinueExpression | compiler/src/parser.rs:1177-1350 | One turn of the operator loop keeps what remains to be parsed, and advances unless it is done. |
| ParserState.ExpressionParser.ParsePrimaryExpression | compiler/src/parser.rs:1029-1175 | Identifiers, numbers, other literals, parentheses, records (unless restricted) and prefix operators, as specified; a leading dot is reported. |
| ParserState.ExpressionParser.ParseDecimalNumber | compiler/src/parser.rs:829-855 | Digits are a whole number unless a dot is behind them; then they are a decimal, or the missing digits are reported. |
| ParserState.ExpressionParser.ParseImplicitMember | compiler/src/parser.rs:803-827 | Outside `using` a leading dot is always reported, as misplaced or for want of a name. |
| ParserState.ExpressionParser.ParseFieldOrElementAccess | compiler/src/parser.rs:1352-1400 | A name or an index after the dot, or the diagnostic owed. |
| ParserState.ExpressionParser.ParseCallArguments | compiler/src/parser.rs:1228-1265 | Juxtaposed arguments up to the first that is none; a `-` starts no argument. |
| ParserState.ExpressionParser.ParseParentheses | compiler/src/parser.rs:2361-2423 | Empty tuple, grouping or tuple by the number of entries, or the missing parenthesis reported. |
| ParserState.ExpressionParser.ParseRecordLiteral | compiler/src/parser.rs:2258-2359 | Fields with or without values, or the missing brace reported. |
| ParserState.ExpressionParser.RequireExpression | compiler/src/parser.rs:540-554 | A missing operand is reported unless an error was just reported. |
| ParserState.ExpressionParser.SkipToOperator | compiler/src/parser.rs:402-450 | Line breaks are passed over exactly when an operator follows them. |
| RoundTrip.PrintedReadsAs | compiler/src/parser.rs:1024-1400 | Any expression without a whole number as a receiver, printed in any context and followed by text that ends it is read without a diagnostic as exactly `AsRead` says, and the rest is left untouched: at every binding power and in a restricted subject. |
| RoundTrip.RoundTripExactly | formatter/src/visitor.rs:536-608 | What is read is the expression, regrouped, if and only if no `or` has a left operand that ends in a bare `??`. |
| RoundTrip.ResumeAtOr | compiler/src/parser.rs:1177-1227 | An `or` met while the parser is still inside the right operands of some `??` joins the innermost of them. |
| Reading.ReadAsMeantExactly | formatter/src/visitor.rs:1422-1458 | The tree read is the regrouped tree exactly for safe expressions. |
| Reading.ReadingLeans | compiler/src/parser.rs:1177-1227 | A misreading only ever rotates the tree to the right: it keeps its size and leans strictly further. |
| RoundTrip.RegroupedStrips | formatter/src/visitor.rs:536-608 | The regrouped tree is the printed tree once groupings are dropped. |
| RoundTrip.PrintedParses | compiler/src/parser.rs:1024-1350 | Within any token sequence, parsing a printed operand goes on behind it with what it was read as, inside any `??` it ends in first. |
| NumberReceivers.ShapedRoundTripExactly | formatter/src/visitor.rs:536-608 | Numbers as receivers included: a printed expression is read in full as its regrouped tree if and only if no access has a whole number for its receiver and no `or` stands over a bare `??`. |
| NumberReceivers.NumberReceiverIsDecimal | compiler/src/parser.rs:829-855 | A whole number in parentheses, or with a line break behind it, can be an access's receiver; as printed it fails to read, or reads as a decimal. |
| ParserRange.ExprInRange | compiler/src/parser.rs:1024-1400 | Unless some record in the input is dropped, what the parser returns without an error never has an `or` over a bare `??` on its left. |
| ParserRange.SafeIsCanonical | formatter/src/visitor.rs:1422-1458 | Regrouping gives a tree the parser can return exactly for safe expressions. |
| ParserRange.ExprFails | compiler/src/parser.rs:1029-1175 | An expression is missing without a diagnostic exactly where nothing begins one, at a brace a subject keeps, or at a dropped record; only the last moves the cursor. |
| ParserRange.FieldsDropExactly | compiler/src/parser.rs:2258-2359 | A record's fields fail without a diagnostic exactly when they are well up to one whose colon has no value behind it. |
| ParserRange.CoalesceBeforeOr | formatter/src/visitor.rs:1422-1450 | `(a ?? b) or c` prints to tokens that read as `a ?? (b or c)`, a different tree. |
| ParserRange.HangingColonIsDropped | compiler/src/parser.rs:2258-2359 | `f {a:` before a closing parenthesis is read as `f`, without a diagnostic. |
| ParserRange.DroppedRecordLeavesRange | compiler/src/parser.rs:1228-1265 | `a ?? f {n: or c` is read as `(a ?? f) or c`, without a diagnostic. |
| Idempotence.FormatTwice | formatter/src/visitor.rs:876-911 | Printing, parsing and printing again gives the first printing if and only if no field's value is its own name in parentheses and no `or` has a left operand ending in a bare `??`. |
| Idempotence.UnsafePrintsAnew | formatter/src/visitor.rs:536-608 | What an expression with such an `or` is read as never prints as that expression did. |
| Idempotence.PrintAgain | formatter/src/visitor.rs:536-608 | The second printing is two tokens shorter per such field, and the same when there is none. |
| Parentheses.ExprLean | compiler/src/parser.rs:1024-1350 | Every operand the parser builds without parentheses is one the printer leaves bare, except a loose prefix operator and an `or` behind `??`. |
| Parentheses.PrintAddsNone | formatter/src/visitor.rs:503-608 | A source read in full without a diagnostic is printed with at most its own parentheses and one pair for each place of those two kinds. |
| Parentheses.PrintUndoesParse | formatter/src/visitor.rs:503-608 | Tokens of one line without brackets, read in full without a diagnostic, are printed again, signs aside, if and only if there is no such place. |
| Parentheses.PrintIsSource | formatter/src/visitor.rs:503-608 | Without prefix operators they are printed exactly so. |
| Parentheses.SparePairsAreWritten | formatter/src/visitor.rs:503-523 | `f -x` and `a ?? b or c` are printed with a pair they are read alike without. |
| Precedence.OperatorsGroup | tree-sitter/grammar.js:16-31 | Between any operands, two infix operators group by the levels the editor grammar and the operator reference list, and to the right only for `**` and `??`; but an `or` behind a `??` joins its right operand. |
| Precedence.PrefixGroups | tree-sitter/grammar.js:16-31 | A prefix operator has an infix expression under it exactly when that operator's level is tighter than its own. |
| Precedence.EverySourceIsLevelled | compiler/src/parser.rs:1024-1350 | In the tree of every source read without a diagnostic each operator, call and access stands over its operands as the levels say. |
| LineBreaks.BreaksChangeNothing | compiler/src/parser.rs:1177-1195 | Whatever is read without a diagnostic is read alike, to the same rest, with line breaks put before any of its infix operators and dots. |
| LineBreaks.PrintedAcrossLines | compiler/src/parser.rs:1177-1195 | So is any printed expression. |
| LineBreaks.OperatorsSplit | compiler/src/parser.rs:1177-1195 | Every infix operator printed is such a place. |
| LineBreaks.DotsSplit | compiler/src/parser.rs:1177-1195 | So is every dot of an access. |
| LineBreaks.BreakEnds | compiler/src/parser.rs:1177-1195 | A line break before any other token, or before none, ends a printed expression. |
| Separators.ParenthesesOverLines | compiler/src/parser.rs:2361-2423 | Entries separated by commas, by line breaks or by both, with anything of that behind the last, are the same unit, grouping or tuple. |
| Separators.BracesOverLines | compiler/src/parser.rs:2258-2359 | Fields so separated are the same record. |
| Separators.TuplePrints | formatter/src/visitor.rs:845-875 | On one line items are printed with commas between them, on several with a comma and a line break behind each, the last one too. |
| Separators.RecordPrints | formatter/src/visitor.rs:876-911 | So are a record's fields. |
| Faults.MissingRightOperand | compiler/src/parser.rs:1268-1350 | An infix operator with no operand behind it, whatever is before it, gives no expression and one diagnostic. |
| Faults.MissingOperand | compiler/src/parser.rs:540-554 | So does a prefix operator. |
| Faults.MissingAccessor | compiler/src/parser.rs:1352-1402 | And a dot with no name or index behind it, with its own diagnostic. |
| Faults.LoneDots | compiler/src/parser.rs:803-855 | A dot without a receiver, with or without a name, and digits with a dot but no places each have theirs. |
| Faults.NoOtherArgument | compiler/src/parser.rs:1196-1265 | A token that is neither an operator, a dot nor a line break, and that no argument may begin with, is left alone: `f !x` is not a call. |
| Faults.MissingParenthesis | compiler/src/parser.rs:2361-2390 | Behind well-formed entries a missing parenthesis gives no expression and one diagnostic, at the token found. |
| Faults.MissingBrace | compiler/src/parser.rs:2258-2359 | So does a missing brace behind well-formed fields. |
| Escapes.EscapeString | formatter/src/visitor.rs:1594-1611 | The loop writes each character as its escape unit; the unit of `$` depends on a following `(`. |
| Escapes.EscapeBlockSegment | formatter/src/visitor.rs:1512-1523 | The same for block strings, where only `\` and the `$` of `$(` are escaped. |
| Escapes.DecodeStringEscapes | compiler/src/parser.rs:44-69 | A single left-to-right pass that keeps unknown escapes. |
| Escapes.DecodeUndoesEscape | compiler/src/parser.rs:41-69 | Decoding undoes either escaping, for every string. |
| Escapes.EscapesOnlySpecials | formatter/src/visitor.rs:1512-1611 | The escaped text is longer than the string by one for each character that must be escaped, and the same if there is none; ordinary strings come out on one line. |
| Escapes.UnknownEscapesStay | compiler/src/parser.rs:41-69 | Text without known escapes is decoded to itself, its backslashes kept. |
| StringTokens.TextRunsToStop | compiler/src/tokenizer.rs:151-243 | In any source, the next token inside a literal is its text up to the first closing quotes or `$(`, neither behind an odd number of backslashes, except that three quotes always close; a literal with neither gives no token. |
| StringTokens.Tokenizer.NextToken | compiler/src/tokenizer.rs:133-286 | The token returned is the first of those still to come, and the rest are what remains to come; none is returned exactly when none is left. |
| StringTokens.Tokenizer.TakeTurn | compiler/src/tokenizer.rs:147-286 | One turn of the loop updates the four stacks as the specification's step does. |
| Templates.LexesBody | compiler/src/tokenizer.rs:182-286 | A template's body and closing quotes yield its literal spans and matched interpolation tokens, to any depth, and leave the stacks as before the literal. |
| Templates.LexesQuoted | compiler/src/tokenizer.rs:156-286 | The same from the opening quote, in any code position. |
| Templates.LexesCode | compiler/src/tokenizer.rs:246-276 | The code of an interpolation, parentheses and nested strings included, leaves the stacks as they were. |
| Templates.EscapedIsQuiet | formatter/src/visitor.rs:1594-1611 | Escaped text neither ends its literal nor opens an interpolation. |
| BlockStrings.OrdinaryRoundTrip | formatter/src/visitor.rs:973-996 | A printed template tokenizes to its own tokens, whose parts decode to its literal runs. |
| BlockStrings.BodyParts | compiler/src/parser.rs:3276-3312 | The parts read from a template's tokens are the text of its own literal runs; nested literals are skipped. |
| BlockText.RenderBlockString | formatter/src/visitor.rs:1571-1592 | The loop over segments builds the block's document. |
| BlockText.BlockSpells | formatter/src/visitor.rs:1571-1592 | At any indentation, column and width the document spells quotes, the body with every line of its literal runs indented and its code as rendered, and quotes. |
| BlockLayout.StripTrailingWhitespace | formatter/src/lib.rs:36-46 | Every line loses its trailing white space, and nothing else changes. |
| BlockLayout.StripIndented | formatter/src/lib.rs:36-46 | Stripping an indented run whose lines end visibly, or at an interpolation, leaves the indentation on its non-empty lines only. |
| BlockLayout.StripCode | formatter/src/lib.rs:36-46 | Of printed code, over any number of lines, stripping takes the white space at the ends of its lines, and nothing inside its strings. |
| BlockDedent.ApplyBlockDedent | compiler/src/parser.rs:78-154 | The in-place edits of the parts give the dedented parts. |
| BlockDedent.OutdentPart | compiler/src/parser.rs:121-153 | At most the closing margin is taken from each line, counted afresh after each line break. |
| BlockDedent.BlockMeans | compiler/src/parser.rs:78-154 | Any literal in block form means its lines, each without as much of its margin as the closing quotes have, and no more. |
| BlockRoundTrip.BlockSafeExactly | formatter/src/visitor.rs:1525-1561 | The block test passes exactly for some text without carriage returns, without three quotes in a row in one run, and without white space at the end of a line. |
| BlockRoundTrip.TrimmedIsVisible | formatter/src/visitor.rs:1529-1560 | The block test's line condition says that every space has something behind it on its line. |
| BlockRoundTrip.BodyVisible | formatter/src/visitor.rs:1525-1561 | In a template that passes the test no line of an escaped literal run ends in white space, unless an interpolation follows on it. |
| BlockRoundTrip.StripLaysOut | formatter/src/lib.rs:36-46 | Stripping a file turns a rendered block into its laid out form, its code tidied at the ends of lines, and keeps the text around it. |
| BlockRoundTrip.DedentUndoesLayout | compiler/src/parser.rs:78-154 | Dedenting the laid out parts gives back the escaped literal runs. |
| BlockRoundTrip.LaidPortions | compiler/src/tokenizer.rs:182-243 | No laid out literal portion closes the block or opens an interpolation. |
| BlockRoundTrip.BlockRoundTrip | formatter/src/visitor.rs:1563-1592 | For every template that passes the block test, its code on one line or on several, at any indentation and width and between any text, escape, layout, strip, tokenize, dedent and decode return the original literal runs. |
| Reactor.Reactor.RegisterSocket | host/src/offload.rs:122-139 | A descriptor already watched is refused; otherwise the fiber waits on it. |
| Reactor.Reactor.Submit | host/src/offload.rs:141-156 | The operation is in flight and queued, or dropped when the channel is closed. |
| Reactor.Reactor.Collect | host/src/offload.rs:158-163 | The result stashed for the fiber, once. |
| Reactor.Reactor.Complete | host/src/offload.rs:57-64 | The result is queued and the poller notified. |
| Reactor.Reactor.PollBegin | host/src/offload.rs:185-205 | It blocks exactly when nothing is buffered and something is pending. |
| Reactor.Reactor.PollFinish | host/src/offload.rs:205-225 | Events, then the whole completion queue, then one wake-up, as the specification's steps. |
| Reactor.Reactor.Unwatch | host/src/offload.rs:227-242 | A wait is dropped, an operation in flight is marked discarded, a stashed result is dropped. |
| Reactor.EventsWake | host/src/offload.rs:202-210 | The poller's events ready exactly the parked fibers among them, each once, in the order of their first event, end exactly those waits, and touch nothing of the offloaded operations. |
| Reactor.FirstParkedIs | host/src/offload.rs:202-210 | Those are the fibers that are parked and have an event, none twice. |
| Reactor.DrainForgets | host/src/offload.rs:211-222 | A drain empties the queue and forgets every operation in it, cancelled or not. |
| Reactor.DrainStashes | host/src/offload.rs:211-222 | A fiber holds a result afterwards exactly if it held one or an uncancelled one was queued. |
| Reactor.DrainWakes | host/src/offload.rs:211-222 | The fibers of uncancelled results are woken in the order the results arrived. |
| Reactor.ReusedIdTakesTheLater | host/src/offload.rs:211-222 | With a fiber id reused while its cancelled operation runs, the later completion wins. |
| ReactorRuns.StepKeeps | host/src/offload.rs:248-276 | Every step of the scheduler or of a worker keeps the protocol's invariant. |
| ReactorSafety.EachOperationOnce | host/src/offload.rs:144-225 | Every submitted operation exists in exactly one place, unless dropped, and only a cancelled one is dropped. |
| ReactorSafety.RunKeeps | host/src/offload.rs:114-276 | The invariant holds in every state of every run. |
| ReactorSafety.DeliveredOnceToItsFiber | host/src/offload.rs:158-163 | In any run a delivered result goes to the fiber that asked, is what its worker computed, was not cancelled, and is delivered once. |
| ReactorSafety.CancelledNeverDelivered | host/src/offload.rs:227-242 | A cancelled operation is not delivered in the rest of the run. |
| ReactorSafety.WokenFiberCollects | host/src/v8host/offload.rs:63-93 | A fiber woken for an offloaded call finds that call's result and does not submit it again. |
| ReactorSafety.RefusesOnlyWhenIdle | host/src/offload.rs:186-192 | `poll` refuses to block exactly when no fiber is parked and nothing is in flight or buffered. |
| ReactorSafety.OnlyBufferedWakesSurvive | host/src/offload.rs:232-242 | After a fiber is reaped no step readies it, short of recycling its id. |
| ReactorSafety.BufferedWakeSurvives | host/src/offload.rs:232-242 | A wake-up at the front of the buffer stays there when its fiber is reaped. |
| ReactorWakes.ReapedWakesExactly | host/src/offload.rs:227-242 | In any run, from the reaping of a fiber until its id is recycled, the `n`th fiber `poll` returns is that one exactly if the `n`th wake-up buffered at the reaping was its own. |
| ReactorWakes.ReapedIsReturnedIfBuffered | host/src/offload.rs:227-242 | Once that many fibers have been returned, the reaped one was among them if and only if it was in the buffer. |
| ReactorWakes.ReusedIdReceivesCancelled | host/src/offload.rs:211-222 | A run, from an idle reactor, of a scheduler that recycles an id too early: the cancelled result is delivered to the fiber that got the id, whose own is dropped. |
| ReactorRecycling.EarlyRecyclingGoesWrong | wasm/src/helpers/task.rs:2450-2573 | In every state of every run that has a worker, recycling a reaped fiber's id against the rule, its operation in flight or its wake-up buffered, has a continuation that delivers a cancelled result or submits a call twice. |
| ReactorRecycling.KeptRuleIsSafe | host/src/offload.rs:227-242 | Under the rule no run does either. |
| ReactorSafety.PollIsItsSteps | host/src/offload.rs:205-225 | The steps of an undisturbed poll leave the reactor as its method does. |
| ReactorSafety.SomeoneCanMove | host/src/offload.rs:248-276 | A poll blocked on an operation is notified or some worker can take a step. |
| ReactorSafety.BlockedPollIsNotified | host/src/offload.rs:248-276 | However the workers are scheduled, a blocked poll is notified within a bounded number of their steps. |
| WhenCheck.CheckWhenExhaustive | compiler/src/analyzer.rs:4341-4431 | For bools and enums it lists exactly the values, by name, that no arm takes and no set of arms covers; for records and lists it accepts by their own rules; open types are always accepted. |
| WhenCheck.CoveredByArms | compiler/src/analyzer.rs:4361-4411 | The arm pass stops exactly when an arm takes the whole subject, and otherwise has seen only covered names. |
| WhenCheck.CheckListExhaustive | compiler/src/analyzer.rs:4533-4571 | Exactly the halves of the list space left uncovered are reported. |
| WhenCheck.CheckRecordExhaustive | compiler/src/analyzer.rs:4580-4607 | Accepted exactly when one arm has only catch-all fields or takes everything. |
| WhenCheck.CatchAllMatches | compiler/src/analyzer.rs:4645-4665 | A catch-all pattern matches every value of any type it fits. |
| WhenCheck.CoversIsSound | compiler/src/analyzer.rs:4433-4460 | Patterns that cover a type match every one of its values, through any nesting. |
| WhenCheck.VariantIsSound | compiler/src/analyzer.rs:4463-4516 | Arms that cover a variant match each of its values. |
| WhenCheck.ArmsAreLighter | compiler/src/analyzer.rs:4463-4516 | The sub-patterns gathered for a payload weigh less than the patterns they come from, so the mutual recursion ends on recursive enums as well. |
| WhenMeaning.AcceptedIsExhaustive | compiler/src/analyzer.rs:4341-4431 | An accepted `when` over a bool, a visible enum or a closed record matches every value of its type. |
| WhenMeaning.CoversIsExact | compiler/src/analyzer.rs:4433-4516 | On inhabited types, whatever their variants carry, the cover test holds exactly when the patterns it can make use of match every value. |
| WhenMeaning.CoversUsed | compiler/src/analyzer.rs:4433-4516 | The cover test does as if the patterns it cannot make use of were not there. |
| WhenMeaning.CheckIsExact | compiler/src/analyzer.rs:4341-4431 | Over a bool, an enum or a record the check accepts exactly when the arms it can make use of are exhaustive; so exactly when the arms are, where it can use them all. |
| WhenMeaning.MissingExactly | compiler/src/analyzer.rs:4383-4431 | A variant or bool is reported as missing exactly when some value of it is matched by none of the arms the check can make use of. |
| WhenMeaning.UncoveredInOrder | compiler/src/analyzer.rs:4383-4431 | The names are reported in the order of their declaration. |
| WhenLowered.ReadingsAgreeExactly | ir/src/lower.rs:2714-2722 | Inside an arm the analyzer's reading and the lowered one match the same values exactly when no identifier names a variant of its type beside another inhabited one, or the pattern runs on nothing. |
| WhenLowered.NameInsideSeparates | ir/src/lower.rs:2714-2722 | Where one does, any value the pattern runs on can be changed so that it still runs but no longer matches. |
| WhenLowered.FallsThroughExactly | ir/src/lower.rs:2628-2725 | No value falls through a lowered `when` exactly when its arms, rewritten to what they run as, are exhaustive. |
| WhenLowered.MisreadsFallThroughExactly | ir/src/lower.rs:2631-2655 | Without variant names inside the arms, exactly when the arms with every misread bare name taken for its variant are. |
| WhenLowered.AcceptedNeverFallsThrough | ir/src/lower.rs:2628-2725 | No accepted `when` over a closed type falls through as lowered, if none of its arms is misread. |
| WhenLowered.MisreadArmFallsThrough | ir/src/lower.rs:2631-2655 | A name the analyzer binds and the lowering tests is accepted alone and lets every other variant through. |
| WhenLowered.NestedVariantNameBinds | ir/src/lower.rs:2714-2722 | The concrete case: inside an arm, `none` matches a `some` at run time. |
| WhenOpen.OpenExhaustiveExactly | compiler/src/analyzer.rs:4355-4382 | On numbers, strings, functions and tuples of them every `when` is accepted; on those, and on records of them, it is exhaustive exactly when one arm tests nothing. |
| WhenOpen.OpenSubjectsAreNotChecked | compiler/src/analyzer.rs:4355-4359 | The concrete case: one literal arm over an open type is accepted and misses a value. |
| WhenOpen.LongHeadsCountAsNonEmpty | compiler/src/analyzer.rs:4545-4555 | `[]` and `[_, _, ...]` are accepted and miss one-element lists. |
| WhenOpen.ListExhaustiveExactly | compiler/src/analyzer.rs:4533-4571 | Arms that go by length are exhaustive exactly when one takes every list from some length on and each shorter length is taken; next to other arms that is still enough. |
| WhenOpen.ListExhaustiveUpToLongest | compiler/src/analyzer.rs:4533-4571 | Any arms over lists are exhaustive exactly when every list up to one longer than the longest arm matches one. |
| WhenOpen.AcceptedListIsExhaustive | compiler/src/analyzer.rs:4533-4571 | Accepted arms are exhaustive if those that count as covering the non-empty lists have one item and a rest. |
| WhenOpen.LengthsTakenIsAccepted | compiler/src/analyzer.rs:4533-4571 | The check refuses no such arms. |
| WhenMeaning.ProductsAreNotDecomposed | compiler/src/analyzer.rs:4463-4516 | Four arms that cover a pair of bools are refused: the test is incomplete there. |
| Incremental.Compiler.LoadModule | compiler/src/compiler.rs:458-750 | The recursive loader leaves exports, cache, reanalyzed set and diagnostics as the specification of the pass. |
| Incremental.Compiler.CachedExports | compiler/src/compiler.rs:660-695 | A cached module stands in exactly when it is no entry, no import was reanalyzed, and its source hash matches. |
| IncrementalSafety.ReuseIsFresh | compiler/src/compiler.rs:660-695 | A module is reused only where a new analysis would give the same exports and no diagnostic. |
| IncrementalSafety.PassAgrees | compiler/src/compiler.rs:458-750 | A pass from a cache that matches the sources before it gives the exports and diagnostics of a full compile; modules it did not reanalyze export what they did; of the modules it loaded its cache holds exactly the clean ones; and it matches the new sources exactly when every cached module it did not load is unchanged. |
| IncrementalSafety.UneditedIsUnchanged | compiler/src/compiler.rs:660-695 | A module is unchanged if neither its source nor that of any import, at any depth, was edited. |
| IncrementalSafety.EveryPassAgrees | compiler/src/compiler.rs:190-218 | The same for every pass of a chain of passes, whatever is edited in between, if each loads the cached modules that have changed. |
| IncrementalSafety.BakedAgree | compiler/src/compiler.rs:633-658 | Automatically imported modules, which the reuse test does not look at, are analyzed alike in both passes. |
| IncrementalSafety.UnloadedModuleGoesStale | compiler/src/compiler.rs:660-695 | A cached module that one pass does not load is reused with stale exports in the next. |
| IncrementalReports.FullCompileReports | compiler/src/compiler.rs:458-750 | A full compile loads the entries and what they depend on, nothing else, and reports the diagnostics of the fresh analyses of those modules, each module's once, dependencies first. |
| IncrementalReports.EveryPassReports | compiler/src/compiler.rs:697-750 | So does every pass of a chain, whatever it reuses. |
| IncrementalReports.ReanalyzedWhenDue | compiler/src/compiler.rs:660-695 | A pass analyzes a module anew if it is an entry, has another source than its cached analysis or none, or imports a reanalyzed module, and otherwise does not (an import that the rules reject may count or not). |
| IncrementalReports.IdleIsReused | compiler/src/compiler.rs:660-695 | So a module with nothing to do in its whole import closure is reused. |
| IncrementalReports.AcceptedExactly | compiler/src/compiler.rs:560-600 | An import is loaded exactly if the module may import it, as often as it is imported. |
| IncrementalReports.AcceptedInOrder | compiler/src/compiler.rs:560-600 | And in the order of the imports. |
| Suggest.EditDistance | compiler/src/suggest.rs:49-73 | The two swapped rows compute the recurrence's value. |
| Suggest.LevIsLeast | compiler/src/suggest.rs:47-73 | No script of insertions, deletions and substitutions is cheaper. |
| Suggest.LevIsReached | compiler/src/suggest.rs:47-73 | Some script is as cheap. |
| Suggest.Symmetric | compiler/src/suggest.rs:47-73 | The distance is symmetric. |
| Suggest.Triangle | compiler/src/suggest.rs:47-73 | It satisfies the triangle inequality. |
| Suggest.ZeroIsEqual | compiler/src/suggest.rs:47-73 | It is zero exactly between equal names. |
| Suggest.Closest | compiler/src/suggest.rs:10-45 | The result is an eligible candidate no other is better than, or none if there is none. |
| Suggest.EligibleExactly | compiler/src/suggest.rs:5-24 | A candidate is eligible exactly when it is another name that some script reaches with one edit, or with at most one for every three characters of the target. |
| Suggest.TiesBreak | compiler/src/suggest.rs:5-37 | The concrete case: of candidates one slip away a shorter comes first, and of two as long the one first in order. |
| Suggest.BytesCount | compiler/src/suggest.rs:5-37 | The concrete case: lengths count bytes. |
| Suggest.OrderIrrelevant | compiler/src/suggest.rs:5-9 | The suggestion depends on which candidates there are, not on their order. |

## Left out

Type unification:
- Rows inside the solver's loop: the solver is proved on types without rows, the row merges one step at a time, because the occurs check does not follow row tails.
- Enum arities are a precondition of the solver; the source asserts them in debug builds only.
- Generalisation, trait dispatch, and the ranges attached to diagnostics.

Printing and parsing:
- `let`, `try`, `defer`, `using` and block-headed expressions, lists, record updates, regular expressions and interpolations as operands. Without `using`, a leading dot is always an error.
- A literal of one token other than digits stands for itself; the digits are a number. Their spelling, their overflow diagnostics and the value and formatting of a decimal are not part of this model.
- The `&&` and `||` spellings, which the tokenizer reports and the parser reads as operators.
- Comments, and blank lines kept from the source. Whether a collection is printed on one line or several is an input of the printer here; the layout engine decides it.
- Error recovery beyond the first failure of a sub-parser, and diagnostics' ranges.

The layout engine:
- The width of characters wider than one column: a text counts its characters, as in the source.

Strings:
- Positions are counted in characters; the source counts bytes of UTF-8.
- Tokens other than literals, interpolation marks and parentheses, which do not touch the four stacks; code inside an interpolation is made of names, numbers, operators, brackets, white space, line breaks, parentheses and nested ordinary strings, without comments, nested block strings and malformed numbers (behind which the tokenizer skips to the next white space).
- The diagnostics of unterminated strings, bytes literals and regular expressions.

The reactor:
- The sockets themselves, the lazy start of the pool, panicking jobs, and the end of a run.
- ReactorRuns.StepKeeps: the pool's queue and the pinned worker's queue are one bag from which any free worker takes any job, which admits every order they produce. The scheduler is bound by three rules: a parked fiber does not run until `poll` returns it, a woken one first repeats its call, and a reaped fiber's id is recycled only when its operation and any wake-up for it are gone. The repository's scheduler breaks the third rule (see above); ReactorRecycling says what follows. Its own code is not part of this model.

Exhaustiveness:
- Tuples that hold bools, enums or lists: they are accepted unchecked, and when arms over one are exhaustive is not stated.
- WhenOpen.ListExhaustiveExactly: for arms that look at elements, the exact condition is the one on lists up to a length, WhenOpen.ListExhaustiveUpToLongest.
- WhenLowered.FallsThroughExactly: a variant pattern inside an arm is taken to test the enum the analyzer chose; the lowering looks it up by name (ir/src/lower.rs:1684-1728), which finds another enum only where one with that variant shadows it.
- Interpolation patterns, which the lowering rejects, and the text of the diagnostic.

Incremental analysis:
- Import cycles: imports are assumed acyclic, so the cycle diagnostic never arises. Parsing, the structural import rules and name binding are parameters; so is the analysis of one module. The diagnostics counted are the analyses' own: those of parsing, of duplicate import names and of rejected imports, which every pass that loads the module reports before the reuse test, are not.
- Seeded and native exports, remote endpoints, and what happens after a module is analyzed.

Suggestions:
- That comparing UTF-8 bytes and comparing characters order names alike.

Other parts of the repository that are not modelled: durations, wire shapes and their
fingerprints, folding of boolean matches, tier gating, highlighting and documentation.
