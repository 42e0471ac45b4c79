/** The string part of the tokenizer: literals, triple-quoted literals and interpolations
    nested to any depth, kept apart by four stacks. */
module StringTokens {
  import opened Wrappers

  datatype Token =
    | StringLiteral(start: nat, end: nat)
    | TripleStringLiteral(start: nat, end: nat)
    | InterpolationStart(start: nat, end: nat)
    | InterpolationEnd(start: nat, end: nat)
    | LeftParen(start: nat, end: nat)
    | RightParen(start: nat, end: nat)

  /** `strings` holds where each open literal's current portion starts and `triples` its
      kind; `interpolations` and `depths` hold each open interpolation and the parentheses
      open in it; `pending` is a token already found behind the one just returned. */
  datatype State = State(index: nat, strings: seq<nat>, triples: seq<bool>, interpolations: seq<nat>, depths: seq<nat>, pending: Option<Token>)

  ghost predicate Valid(src: string, st: State) {
    && st.index <= |src|
    && |st.triples| == |st.strings| && |st.depths| == |st.interpolations|
    && (forall i :: 0 <= i < |st.strings| ==> st.strings[i] <= st.index)
  }

  function Last<T>(s: seq<T>): T
    requires s != []
  {
    s[|s| - 1]
  }

  function Init<T>(s: seq<T>): seq<T>
    requires s != []
  {
    s[..|s| - 1]
  }

  /** The length of the run of backslashes that ends just before `i`. */
  function Backslashes(src: string, i: nat): nat
    requires i <= |src|
  {
    if i > 0 && src[i - 1] == '\\' then 1 + Backslashes(src, i - 1) else 0
  }

  predicate IsEscaped(src: string, i: nat)
    requires i <= |src|
  {
    Backslashes(src, i) % 2 == 1
  }

  predicate IsTripleQuote(src: string, i: nat) {
    i + 2 < |src| && src[i] == '\"' && src[i + 1] == '\"' && src[i + 2] == '\"'
  }

  datatype Turn = Go(next: State) | Emit(token: Token, next: State)

  function Literal(triple: bool, start: nat, end: nat): Token {
    if triple then TripleStringLiteral(start, end) else StringLiteral(start, end)
  }

  /** A quote outside any literal portion opens a literal. */
  function Opened(src: string, st: State): State {
    var width := if IsTripleQuote(src, st.index) then 3 else 1;
    st.(strings := st.strings + [st.index + width], triples := st.triples + [width == 3], index := st.index + width)
  }

  /** Between literals: outside any, or in the code of the innermost interpolation. */
  predicate InCode(st: State) { st.strings == [] || |st.strings| == |st.interpolations| }

  /** Does the quote under the cursor end the innermost literal? */
  predicate Closes(src: string, st: State)
    requires st.index <= |src| && st.triples != []
  {
    if Last(st.triples) then IsTripleQuote(src, st.index) else !IsEscaped(src, st.index)
  }

  /** One turn of the tokenizer's loop. A character of no modelled token is passed over. */
  function Next(src: string, st: State): (t: Turn)
    requires Valid(src, st) && st.index < |src| && st.pending == None
    ensures Valid(src, t.next) && t.next.index > st.index && (t.Go? ==> t.next.pending == None)
  {
    var i, c := st.index, src[st.index];
    if c == '\"' && InCode(st) then Go(Opened(src, st))
    else if c == '\"' && st.strings != [] && Closes(src, st) then
      Emit(Literal(Last(st.triples), Last(st.strings), i),
           st.(strings := Init(st.strings), triples := Init(st.triples), index := i + if Last(st.triples) then 3 else 1))
    else if c == '$' && st.strings != [] && i + 1 < |src| && src[i + 1] == '(' && !IsEscaped(src, i) then
      Emit(Literal(Last(st.triples), Last(st.strings), i),
           st.(interpolations := st.interpolations + [i], depths := st.depths + [0], index := i + 2,
               pending := Some(InterpolationStart(i + 1, i + 2))))
    else if c == ')' && st.strings != [] && |st.strings| == |st.interpolations| then
      if Last(st.depths) > 0 then Emit(RightParen(i, i + 1), st.(depths := Init(st.depths) + [Last(st.depths) - 1], index := i + 1))
      else
        Emit(InterpolationEnd(i, i + 1),
             st.(strings := Init(st.strings) + [i + 1], interpolations := Init(st.interpolations), depths := Init(st.depths), index := i + 1))
    else if |st.strings| > |st.interpolations| then Go(st.(index := i + 1))
    else if c == '(' then
      Emit(LeftParen(i, i + 1), st.(depths := if st.depths == [] then [] else Init(st.depths) + [Last(st.depths) + 1], index := i + 1))
    else if c == ')' then Emit(RightParen(i, i + 1), st.(index := i + 1))
    else Go(st.(index := i + 1))
  }

  /** All the tokens from here on. A token found behind the last one is lost when nothing
      follows it in the source. */
  function Tokens(src: string, st: State): seq<Token>
    requires Valid(src, st)
    decreases |src| - st.index, if st.pending.Some? then 1 else 0
  {
    if st.index == |src| then []
    else if st.pending.Some? then [st.pending.value] + Tokens(src, st.(pending := None))
    else
      match Next(src, st)
      case Go(st') => Tokens(src, st')
      case Emit(token, st') => [token] + Tokens(src, st')
  }

  class Tokenizer {
    const source: string
    var index: nat
    var stringStack: seq<nat>
    var stringIsTriple: seq<bool>
    var interpolationStack: seq<nat>
    var interpolationParenDepth: seq<nat>
    var nextToken: Option<Token>

    ghost function Current(): State
      reads this
    {
      State(index, stringStack, stringIsTriple, interpolationStack, interpolationParenDepth, nextToken)
    }

    constructor (source: string)
      ensures this.source == source && Current() == State(0, [], [], [], [], None)
    {
      this.source := source;
      index, stringStack, stringIsTriple, interpolationStack, interpolationParenDepth, nextToken := 0, [], [], [], [], None;
    }

    /** The next token: the first of those still to come, which are then the others. */
    method NextToken() returns (token: Option<Token>)
      requires Valid(source, Current())
      modifies this
      ensures Valid(source, Current())
      ensures var before := Tokens(source, old(Current()));
              if token == None then before == [] else before == [token.value] + Tokens(source, Current())
    {
      if index >= |source| { return None; }
      if nextToken.Some? {
        token := nextToken;
        nextToken := None;
        return;
      }
      while index < |source|
        invariant Valid(source, Current()) && nextToken == None
        invariant Tokens(source, Current()) == Tokens(source, old(Current()))
        decreases |source| - index
      {
        hide Next, Tokens, Valid;
        TokensStep(source, Current());
        token := TakeTurn();
        if token.Some? { return; }
      }
      token := None;
    }

    /** One turn of the loop: a token, or none yet. */
    method TakeTurn() returns (token: Option<Token>)
      requires Valid(source, Current()) && index < |source| && nextToken == None
      modifies this
      ensures Next(source, old(Current())) == if token == None then Go(Current()) else Emit(token.value, Current())
    {
      hide Backslashes, IsEscaped, IsTripleQuote;
      var start, byte := index, source[index];
      token := None;
      if byte == '\"' && (stringStack == [] || |stringStack| == |interpolationStack|) {
        var triple := IsTripleQuote(source, index);
        index := index + if triple then 3 else 1;
        stringStack := stringStack + [index];
        stringIsTriple := stringIsTriple + [triple];
        return;
      }
      if stringStack != [] {
        var inTriple := Last(stringIsTriple);
        if byte == '\"' {
          var closes := if inTriple then IsTripleQuote(source, index) else !IsEscaped(source, index);
          if closes {
            token := Some(Literal(inTriple, Last(stringStack), index));
            stringStack := Init(stringStack);
            stringIsTriple := Init(stringIsTriple);
            index := index + if inTriple then 3 else 1;
            return;
          }
        }
        if byte == '$' && start + 1 < |source| && source[start + 1] == '(' && !IsEscaped(source, start) {
          token := Some(Literal(inTriple, Last(stringStack), index));
          interpolationStack := interpolationStack + [index];
          interpolationParenDepth := interpolationParenDepth + [0];
          index := index + 2;
          nextToken := Some(InterpolationStart(start + 1, start + 2));
          return;
        }
        if |interpolationStack| > 0 && byte == ')' && |stringStack| == |interpolationStack| {
          var depth := Last(interpolationParenDepth);
          if depth > 0 {
            interpolationParenDepth := Init(interpolationParenDepth) + [depth - 1];
          } else {
            index := index + 1;
            stringStack := Init(stringStack) + [index];
            interpolationStack := Init(interpolationStack);
            interpolationParenDepth := Init(interpolationParenDepth);
            return Some(InterpolationEnd(start, start + 1));
          }
        }
        if |stringStack| > |interpolationStack| {
          index := index + 1;
          return;
        }
      }
      index := index + 1;
      if byte == '(' {
        if interpolationParenDepth != [] {
          interpolationParenDepth := Init(interpolationParenDepth) + [Last(interpolationParenDepth) + 1];
        }
        return Some(LeftParen(start, start + 1));
      }
      if byte == ')' { return Some(RightParen(start, start + 1)); }
    }
  }

  lemma TokensStep(src: string, st: State)
    requires Valid(src, st) && st.index < |src| && st.pending == None
    ensures Tokens(src, st) == match Next(src, st)
                               case Go(st') => Tokens(src, st')
                               case Emit(token, st') => [token] + Tokens(src, st')
    ensures Valid(src, Next(src, st).next) && Next(src, st).next.index > st.index
    ensures Next(src, st).Go? ==> Next(src, st).next.pending == None
  {
  }

  // ----- where a literal ends, in any source -----

  /** Exactly `n` backslashes end just before `k`. */
  ghost predicate Run(src: string, k: nat, n: nat)
    requires k <= |src|
  {
    n <= k && (forall i :: k - n <= i < k ==> src[i] == '\\') && (n < k ==> src[k - n - 1] != '\\')
  }

  ghost predicate BehindOddBackslashes(src: string, k: nat)
    requires k <= |src|
  {
    exists n: nat :: n % 2 == 1 && Run(src, k, n)
  }

  lemma {:induction false} RunIs(src: string, k: nat)
    requires k <= |src|
    ensures Run(src, k, Backslashes(src, k))
  {
    if k > 0 && src[k - 1] == '\\' { RunIs(src, k - 1); }
  }

  lemma {:induction false} OneRun(src: string, k: nat, n: nat)
    requires k <= |src| && Run(src, k, n)
    ensures n == Backslashes(src, k)
  {
    if n > 0 { OneRun(src, k - 1, n - 1); }
  }

  lemma BackslashesAre(src: string, k: nat)
    requires k <= |src|
    ensures BehindOddBackslashes(src, k) <==> IsEscaped(src, k)
  {
    hide Run, Backslashes;
    RunIs(src, k);
    forall n: nat | Run(src, k, n) ensures n == Backslashes(src, k) { OneRun(src, k, n); }
  }

  /** The closing quotes of an open literal, or a `$(` in it. Neither counts behind an odd
      number of backslashes, except that three quotes always close a triple-quoted literal. */
  ghost predicate StopsAt(src: string, k: nat, triple: bool)
    requires k < |src|
  {
    || (src[k] == '\"' && if triple then k + 2 < |src| && src[k + 1] == src[k + 2] == '\"' else !BehindOddBackslashes(src, k))
    || (src[k] == '$' && k + 1 < |src| && src[k + 1] == '(' && !BehindOddBackslashes(src, k))
  }

  /** Between literals' portions and interpolations: in a literal's own text. */
  predicate InText(st: State) { |st.strings| == |st.triples| > |st.interpolations| == |st.depths| && st.pending == None }

  /** The state behind the portion that stops at `k`. */
  function Behind(src: string, st: State, k: nat): State
    requires InText(st) && k < |src|
  {
    if src[k] == '$' then
      st.(interpolations := st.interpolations + [k], depths := st.depths + [0], index := k + 2, pending := Some(InterpolationStart(k + 1, k + 2)))
    else
      st.(strings := Init(st.strings), triples := Init(st.triples), index := k + if Last(st.triples) then 3 else 1)
  }

  /** In a literal the next token is its text up to the first such place, whatever it holds; a
      literal with none runs to the end of the source and gives no token. */
  lemma {:induction false} TextRunsToStop(src: string, st: State, k: nat)
    requires Valid(src, st) && InText(st) && st.index <= k <= |src|
    requires forall i :: st.index <= i < k ==> !StopsAt(src, i, Last(st.triples))
    ensures k == |src| ==> Tokens(src, st) == []
    ensures k < |src| && StopsAt(src, k, Last(st.triples)) ==>
              && Valid(src, Behind(src, st, k))
              && Tokens(src, st) == [Literal(Last(st.triples), Last(st.strings), k)] + Tokens(src, Behind(src, st, k))
    decreases k - st.index
  {
    hide Tokens, Backslashes, IsEscaped, BehindOddBackslashes;
    if st.index < |src| {
      BackslashesAre(src, st.index);
      TokensStep(src, st);
      if st.index < k {
        assert !StopsAt(src, st.index, Last(st.triples));
        TextRunsToStop(src, st.(index := st.index + 1), k);
      }
    } else {
      NoTokens(src, st);
    }
  }

  lemma NoTokens(src: string, st: State)
    requires Valid(src, st) && st.index == |src|
    ensures Tokens(src, st) == []
  {
  }
}
