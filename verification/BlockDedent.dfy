/** How the parser takes a block string's layout off again, part by part. */
module BlockDedent {
  import opened Wrappers
  import opened BlockLayout

  predicate Margin(c: char) { c == ' ' || c == '\t' }

  predicate AllMargin(s: string) { forall i :: 0 <= i < |s| ==> Margin(s[i]) }

  /** Spaces and tabs, then a line break: the content begins on the next line. */
  predicate OpensBlock(s: string) {
    s != [] && (s[0] == '\n' || (Margin(s[0]) && OpensBlock(s[1..])))
  }

  function LastBreak(s: string): (r: Option<nat>)
    ensures r.Some? ==> r.value < |s| && s[r.value] == '\n'
  {
    if s == [] then None
    else if s[|s| - 1] == '\n' then Some(|s| - 1)
    else LastBreak(s[..|s| - 1])
  }

  /** Whether the text after the last line break is the closing quotes' own margin. */
  predicate EndsInMargin(s: string) {
    LastBreak(s).Some? && AllMargin(s[LastBreak(s).value + 1..])
  }

  function IndentLen(last: string): nat {
    if EndsInMargin(last) then |last| - LastBreak(last).value - 1 else 0
  }

  function DropOpening(first: string): string {
    var k := LineEnd(first);
    if k < |first| then first[k + 1..] else first
  }

  function DropClosing(last: string): string {
    if EndsInMargin(last) then last[..LastBreak(last).value] else last
  }

  /** Strip at most `n` characters of margin from each line, and `left` from this one. */
  function Outdent(s: string, n: nat, left: nat): string {
    if s == [] then []
    else if left > 0 && Margin(s[0]) then Outdent(s[1..], n, left - 1)
    else if s[0] == '\n' then "\n" + Outdent(s[1..], n, n)
    else [s[0]] + Outdent(s[1..], n, 0)
  }

  function OutdentAll(parts: seq<string>, n: nat, left: nat): seq<string> {
    if parts == [] then [] else [Outdent(parts[0], n, left)] + OutdentAll(parts[1..], n, 0)
  }

  function Framed(parts: seq<string>): (r: seq<string>)
    requires parts != []
    ensures |r| == |parts|
  {
    var begun := parts[0 := DropOpening(parts[0])];
    begun[|parts| - 1 := DropClosing(begun[|parts| - 1])]
  }

  function Dedent(parts: seq<string>): seq<string> {
    if parts == [] || !OpensBlock(parts[0]) then parts
    else
      var n := IndentLen(parts[|parts| - 1]);
      OutdentAll(Framed(parts), n, n)
  }

  method ApplyBlockDedent(parts: array<string>)
    modifies parts
    ensures parts[..] == Dedent(old(parts[..]))
  {
    if parts.Length == 0 { return; }
    var opens := BeginsWithBreak(parts[0]);
    if !opens { return; }
    var n := IndentLen(parts[parts.Length - 1]);
    parts[0] := DropOpening(parts[0]);
    parts[parts.Length - 1] := DropClosing(parts[parts.Length - 1]);
    assert parts[..] == Framed(old(parts[..]));
    OutdentParts(parts, n);
  }

  method BeginsWithBreak(first: string) returns (opens: bool)
    ensures opens == OpensBlock(first)
  {
    var i := 0;
    while i < |first| && Margin(first[i])
      invariant i <= |first| && (OpensBlock(first[i..]) <==> OpensBlock(first))
    {
      assert first[i..][1..] == first[i + 1..];
      i := i + 1;
    }
    opens := i < |first| && first[i] == '\n';
  }

  method OutdentParts(parts: array<string>, n: nat)
    modifies parts
    ensures parts[..] == OutdentAll(old(parts[..]), n, n)
  {
    hide Outdent, OutdentAll;
    ghost var given := parts[..];
    assert given[0..] == given;
    for j := 0 to parts.Length
      invariant parts[j..] == given[j..]
      invariant parts[..j] + OutdentAll(given[j..], n, if j == 0 then n else 0) == OutdentAll(given, n, n)
    {
      assert parts[j] == given[j];
      OutdentStep(given, j, n, if j == 0 then n else 0, parts[..j]);
      ghost var done := parts[..j];
      var out := OutdentPart(parts[j], n, j == 0);
      parts[j] := out;
      assert parts[..j + 1] == done + [out];
    }
    NothingToOutdent(given[parts.Length..], n, if parts.Length == 0 then n else 0);
    assert parts[..parts.Length] == parts[..];
  }

  lemma OutdentStep(parts: seq<string>, j: nat, n: nat, left: nat, done: seq<string>)
    requires j < |parts|
    ensures done + OutdentAll(parts[j..], n, left) == done + [Outdent(parts[j], n, left)] + OutdentAll(parts[j + 1..], n, 0)
  {
    hide Outdent;
    assert parts[j..][1..] == parts[j + 1..];
  }

  lemma NothingToOutdent(parts: seq<string>, n: nat, left: nat)
    requires parts == []
    ensures OutdentAll(parts, n, left) == []
  {
  }

  method OutdentPart(part: string, n: nat, firstPart: bool) returns (out: string)
    ensures out == Outdent(part, n, if firstPart then n else 0)
  {
    hide Outdent;
    out := "";
    var i, atLineStart := 0, firstPart;
    assert part[0..] == part;
    while i < |part|
      invariant i <= |part|
      invariant out + Outdent(part[i..], n, if atLineStart then n else 0) == Outdent(part, n, if firstPart then n else 0)
      decreases |part| - i
    {
      if atLineStart { i := SkipMargin(part, i, n); }
      atLineStart := false;
      if i < |part| {
        KeepOne(part, i, n, out);
        out := out + [part[i]];
        atLineStart := part[i] == '\n';
        i := i + 1;
      }
    }
    NoneLeft(part[i..], n, if atLineStart then n else 0);
    OutdentNothing(part[i..], n);
  }

  /** Past at most `n` characters of margin. */
  method SkipMargin(part: string, i: nat, n: nat) returns (j: nat)
    requires i <= |part|
    ensures i <= j <= |part| && Outdent(part[j..], n, 0) == Outdent(part[i..], n, n)
  {
    j := i;
    var stripped := 0;
    while stripped < n && j < |part| && Margin(part[j])
      invariant i <= j <= |part| && stripped <= n
      invariant Outdent(part[j..], n, n - stripped) == Outdent(part[i..], n, n)
    {
      assert part[j..][1..] == part[j + 1..];
      j := j + 1;
      stripped := stripped + 1;
    }
    NoneLeft(part[j..], n, n - stripped);
  }

  lemma KeepOne(part: string, i: nat, n: nat, out: string)
    requires i < |part|
    ensures out + Outdent(part[i..], n, 0) == out + [part[i]] + Outdent(part[i + 1..], n, if part[i] == '\n' then n else 0)
  {
    assert part[i..][1..] == part[i + 1..];
  }

  lemma OutdentNothing(s: string, n: nat)
    requires s == []
    ensures Outdent(s, n, 0) == []
  {
  }

  lemma NoneLeft(s: string, n: nat, left: nat)
    requires left == 0 || s == [] || !Margin(s[0])
    ensures Outdent(s, n, left) == Outdent(s, n, 0)
  {
  }

  // ----- what it does to a literal, line by line -----

  /** Lines with line breaks between them. */
  function Joined(lines: seq<string>): string {
    if lines == [] then "" else if |lines| == 1 then lines[0] else lines[0] + "\n" + Joined(lines[1..])
  }

  /** The line without as much of its margin as there is, but at most `n` characters of it. */
  ghost predicate TrimmedBy(line: string, n: nat, out: string) {
    exists k: nat :: k <= n && k <= |line| && out == line[k..] && AllMargin(line[..k]) && (k == n || k == |line| || !Margin(line[k]))
  }

  /** The text of a literal in block form: a first line of white space, the lines, and the
      white space before the closing quotes. */
  function BlockOf(open: string, lines: seq<string>, close: string): string {
    open + "\n" + (if lines == [] then "" else Joined(lines) + "\n") + close
  }

  lemma {:induction false} Untouched(line: string, n: nat, rest: string)
    requires '\n' !in line
    ensures Outdent(line + rest, n, 0) == line + Outdent(rest, n, 0)
  {
    if line == [] {
      assert line + rest == rest;
    } else {
      Untouched(line[1..], n, rest);
      assert (line + rest)[0] == line[0] && (line + rest)[1..] == line[1..] + rest;
      assert [line[0]] + (line[1..] + Outdent(rest, n, 0)) == line + Outdent(rest, n, 0);
    }
  }

  lemma {:induction false} OutdentLine(line: string, n: nat, left: nat, rest: string) returns (k: nat)
    requires '\n' !in line && (rest == [] || rest[0] == '\n')
    ensures k <= left && k <= |line| && AllMargin(line[..k]) && (k == left || k == |line| || !Margin(line[k]))
    ensures Outdent(line + rest, n, left) == line[k..] + Outdent(rest, n, 0)
  {
    hide AllMargin;
    k := 0;
    EmptyMargin(line[..0]);
    if line == [] {
      assert line + rest == rest;
      NoneLeft(rest, n, left);
    } else {
      assert (line + rest)[0] == line[0] && (line + rest)[1..] == line[1..] + rest;
      if left > 0 && Margin(line[0]) {
        var k' := OutdentLine(line[1..], n, left - 1, rest);
        k := k' + 1;
        LongerMargin(line, k');
        assert line[1..][k'..] == line[k..];
      } else {
        NoneLeft(line + rest, n, left);
        Untouched(line, n, rest);
      }
    }
  }

  lemma EmptyMargin(s: string)
    requires s == []
    ensures AllMargin(s)
  {
  }

  lemma LongerMargin(line: string, k: nat)
    requires k < |line| && Margin(line[0]) && AllMargin(line[1..][..k])
    ensures AllMargin(line[..k + 1])
  {
    var s := line[..k + 1];
    forall i | 0 <= i < |s| ensures Margin(s[i]) {
      if i > 0 { assert line[1..][..k][i - 1] == s[i]; }
    }
  }

  lemma IsTrimmed(line: string, n: nat, k: nat)
    requires k <= n && k <= |line| && AllMargin(line[..k]) && (k == n || k == |line| || !Margin(line[k]))
    ensures TrimmedBy(line, n, line[k..])
  {
  }

  lemma {:induction false} OutdentLines(lines: seq<string>, n: nat) returns (out: seq<string>)
    requires forall line :: line in lines ==> '\n' !in line
    ensures |out| == |lines| && (forall i :: 0 <= i < |lines| ==> TrimmedBy(lines[i], n, out[i]))
    ensures Outdent(Joined(lines), n, n) == Joined(out)
  {
    hide TrimmedBy;
    if lines == [] {
      out := [];
    } else if |lines| == 1 {
      var k := OutdentLine(lines[0], n, n, "");
      assert lines[0] + "" == lines[0];
      out := [lines[0][k..]];
      IsTrimmed(lines[0], n, k);
      assert lines[0][k..] + "" == lines[0][k..];
    } else {
      var rest := "\n" + Joined(lines[1..]);
      var k := OutdentLine(lines[0], n, n, rest);
      IsTrimmed(lines[0], n, k);
      var first := lines[0][k..];
      var others := OutdentLines(lines[1..], n);
      assert lines[0] + rest == Joined(lines) && rest[1..] == Joined(lines[1..]);
      out := [first] + others;
      assert out[1..] == others;
      assert first + ("\n" + Joined(others)) == first + "\n" + Joined(others);
    }
  }

  lemma {:induction false} OpeningLine(open: string, rest: string)
    requires AllMargin(open)
    ensures OpensBlock(open + "\n" + rest) && DropOpening(open + "\n" + rest) == rest
    ensures LineEnd(open + "\n" + rest) == |open|
  {
    var s := open + "\n" + rest;
    if open == [] {
      assert s == "\n" + rest;
    } else {
      OpeningLine(open[1..], rest);
      assert s[1..] == open[1..] + "\n" + rest && s[0] == open[0];
    }
    assert s[|open| + 1..] == rest;
  }

  lemma {:induction false} ClosingLine(before: string, close: string)
    requires AllMargin(close)
    ensures LastBreak(before + "\n" + close) == Some(|before|)
    ensures IndentLen(before + "\n" + close) == |close| && DropClosing(before + "\n" + close) == before
    decreases |close|
  {
    var s := before + "\n" + close;
    if close != [] {
      ClosingLine(before, close[..|close| - 1]);
      assert s[..|s| - 1] == before + "\n" + close[..|close| - 1];
      assert s[|s| - 1] == close[|close| - 1] && Margin(close[|close| - 1]);
    }
    assert s[|before| + 1..] == close && s[..|before|] == before;
  }

  /** Whatever its lines hold, a literal in block form means them, each without as much of its
      margin as the closing quotes have; any other literal means what it holds. */
  lemma BlockMeans(open: string, lines: seq<string>, close: string) returns (out: seq<string>)
    requires AllMargin(open) && AllMargin(close) && forall line :: line in lines ==> '\n' !in line
    ensures |out| == |lines| && (forall i :: 0 <= i < |lines| ==> TrimmedBy(lines[i], |close|, out[i]))
    ensures Dedent([BlockOf(open, lines, close)]) == [Joined(out)]
  {
    hide Outdent, TrimmedBy, AllMargin, OpensBlock, DropOpening, DropClosing, IndentLen, Joined;
    var inner := (if lines == [] then "" else Joined(lines) + "\n") + close;
    assert BlockOf(open, lines, close) == open + "\n" + inner;
    OpeningLine(open, inner);
    out := OutdentLines(lines, |close|);
    if lines == [] {
      ClosingLine(open, close);
      OnlyMargin(close, |close|);
      assert inner == close && open + "\n" + close == open + "\n" + inner;
      OnePart(open + "\n" + inner, inner, close, |close|);
      assert Joined(out) == "" by { Nothing(out); }
    } else {
      var before := open + "\n" + Joined(lines);
      assert open + "\n" + inner == before + "\n" + close;
      ClosingLine(before, close);
      ClosingLine(Joined(lines), close);
      OnePart(open + "\n" + inner, inner, Joined(lines), |close|);
    }
  }

  lemma Nothing(lines: seq<string>)
    requires lines == []
    ensures Joined(lines) == ""
  {
  }

  lemma OnePart(part: string, inner: string, body: string, n: nat)
    requires OpensBlock(part) && DropOpening(part) == inner && DropClosing(inner) == body && IndentLen(part) == n
    ensures Dedent([part]) == [Outdent(body, n, n)]
  {
    hide Outdent, OpensBlock, DropOpening, DropClosing, IndentLen;
    assert Framed([part]) == [body];
    assert OutdentAll([body], n, n) == [Outdent(body, n, n)] by { NothingToOutdent([body][1..], n, 0); }
  }

  /** White space alone. */
  lemma {:induction false} OnlyMargin(s: string, n: nat)
    requires AllMargin(s)
    ensures DropClosing(s) == s && LastBreak(s) == None
    ensures forall left: nat :: |s| <= left ==> Outdent(s, n, left) == ""
    decreases |s|
  {
    if s != [] {
      OnlyMargin(s[..|s| - 1], n);
      AllOff(s, n);
    }
  }

  lemma {:induction false} AllOff(s: string, n: nat)
    requires AllMargin(s)
    ensures forall left: nat :: |s| <= left ==> Outdent(s, n, left) == ""
  {
    if s != [] { AllOff(s[1..], n); }
  }
}
