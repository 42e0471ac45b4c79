/** "Did you mean?": edit distance with two rolling rows, and the closest candidate. */
module Suggest {
  import opened Wrappers

  // ----- edit scripts -----

  datatype Edit = Keep(c: char) | Insert(c: char) | Delete(c: char) | Substitute(c: char, d: char)

  /** What a script reads, what it writes, and how many edits it makes. */
  function Source(s: seq<Edit>): string {
    if s == [] then [] else Source(s[..|s| - 1]) + Reads(s[|s| - 1])
  }

  function Target(s: seq<Edit>): string {
    if s == [] then [] else Target(s[..|s| - 1]) + Writes(s[|s| - 1])
  }

  function Cost(s: seq<Edit>): nat {
    if s == [] then 0 else Cost(s[..|s| - 1]) + Price(s[|s| - 1])
  }

  function Reads(e: Edit): string { if e.Insert? then [] else [e.c] }

  function Writes(e: Edit): string {
    match e case Delete(_) => [] case Substitute(_, d) => [d] case _ => [e.c]
  }

  function Price(e: Edit): nat { if e.Keep? then 0 else 1 }

  ghost predicate Turns(s: seq<Edit>, a: string, b: string) { Source(s) == a && Target(s) == b }

  lemma Appended(s: seq<Edit>, e: Edit)
    ensures Source(s + [e]) == Source(s) + Reads(e) && Target(s + [e]) == Target(s) + Writes(e) && Cost(s + [e]) == Cost(s) + Price(e)
  {
    assert (s + [e])[..|s|] == s;
  }

  lemma Peel(s: seq<Edit>)
    ensures s == [] ==> Source(s) == [] && Target(s) == [] && Cost(s) == 0
    ensures s != [] ==>
              var rest, e := s[..|s| - 1], s[|s| - 1];
              Source(s) == Source(rest) + Reads(e) && Target(s) == Target(rest) + Writes(e) && Cost(s) == Cost(rest) + Price(e)
  {
  }

  // ----- the recurrence -----

  function Min(x: nat, y: nat): nat { if x < y then x else y }

  function Init(s: string): (r: string)
    requires s != []
    ensures |r| == |s| - 1
  {
    s[..|s| - 1]
  }

  function Lev(a: string, b: string): nat
    decreases |a| + |b|
  {
    if a == [] then |b|
    else if b == [] then |a|
    else
      var cost := if a[|a| - 1] == b[|b| - 1] then 0 else 1;
      Min(Min(Lev(Init(a), b) + 1, Lev(a, Init(b)) + 1), Lev(Init(a), Init(b)) + cost)
  }

  lemma {:induction false} LevOfEmpty(a: string, b: string)
    ensures a == [] ==> Lev(a, b) == |b|
    ensures b == [] ==> Lev(a, b) == |a|
  {
  }

  lemma {:induction false} LevStep(a: string, b: string)
    requires a != [] && b != []
    ensures var cost := if a[|a| - 1] == b[|b| - 1] then 0 else 1;
            Lev(a, b) == Min(Min(Lev(Init(a), b) + 1, Lev(a, Init(b)) + 1), Lev(Init(a), Init(b)) + cost)
  {
    hide Min, Init;
  }

  /** No script is cheaper than the recurrence says. */
  lemma {:induction false} LevIsLeast(s: seq<Edit>)
    ensures Lev(Source(s), Target(s)) <= Cost(s)
    decreases |s|
  {
    if s != [] {
      var rest, e := s[..|s| - 1], s[|s| - 1];
      LevIsLeast(rest);
      OneEdit(Source(rest), Target(rest), e);
    }
  }

  lemma {:induction false} OneEdit(a: string, b: string, e: Edit)
    ensures Lev(a + Reads(e), b + Writes(e)) <= Lev(a, b) + Price(e)
  {
    hide Lev;
    var a', b' := a + Reads(e), b + Writes(e);
    LevOfEmpty(a', b');
    LevOfEmpty(a, b);
    if a' != [] && b' != [] { LevStep(a', b'); }
    if Reads(e) != [] { assert Init(a') == a; } else { assert a' == a; }
    if Writes(e) != [] { assert Init(b') == b; } else { assert b' == b; }
  }

  /** And some script is as cheap. */
  lemma {:induction false} LevIsReached(a: string, b: string) returns (s: seq<Edit>)
    ensures Turns(s, a, b) && Cost(s) == Lev(a, b)
    decreases |a| + |b|
  {
    hide Lev, Min, Init, Source, Target, Cost;
    if a == [] && b == [] {
      s := [];
      EmptyScript(a, b);
    } else {
      LastEdit(a, b);
      var rest, e;
      if b == [] || (a != [] && Lev(a, b) == Lev(Init(a), b) + 1) {
        e := Delete(a[|a| - 1]);
        rest := LevIsReached(Init(a), b);
      } else if a == [] || Lev(a, b) == Lev(a, Init(b)) + 1 {
        e := Insert(b[|b| - 1]);
        rest := LevIsReached(a, Init(b));
      } else {
        e := if a[|a| - 1] == b[|b| - 1] then Keep(a[|a| - 1]) else Substitute(a[|a| - 1], b[|b| - 1]);
        rest := LevIsReached(Init(a), Init(b));
      }
      PutBack(a, b);
      Appended(rest, e);
      s := rest + [e];
    }
  }

  lemma EmptyScript(a: string, b: string)
    requires a == [] && b == []
    ensures Turns([], a, b) && Cost([]) == Lev(a, b)
  {
  }

  /** One of the three last edits accounts for the whole distance. */
  lemma {:induction false} LastEdit(a: string, b: string)
    requires a != [] || b != []
    ensures b == [] ==> Lev(a, b) == Lev(Init(a), b) + 1
    ensures a == [] ==> Lev(a, b) == Lev(a, Init(b)) + 1
    ensures a != [] && b != [] ==>
              || Lev(a, b) == Lev(Init(a), b) + 1
              || Lev(a, b) == Lev(a, Init(b)) + 1
              || Lev(a, b) == Lev(Init(a), Init(b)) + if a[|a| - 1] == b[|b| - 1] then 0 else 1
  {
    hide Lev;
    LevOfEmpty(a, b);
    if a != [] && b != [] { LevStep(a, b); }
    else if a != [] { LevOfEmpty(Init(a), b); }
    else { LevOfEmpty(a, Init(b)); }
  }

  lemma PutBack(a: string, b: string)
    ensures a + [] == a && b + [] == b
    ensures a != [] ==> Init(a) + [a[|a| - 1]] == a
    ensures b != [] ==> Init(b) + [b[|b| - 1]] == b
  {
  }

  // ----- a metric -----

  function Inverse(e: Edit): Edit {
    match e
    case Keep(c) => Keep(c)
    case Insert(c) => Delete(c)
    case Delete(c) => Insert(c)
    case Substitute(c, d) => Substitute(d, c)
  }

  lemma {:induction false} Undone(s: seq<Edit>) returns (u: seq<Edit>)
    ensures Turns(u, Target(s), Source(s)) && Cost(u) == Cost(s)
    decreases |s|
  {
    if s == [] {
      u := [];
    } else {
      u := Undone(s[..|s| - 1]);
      Appended(u, Inverse(s[|s| - 1]));
      u := u + [Inverse(s[|s| - 1])];
    }
  }

  lemma Symmetric(a: string, b: string)
    ensures Lev(a, b) == Lev(b, a)
  {
    AtMostReversed(a, b);
    AtMostReversed(b, a);
  }

  lemma AtMostReversed(a: string, b: string)
    ensures Lev(a, b) <= Lev(b, a)
  {
    var s := LevIsReached(b, a);
    var u := Undone(s);
    LevIsLeast(u);
  }

  /** Two edits on the same character, or none, as one. */
  function Both(e: Edit, f: Edit): seq<Edit>
    requires !e.Delete? && !f.Insert? && Writes(e) == Reads(f)
  {
    if e.Keep? then [f]
    else if f.Keep? then [e]
    else if e.Insert? then (if f.Delete? then [] else [Insert(f.d)])
    else if f.Delete? then [Delete(e.c)]
    else [Substitute(e.c, f.d)]
  }

  /** A script after another costs no more than the two together. */
  lemma {:induction false} Composed(s: seq<Edit>, t: seq<Edit>) returns (u: seq<Edit>)
    requires Target(s) == Source(t)
    ensures Turns(u, Source(s), Target(t)) && Cost(u) <= Cost(s) + Cost(t)
    decreases |s| + |t|
  {
    hide Source, Target, Cost;
    Peel(s);
    Peel(t);
    if s != [] && s[|s| - 1].Delete? {
      u := Composed(s[..|s| - 1], t);
      Appended(u, s[|s| - 1]);
      u := u + [s[|s| - 1]];
    } else if t != [] && t[|t| - 1].Insert? {
      u := Composed(s, t[..|t| - 1]);
      Appended(u, t[|t| - 1]);
      u := u + [t[|t| - 1]];
    } else if s == [] || t == [] {
      u := [];
      Peel(u);
    } else {
      u := ComposedLast(s, t);
    }
  }

  lemma {:induction false} ComposedLast(s: seq<Edit>, t: seq<Edit>) returns (u: seq<Edit>)
    requires s != [] && t != [] && !s[|s| - 1].Delete? && !t[|t| - 1].Insert? && Target(s) == Source(t)
    ensures Turns(u, Source(s), Target(t)) && Cost(u) <= Cost(s) + Cost(t)
    decreases |s| + |t|, 0
  {
    hide Source, Target, Cost;
    var s', t', e, f := s[..|s| - 1], t[..|t| - 1], s[|s| - 1], t[|t| - 1];
    Peel(s);
    Peel(t);
    SameLast(Target(s'), Writes(e), Source(t'), Reads(f));
    u := Composed(s', t');
    if Both(e, f) != [] {
      Appended(u, Both(e, f)[0]);
      u := u + [Both(e, f)[0]];
    }
  }

  lemma SameLast(a: string, x: string, b: string, y: string)
    requires a + x == b + y && |x| == |y| == 1
    ensures a == b && x == y
  {
    assert a == (a + x)[..|a|] && b == (b + y)[..|b|];
    assert x[0] == (a + x)[|a|] && y[0] == (b + y)[|b|];
  }

  lemma Triangle(a: string, b: string, c: string)
    ensures Lev(a, c) <= Lev(a, b) + Lev(b, c)
  {
    var s := LevIsReached(a, b);
    var t := LevIsReached(b, c);
    var u := Composed(s, t);
    LevIsLeast(u);
  }

  lemma {:induction false} FreeScript(s: seq<Edit>)
    requires Cost(s) == 0
    ensures Source(s) == Target(s)
    decreases |s|
  {
    if s != [] { FreeScript(s[..|s| - 1]); }
  }

  lemma {:induction false} Itself(a: string)
    ensures Lev(a, a) == 0
    decreases |a|
  {
    if a != [] { Itself(Init(a)); }
  }

  lemma ZeroIsEqual(a: string, b: string)
    ensures Lev(a, b) == 0 <==> a == b
  {
    if Lev(a, b) == 0 {
      var s := LevIsReached(a, b);
      FreeScript(s);
    }
    Itself(a);
  }

  // ----- two rolling rows -----

  method EditDistance(a: string, b: string) returns (d: nat)
    ensures d == Lev(a, b)
  {
    hide Lev, Min;
    LevOfEmpty(a, b);
    if a == [] { return |b|; }
    if b == [] { return |a|; }
    var prev, curr := new nat[|b| + 1]((i: nat) => i), new nat[|b| + 1](_ => 0);
    EmptyRow(a[..0], b);
    for i := 0 to |a|
      invariant prev.Length == curr.Length == |b| + 1 && prev != curr
      invariant fresh(prev) && fresh(curr)
      invariant forall j :: 0 <= j <= |b| ==> prev[j] == Lev(a[..i], b[..j])
    {
      curr[0] := i + 1;
      LevOfEmpty(a[..i + 1], b[..0]);
      for j := 0 to |b|
        invariant forall k :: 0 <= k <= |b| ==> prev[k] == Lev(a[..i], b[..k])
        invariant forall k :: 0 <= k <= j ==> curr[k] == Lev(a[..i + 1], b[..k])
      {
        var cost := if a[i] == b[j] then 0 else 1;
        Cell(a, b, i, j);
        curr[j + 1] := Min(Min(prev[j + 1] + 1, curr[j] + 1), prev[j] + cost);
      }
      prev, curr := curr, prev;
    }
    assert a[..|a|] == a && b[..|b|] == b;
    d := prev[|b|];
  }

  lemma {:induction false} EmptyRow(a: string, b: string)
    requires a == []
    ensures forall j :: 0 <= j <= |b| ==> Lev(a, b[..j]) == j
  {
  }

  lemma {:induction false} Cell(a: string, b: string, i: nat, j: nat)
    requires i < |a| && j < |b|
    ensures var cost := if a[i] == b[j] then 0 else 1;
            Lev(a[..i + 1], b[..j + 1]) ==
            Min(Min(Lev(a[..i], b[..j + 1]) + 1, Lev(a[..i + 1], b[..j]) + 1), Lev(a[..i], b[..j]) + cost)
  {
    hide Lev, Min;
    LevStep(a[..i + 1], b[..j + 1]);
    assert Init(a[..i + 1]) == a[..i] && Init(b[..j + 1]) == b[..j];
  }

  // ----- the closest candidate -----

  /** Bytes a character takes in UTF-8, the encoding lengths are counted in. */
  function Width(c: char): nat {
    if c < '\U{80}' then 1 else if c < '\U{800}' then 2 else if c < '\U{10000}' then 3 else 4
  }

  function ByteLength(s: string): nat { if s == [] then 0 else Width(s[0]) + ByteLength(s[1..]) }

  predicate Precedes(s: string, t: string) {
    t != [] && (s == [] || s[0] < t[0] || (s[0] == t[0] && Precedes(s[1..], t[1..])))
  }

  lemma {:induction false} PrecedesTotal(s: string, t: string)
    ensures Precedes(s, t) || Precedes(t, s) || s == t
    ensures !(Precedes(s, t) && Precedes(t, s)) && !Precedes(s, s)
  {
    if s != [] && t != [] {
      PrecedesTotal(s[1..], t[1..]);
      assert s[0] == t[0] && s[1..] == t[1..] ==> s == [s[0]] + s[1..] == t;
    }
    if s != [] { PrecedesTotal2(s); }
  }

  lemma {:induction false} PrecedesTotal2(s: string)
    ensures !Precedes(s, s)
  {
    if s != [] { PrecedesTotal2(s[1..]); }
  }

  lemma {:induction false} PrecedesTransitive(s: string, t: string, u: string)
    requires Precedes(s, t) && Precedes(t, u)
    ensures Precedes(s, u)
  {
    if s != [] && s[0] == t[0] == u[0] { PrecedesTransitive(s[1..], t[1..], u[1..]); }
  }

  /** Nearer to the target; then shorter; then first in order. */
  predicate Better(target: string, s: string, t: string) {
    var d, e := Lev(target, s), Lev(target, t);
    d < e || (d == e && (ByteLength(s) < ByteLength(t) || (ByteLength(s) == ByteLength(t) && Precedes(s, t))))
  }

  function Threshold(target: string): nat { if |target| / 3 > 1 then |target| / 3 else 1 }

  predicate Eligible(target: string, s: string) { s != target && Lev(target, s) <= Threshold(target) }

  /** `best` is an eligible candidate no other one is better than, if there is any. */
  ghost predicate IsBest(target: string, candidates: seq<string>, best: Option<string>) {
    match best
    case None => forall s :: s in candidates ==> !Eligible(target, s)
    case Some(b) => b in candidates && Eligible(target, b) && forall s :: s in candidates && Eligible(target, s) && s != b ==> Better(target, b, s)
  }

  method Closest(target: string, candidates: seq<string>) returns (best: Option<string>)
    ensures IsBest(target, candidates, best)
  {
    var threshold := if |target| / 3 > 1 then |target| / 3 else 1;
    var bestDistance := 0;
    best := None;
    for i := 0 to |candidates|
      invariant IsBest(target, candidates[..i], best)
      invariant best.Some? ==> bestDistance == Lev(target, best.value)
    {
      var candidate := candidates[i];
      assert candidates[..i + 1] == candidates[..i] + [candidate];
      if candidate != target {
        var distance := EditDistance(target, candidate);
        if distance <= threshold {
          var better := best == None
            || distance < bestDistance
            || (distance == bestDistance && (ByteLength(candidate) < ByteLength(best.value)
                 || (ByteLength(candidate) == ByteLength(best.value) && Precedes(candidate, best.value))));
          KeepsBest(target, candidates[..i], best, candidate);
          if better { best, bestDistance := Some(candidate), distance; }
        }
      }
    }
    assert candidates[..|candidates|] == candidates;
  }

  lemma BetterTransitive(target: string, s: string, t: string, u: string)
    requires Better(target, s, t) && Better(target, t, u)
    ensures Better(target, s, u)
  {
    if Precedes(s, t) && Precedes(t, u) { PrecedesTransitive(s, t, u); }
  }

  lemma KeepsBest(target: string, seen: seq<string>, best: Option<string>, c: string)
    requires IsBest(target, seen, best) && Eligible(target, c)
    ensures IsBest(target, seen + [c], if best == None || Better(target, c, best.value) then Some(c) else best)
  {
    if best.Some? {
      PrecedesTotal(c, best.value);
      if Better(target, c, best.value) {
        forall s | s in seen && Eligible(target, s) && s != best.value ensures Better(target, c, s) { BetterTransitive(target, c, best.value, s); }
      }
    }
  }

  /** The suggestion depends only on which candidates there are, not on their order. */
  lemma OrderIrrelevant(target: string, xs: seq<string>, ys: seq<string>, x: Option<string>, y: Option<string>)
    requires forall s :: s in xs <==> s in ys
    requires IsBest(target, xs, x) && IsBest(target, ys, y)
    ensures x == y
  {
    if x.Some? && y.Some? && x != y { PrecedesTotal(x.value, y.value); }
  }

  // ----- what is close enough -----

  /** A candidate is eligible exactly when it is another name and some script turns the target
      into it with a single edit, or with at most one for every three characters. */
  lemma EligibleExactly(target: string, s: string)
    ensures Eligible(target, s) <==> s != target && exists script :: Turns(script, target, s) && (Cost(script) <= 1 || 3 * Cost(script) <= |target|)
  {
    var best := LevIsReached(target, s);
    if Eligible(target, s) {
      assert Turns(best, target, s) && (Cost(best) <= 1 || 3 * Cost(best) <= |target|);
    }
    if script :| Turns(script, target, s) && (Cost(script) <= 1 || 3 * Cost(script) <= |target|) { LevIsLeast(script); }
  }

  /** One script that keeps `a`, makes one edit and keeps `z`. */
  lemma {:induction false} OneSlip(a: string, e: Edit, z: string)
    requires Price(e) == 1 && a + Reads(e) + z != a + Writes(e) + z
    ensures Lev(a + Reads(e) + z, a + Writes(e) + z) == 1
  {
    hide Lev;
    Itself(a);
    OneEdit(a, a, e);
    KeepsOn(a + Reads(e), a + Writes(e), z);
    ZeroIsEqual(a + Reads(e) + z, a + Writes(e) + z);
  }

  lemma {:induction false} KeepsOn(a: string, b: string, z: string)
    ensures Lev(a + z, b + z) <= Lev(a, b)
    decreases |z|
  {
    hide Lev;
    if z == [] {
      assert a + z == a && b + z == b;
    } else {
      KeepsOn(a, b, Init(z));
      OneEdit(a + Init(z), b + Init(z), Keep(z[|z| - 1]));
      assert a + Init(z) + [z[|z| - 1]] == a + z && b + Init(z) + [z[|z| - 1]] == b + z;
    }
  }

  /** Of candidates one slip away a shorter one is suggested before a longer, and of two as long
      the one first in order, wherever they stand in the list. */
  lemma TiesBreak()
    ensures IsBest("abc", ["axc", "abcd", "ab"], Some("ab"))
    ensures IsBest("abc", ["axc", "abx"], Some("abx"))
  {
    hide Lev, ByteLength, Precedes;
    Slips();
    Lengths();
    assert "ab" in ["axc", "abcd", "ab"] by { assert ["axc", "abcd", "ab"][2] == "ab"; }
    assert "abx" in ["axc", "abx"] by { assert ["axc", "abx"][1] == "abx"; }
  }

  /** Lengths are counted in bytes: the accent makes a name of three characters the longer one. */
  lemma BytesCount()
    ensures Better("ab", "bab", "a\U{E9}b") && Precedes("a\U{E9}b", "bab")
  {
    hide Lev, Precedes;
    assert "" + "" + "ab" == "ab" && "" + "b" + "ab" == "bab";
    OneSlip("", Insert('b'), "ab");
    assert "a" + "" + "b" == "ab" && "a" + "\U{E9}" + "b" == "a\U{E9}b";
    OneSlip("a", Insert('\U{E9}'), "b");
    AccentLength();
  }

  lemma AccentLength()
    ensures ByteLength("bab") == 3 && ByteLength("a\U{E9}b") == 4 && Precedes("a\U{E9}b", "bab")
  {
  }

  lemma Slips()
    ensures Lev("abc", "axc") == Lev("abc", "abx") == Lev("abc", "ab") == Lev("abc", "abcd") == 1
  {
    hide Lev;
    assert "a" + "b" + "c" == "abc" && "a" + "x" + "c" == "axc" && "abc"[1] != "axc"[1];
    OneSlip("a", Substitute('b', 'x'), "c");
    assert "ab" + "c" + "" == "abc" && "ab" + "x" + "" == "abx" && "abc"[2] != "abx"[2];
    OneSlip("ab", Substitute('c', 'x'), "");
    assert "ab" + "" + "" == "ab";
    OneSlip("ab", Delete('c'), "");
    assert "abc" + "" + "" == "abc" && "abc" + "d" + "" == "abcd";
    OneSlip("abc", Insert('d'), "");
  }

  lemma Lengths()
    ensures ByteLength("ab") == 2 && ByteLength("abc") == ByteLength("axc") == ByteLength("abx") == 3 && ByteLength("abcd") == 4
    ensures Precedes("abx", "axc") && !Precedes("axc", "abx")
  {
  }
}
