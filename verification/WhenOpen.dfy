/** Subjects whose values cannot be listed, and lists: the check asks for less than
    exhaustiveness, and these are the conditions under which it is reached. */
module WhenOpen {
  import opened WhenCheck

  // ----- numbers, strings, functions, and tuples and records of them -----

  /** A type without bools, enums and lists. */
  ghost predicate OpenType(ty: Type)
    decreases ty
  {
    match ty
    case Opaque(_) => true
    case Var(_) => true
    case Tuple(items) => forall t :: t in items ==> OpenType(t)
    case Record(fields) => forall f :: f in fields ==> OpenType(f.ty)
    case _ => false
  }

  /** The pattern tests nothing. */
  ghost predicate Whole(p: Pattern)
    decreases p
  {
    match p
    case Underscore => true
    case Identifier(_) => true
    case TuplePattern(items) => forall q :: q in items ==> Whole(q)
    case RecordPattern(fields, _) => forall f :: f in fields ==> Whole(f.pattern)
    case _ => false
  }

  /** Every literal of an open type inside the pattern is below `code`. */
  ghost predicate Below(p: Pattern, code: nat)
    decreases p
  {
    match p
    case Literal(value) => value.OpaqueValue? ==> value.code < code
    case TuplePattern(items) => forall q :: q in items ==> Below(q, code)
    case RecordPattern(fields, _) => forall f :: f in fields ==> Below(f.pattern, code)
    case _ => true
  }

  lemma {:induction false} BelowMore(p: Pattern, low: nat, high: nat)
    requires Below(p, low) && low <= high
    ensures Below(p, high)
    decreases p
  {
    match p
    case TuplePattern(items) => forall q | q in items ensures Below(q, high) { BelowMore(q, low, high); }
    case RecordPattern(fields, _) => forall f | f in fields ensures Below(f.pattern, high) { BelowMore(f.pattern, low, high); }
    case _ =>
  }

  lemma {:induction false} SomeBound(p: Pattern) returns (code: nat)
    ensures Below(p, code)
    decreases p, 1
  {
    match p
    case Literal(value) => code := if value.OpaqueValue? then value.code + 1 else 0;
    case TuplePattern(items) => code := SomeBoundAll(items);
    case RecordPattern(fields, _) => code := SomeBoundFields(fields);
    case _ => code := 0;
  }

  lemma {:induction false} SomeBoundAll(ps: seq<Pattern>) returns (code: nat)
    ensures forall p :: p in ps ==> Below(p, code)
    decreases ps, 0
  {
    code := 0;
    for i := 0 to |ps|
      invariant forall p :: p in ps[..i] ==> Below(p, code)
    {
      var more := SomeBound(ps[i]);
      forall p | p in ps[..i] ensures Below(p, code + more) { BelowMore(p, code, code + more); }
      BelowMore(ps[i], more, code + more);
      code := code + more;
      assert ps[..i + 1] == ps[..i] + [ps[i]];
    }
    assert ps[..|ps|] == ps;
  }

  lemma {:induction false} SomeBoundFields(fs: seq<FieldPattern>) returns (code: nat)
    ensures forall f :: f in fs ==> Below(f.pattern, code)
    decreases fs, 0
  {
    code := 0;
    for i := 0 to |fs|
      invariant forall f :: f in fs[..i] ==> Below(f.pattern, code)
    {
      var more := SomeBound(fs[i].pattern);
      forall f | f in fs[..i] ensures Below(f.pattern, code + more) { BelowMore(f.pattern, code, code + more); }
      BelowMore(fs[i].pattern, more, code + more);
      code := code + more;
      assert fs[..i + 1] == fs[..i] + [fs[i]];
    }
    assert fs[..|fs|] == fs;
  }

  /** The value of an open type with `code` in every place. */
  ghost function Fill(ty: Type, code: nat): Value
    decreases ty
  {
    match ty
    case Tuple(items) => TupleValue(FillAll(items, code))
    case Record(fields) => RecordValue(FillFields(fields, code))
    case _ => OpaqueValue(code)
  }

  ghost function FillAll(ts: seq<Type>, code: nat): (r: seq<Value>)
    ensures |r| == |ts| && forall i :: 0 <= i < |ts| ==> r[i] == Fill(ts[i], code)
    decreases ts
  {
    if ts == [] then [] else [Fill(ts[0], code)] + FillAll(ts[1..], code)
  }

  ghost function FillFields(fs: seq<FieldType>, code: nat): (r: seq<FieldValue>)
    ensures |r| == |fs| && forall i :: 0 <= i < |fs| ==> r[i] == FieldValue(fs[i].name, Fill(fs[i].ty, code))
    decreases fs
  {
    if fs == [] then [] else [FieldValue(fs[0].name, Fill(fs[0].ty, code))] + FillFields(fs[1..], code)
  }

  lemma {:induction false} FillHasType(env: Env, ty: Type, code: nat)
    requires OpenType(ty)
    ensures HasType(env, Fill(ty, code), ty)
    decreases ty
  {
    match ty
    case Tuple(items) =>
      forall i | 0 <= i < |items| ensures HasType(env, FillAll(items, code)[i], items[i]) { assert items[i] in items; FillHasType(env, items[i], code); }
    case Record(fields) =>
      forall i | 0 <= i < |fields| ensures HasType(env, FillFields(fields, code)[i].value, fields[i].ty) { assert fields[i] in fields; FillHasType(env, fields[i].ty, code); }
    case _ =>
  }

  lemma {:induction false} WholeMatches(env: Env, p: Pattern, v: Value, ty: Type)
    requires OpenType(ty) && Fits(env, p, ty) && HasType(env, v, ty) && Whole(p)
    ensures Matches(env, p, v, ty)
    decreases p
  {
    match p
    case TuplePattern(items) =>
      forall i | 0 <= i < |items| ensures Matches(env, items[i], v.items[i], ty.items[i]) {
        assert items[i] in items && ty.items[i] in ty.items;
        WholeMatches(env, items[i], v.items[i], ty.items[i]);
      }
    case RecordPattern(fields, _) =>
      forall i | 0 <= i < |fields| ensures FieldMatches(env, fields[i], v.fields, ty.fields) {
        assert fields[i] in fields && FieldFits(env, fields[i], ty.fields);
        var j :| 0 <= j < |ty.fields| && ty.fields[j].name == fields[i].name;
        assert ty.fields[j] in ty.fields;
        WholeMatches(env, fields[i].pattern, v.fields[j].value, ty.fields[j].ty);
      }
    case _ =>
  }

  /** A pattern that tests something does not match a value beyond its literals. */
  lemma {:induction false} FilledIsMissed(env: Env, p: Pattern, ty: Type, code: nat)
    requires OpenType(ty) && Fits(env, p, ty) && Below(p, code) && !Whole(p)
    ensures !Matches(env, p, Fill(ty, code), ty)
    decreases p
  {
    match p
    case TuplePattern(items) =>
      var q :| q in items && !Whole(q);
      var i :| 0 <= i < |items| && items[i] == q;
      assert ty.items[i] in ty.items;
      FilledIsMissed(env, q, ty.items[i], code);
    case RecordPattern(fields, _) =>
      var f :| f in fields && !Whole(f.pattern);
      assert FieldFits(env, f, ty.fields);
      forall j | 0 <= j < |ty.fields| && ty.fields[j].name == f.name
        ensures !Matches(env, f.pattern, FillFields(ty.fields, code)[j].value, ty.fields[j].ty)
      {
        assert ty.fields[j] in ty.fields;
        FilledIsMissed(env, f.pattern, ty.fields[j].ty, code);
      }
      assert !FieldMatches(env, f, FillFields(ty.fields, code), ty.fields);
    case _ =>
  }

  /** On a type without bools, enums and lists a `when` is exhaustive exactly when one of its
      arms tests nothing; and unless the type is a record, every `when` is accepted. */
  lemma OpenExhaustiveExactly(env: Env, ty: Type, ps: seq<Pattern>)
    requires OpenType(ty) && forall p :: p in ps ==> Fits(env, p, ty)
    ensures !ty.Record? ==> Accepted(env, ty, ps)
    ensures Exhaustive(env, ty, ps) <==> exists p :: p in ps && Whole(p)
    ensures ty.Opaque? ==> (Exhaustive(env, ty, ps) <==> exists p :: p in ps && TakesAll(env, ty, p))
  {
    if p :| p in ps && Whole(p) {
      forall v | HasType(env, v, ty) ensures AnyMatches(env, ps, v, ty) { WholeMatches(env, p, v, ty); }
    } else {
      var code := SomeBoundAll(ps);
      FillHasType(env, ty, code);
      forall p | p in ps ensures !Matches(env, p, Fill(ty, code), ty) { FilledIsMissed(env, p, ty, code); }
    }
    if ty.Opaque? {
      forall p | p in ps ensures Whole(p) <==> TakesAll(env, ty, p) { assert Fits(env, p, ty); }
    }
  }

  /** So one literal arm passes and misses a value. */
  lemma OpenSubjectsAreNotChecked(env: Env, code: nat)
    ensures var ty := Opaque(0); var ps := [Literal(OpaqueValue(code))];
            (forall p :: p in ps ==> Fits(env, p, ty)) && Accepted(env, ty, ps) && !Exhaustive(env, ty, ps)
  {
    OpenExhaustiveExactly(env, Opaque(0), [Literal(OpaqueValue(code))]);
  }

  // ----- lists -----

  /** The arm takes every list of that length, whatever the elements. */
  ghost predicate TakesLength(env: Env, p: Pattern, n: nat) {
    || p.Underscore? || p.Identifier?
    || (p.ListPattern? && AllCatchAll(env, p.items) && (|p.items| == n || (p.rest && |p.items| <= n)))
  }

  /** From how many elements on an arm takes every list. */
  ghost predicate TakesFrom(env: Env, p: Pattern, n: nat) {
    || p.Underscore? || p.Identifier?
    || (p.ListPattern? && AllCatchAll(env, p.items) && p.rest && |p.items| == n)
  }

  ghost predicate LengthTaken(env: Env, ps: seq<Pattern>, n: nat) {
    exists p :: p in ps && TakesLength(env, p, n)
  }

  /** Some arm takes all lists from a length on, and every shorter length is taken too. */
  ghost predicate LengthsTaken(env: Env, ps: seq<Pattern>) {
    exists p, k: nat :: p in ps && TakesFrom(env, p, k) && forall n: nat :: n < k ==> LengthTaken(env, ps, n)
  }

  /** The arm takes a list by its length alone. */
  ghost predicate ByLength(env: Env, p: Pattern) {
    p.Underscore? || p.Identifier? || (p.ListPattern? && AllCatchAll(env, p.items))
  }

  lemma TakenMatches(env: Env, ty: Type, p: Pattern, v: Value)
    requires ty.List? && HasType(env, v, ty) && Fits(env, p, ty) && TakesLength(env, p, |v.elems|)
    ensures Matches(env, p, v, ty)
  {
    if p.ListPattern? {
      forall i | 0 <= i < |p.items| ensures Matches(env, p.items[i], v.elems[i], ty.elem) {
        assert p.items[i] in p.items && v.elems[i] in v.elems;
        CatchAllMatches(env, p.items[i], v.elems[i], ty.elem);
      }
    }
  }

  ghost function LongestOf(ps: seq<Pattern>): (n: nat)
    ensures forall p :: p in ps && p.ListPattern? ==> |p.items| <= n
  {
    if ps == [] then 0 else
      var rest := LongestOf(ps[1..]);
      assert ps == [ps[0]] + ps[1..];
      if ps[0].ListPattern? && rest < |ps[0].items| then |ps[0].items| else rest
  }

  lemma ListOf(env: Env, ty: Type, w: Value, n: nat) returns (v: Value)
    requires ty.List? && HasType(env, w, ty.elem)
    ensures HasType(env, v, ty) && |v.elems| == n
  {
    v := ListValue(seq(n, _ => w));
  }

  lemma SomeTakesFrom(env: Env, ps: seq<Pattern>)
    requires forall n: nat :: LengthTaken(env, ps, n)
    ensures LengthsTaken(env, ps)
  {
    var beyond := LongestOf(ps) + 1;
    assert LengthTaken(env, ps, beyond);
    var p :| p in ps && TakesLength(env, p, beyond);
    assert TakesFrom(env, p, if p.ListPattern? then |p.items| else 0);
  }

  /** Arms that between them take every length are exhaustive; and when all arms go by
      length, over an element type that has a value, nothing less will do. */
  lemma ListExhaustiveExactly(env: Env, ty: Type, ps: seq<Pattern>)
    requires ty.List? && forall p :: p in ps ==> Fits(env, p, ty)
    ensures LengthsTaken(env, ps) ==> Exhaustive(env, ty, ps)
    ensures (forall p :: p in ps ==> ByLength(env, p)) && (exists w :: HasType(env, w, ty.elem)) ==>
              (Exhaustive(env, ty, ps) <==> LengthsTaken(env, ps))
  {
    if LengthsTaken(env, ps) {
      var p, k: nat :| p in ps && TakesFrom(env, p, k) && forall n: nat :: n < k ==> LengthTaken(env, ps, n);
      forall v | HasType(env, v, ty) ensures AnyMatches(env, ps, v, ty) {
        var n := |v.elems|;
        assert LengthTaken(env, ps, n) by { if k <= n { assert TakesLength(env, p, n); } }
        var q :| q in ps && TakesLength(env, q, n);
        TakenMatches(env, ty, q, v);
      }
    } else if w :| HasType(env, w, ty.elem) {
      if (forall p :: p in ps ==> ByLength(env, p)) && Exhaustive(env, ty, ps) {
        forall n: nat ensures LengthTaken(env, ps, n) {
          var v := ListOf(env, ty, w, n);
          var p :| p in ps && Matches(env, p, v, ty);
          assert TakesLength(env, p, n);
        }
        SomeTakesFrom(env, ps);
        assert false;
      }
    }
  }

  /** Every list no longer than `n` is matched. */
  ghost predicate ExhaustiveUpTo(env: Env, ty: Type, ps: seq<Pattern>, n: nat)
    requires ty.List?
  {
    forall v :: HasType(env, v, ty) && |v.elems| <= n ==> AnyMatches(env, ps, v, ty)
  }

  /** Whatever the arms look at, lists one longer than the longest arm decide for all longer
      ones: beyond the heads an arm either takes any more elements or none. */
  lemma ListExhaustiveUpToLongest(env: Env, ty: Type, ps: seq<Pattern>)
    requires ty.List? && forall p :: p in ps ==> Fits(env, p, ty)
    ensures Exhaustive(env, ty, ps) <==> ExhaustiveUpTo(env, ty, ps, LongestOf(ps) + 1)
  {
    var n := LongestOf(ps) + 1;
    if ExhaustiveUpTo(env, ty, ps, n) {
      forall v | HasType(env, v, ty) ensures AnyMatches(env, ps, v, ty) {
        if |v.elems| > n {
          var short := ListValue(v.elems[..n]);
          assert forall w :: w in short.elems ==> w in v.elems;
          assert HasType(env, short, ty) && |short.elems| == n;
          var p :| p in ps && Matches(env, p, short, ty);
          LongerMatches(env, ty, p, short, v);
        }
      }
    }
  }

  lemma LongerMatches(env: Env, ty: Type, p: Pattern, short: Value, long: Value)
    requires ty.List? && Fits(env, p, ty) && HasType(env, short, ty) && HasType(env, long, ty)
    requires Matches(env, p, short, ty) && short.elems <= long.elems && (p.ListPattern? ==> |p.items| < |short.elems|)
    ensures Matches(env, p, long, ty)
  {
    if p.ListPattern? {
      forall i | 0 <= i < |p.items| ensures Matches(env, p.items[i], long.elems[i], ty.elem) { assert long.elems[i] == short.elems[i]; }
    }
  }

  /** The check refuses no such arms. */
  lemma LengthsTakenIsAccepted(env: Env, ty: Type, ps: seq<Pattern>)
    requires ty.List? && LengthsTaken(env, ps)
    ensures Accepted(env, ty, ps)
  {
    var p, k: nat :| p in ps && TakesFrom(env, p, k) && forall n: nat :: n < k ==> LengthTaken(env, ps, n);
    if p.ListPattern? && k > 0 {
      assert TakesNonEmpty(env, p) && LengthTaken(env, ps, 0);
      var q :| q in ps && TakesLength(env, q, 0);
      assert ListTakesAll(q) || q == ListPattern([], false);
    } else {
      assert ListTakesAll(p);
    }
  }

  /** What it accepts is exhaustive, then, where every arm it counts for the non-empty lists
      has one head. */
  lemma AcceptedListIsExhaustive(env: Env, ty: Type, ps: seq<Pattern>)
    requires ty.List? && Accepted(env, ty, ps)
    requires forall p :: p in ps ==> Fits(env, p, ty)
    requires forall p :: p in ps && TakesNonEmpty(env, p) ==> |p.items| == 1
    ensures Exhaustive(env, ty, ps)
  {
    if p :| p in ps && ListTakesAll(p) {
      assert TakesFrom(env, p, 0);
    } else {
      var p :| p in ps && TakesNonEmpty(env, p);
      assert TakesFrom(env, p, 1);
      assert TakesLength(env, ListPattern([], false), 0);
      assert LengthTaken(env, ps, 0);
    }
    ListExhaustiveExactly(env, ty, ps);
  }

  /** Two heads without the arm for one element: accepted, and `[x]` slips by. */
  lemma LongHeadsCountAsNonEmpty(env: Env)
    ensures var ty := List(Bool); var ps := [ListPattern([], false), ListPattern([Underscore, Underscore], true)];
            (forall p :: p in ps ==> Fits(env, p, ty)) && Accepted(env, ty, ps) && !Exhaustive(env, ty, ps)
  {
    var ty := List(Bool);
    var long := ListPattern([Underscore, Underscore], true);
    var ps, v := [ListPattern([], false), long], ListValue([BoolValue(true)]);
    assert ps[1] == long && TakesNonEmpty(env, long);
    assert HasType(env, v, ty) && !AnyMatches(env, ps, v, ty);
  }
}
