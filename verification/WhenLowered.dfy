/** The arms of a `when` as they run. A sub-pattern is lowered without its type, and an arm's
    bare name is looked up among all enums; so a run can read an arm differently from the
    analyzer, and this is exactly where it does. */
module WhenLowered {
  import opened Wrappers
  import opened WhenCheck
  import opened WhenMeaning

  /** A nested pattern at run time: it is lowered without its type, so a name binds. */
  ghost predicate RunsInside(p: Pattern, v: Value)
    decreases p
  {
    match p
    case Underscore => true
    case Identifier(_) => true
    case Literal(value) => v == value
    case Constructor(name, args) => v.VariantValue? && v.variant == name && AllRunInside(args, v.payload)
    case TuplePattern(items) => v.TupleValue? && AllRunInside(items, v.items)
    case RecordPattern(fields, _) => v.RecordValue? && forall i :: 0 <= i < |fields| ==> FieldRunsInside(fields[i], v.fields)
    case ListPattern(items, rest) =>
      && v.ListValue? && |items| <= |v.elems| && (rest || |items| == |v.elems|)
      && forall i :: 0 <= i < |items| ==> RunsInside(items[i], v.elems[i])
    case Interpolation => false
  }

  ghost predicate AllRunInside(ps: seq<Pattern>, vs: seq<Value>)
    decreases ps
  {
    |ps| == |vs| && forall i :: 0 <= i < |ps| ==> RunsInside(ps[i], vs[i])
  }

  ghost predicate FieldRunsInside(f: FieldPattern, vs: seq<FieldValue>)
    decreases f
  {
    exists j :: 0 <= j < |vs| && vs[j].name == f.name && RunsInside(f.pattern, vs[j].value)
  }

  /** An arm at run time: a bare name tests for any variant of the subject's enum that has
      that name and no payload, whether or not the enum is a prelude one. */
  ghost predicate Runs(env: Env, p: Pattern, v: Value, ty: Type) {
    if p.Identifier? && ty.Enum? && ty.name in env && Variant(p.name, []) in env[ty.name].variants
    then v.VariantValue? && v.variant == p.name
    else RunsInside(p, v)
  }

  ghost predicate AnyRuns(env: Env, ps: seq<Pattern>, v: Value, ty: Type) {
    exists p :: p in ps && Runs(env, p, v, ty)
  }

  /** A name the analyzer takes for a binding and the lowering for a variant test. */
  ghost predicate Misread(env: Env, p: Pattern, ty: Type) {
    p.Identifier? && ty.Enum? && ty.name in env && Variant(p.name, []) in env[ty.name].variants && !NamesVariant(env, ty, p.name)
  }

  // ----- inside an arm -----

  /** Some identifier inside the pattern names a variant of the type it stands at, and the
      type has a value of another variant. */
  ghost predicate NameInside(env: Env, p: Pattern, ty: Type)
    decreases p
  {
    match p
    case Identifier(name) => NamesVariant(env, ty, name) && exists w :: HasType(env, w, ty) && w.variant != name
    case Constructor(name, args) => Payload(env, ty, name).Some? && NameAmong(env, args, Payload(env, ty, name).value)
    case TuplePattern(items) => ty.Tuple? && NameAmong(env, items, ty.items)
    case RecordPattern(fields, _) => ty.Record? && exists i, j :: 0 <= i < |fields| && FieldNameInside(env, fields[i], ty.fields, j)
    case ListPattern(items, _) => ty.List? && exists i :: 0 <= i < |items| && NameInside(env, items[i], ty.elem)
    case _ => false
  }

  ghost predicate NameAmong(env: Env, ps: seq<Pattern>, ts: seq<Type>)
    decreases ps
  {
    |ps| == |ts| && exists i :: 0 <= i < |ps| && NameInside(env, ps[i], ts[i])
  }

  ghost predicate FieldNameInside(env: Env, f: FieldPattern, ts: seq<FieldType>, j: int)
    decreases f
  {
    0 <= j < |ts| && ts[j].name == f.name && NameInside(env, f.pattern, ts[j].ty)
  }

  /** No record type and no record pattern names a field twice; both are reported. */
  ghost predicate Tidy(env: Env, p: Pattern, ty: Type)
    decreases p
  {
    match p
    case Constructor(name, args) => Payload(env, ty, name).Some? ==> AllTidy(env, args, Payload(env, ty, name).value)
    case TuplePattern(items) => ty.Tuple? ==> AllTidy(env, items, ty.items)
    case RecordPattern(fields, _) => ty.Record? ==>
      && (forall i, j :: 0 <= i < j < |fields| ==> fields[i].name != fields[j].name)
      && (forall i, j :: 0 <= i < j < |ty.fields| ==> ty.fields[i].name != ty.fields[j].name)
      && forall i :: 0 <= i < |fields| ==> FieldTidy(env, fields[i], ty.fields)
    case ListPattern(items, _) => ty.List? ==> forall i :: 0 <= i < |items| ==> Tidy(env, items[i], ty.elem)
    case _ => true
  }

  ghost predicate AllTidy(env: Env, ps: seq<Pattern>, ts: seq<Type>)
    decreases ps
  {
    |ps| == |ts| ==> forall i :: 0 <= i < |ps| ==> Tidy(env, ps[i], ts[i])
  }

  ghost predicate FieldTidy(env: Env, f: FieldPattern, ts: seq<FieldType>)
    decreases f
  {
    forall j :: 0 <= j < |ts| && ts[j].name == f.name ==> Tidy(env, f.pattern, ts[j].ty)
  }

  /** Whatever the analyzer lets a pattern match, the run lets it match. */
  lemma {:induction false} MatchesRunsInside(env: Env, p: Pattern, v: Value, ty: Type)
    requires Matches(env, p, v, ty)
    ensures RunsInside(p, v)
    decreases p
  {
    match p
    case Constructor(name, args) =>
      forall i | 0 <= i < |args| ensures RunsInside(args[i], v.payload[i]) {
        MatchesRunsInside(env, args[i], v.payload[i], Payload(env, ty, name).value[i]);
      }
    case TuplePattern(items) =>
      forall i | 0 <= i < |items| ensures RunsInside(items[i], v.items[i]) { MatchesRunsInside(env, items[i], v.items[i], ty.items[i]); }
    case RecordPattern(fields, _) =>
      forall i | 0 <= i < |fields| ensures FieldRunsInside(fields[i], v.fields) {
        assert FieldMatches(env, fields[i], v.fields, ty.fields);
        var j :| 0 <= j < |v.fields| && v.fields[j].name == fields[i].name && Matches(env, fields[i].pattern, v.fields[j].value, ty.fields[j].ty);
        MatchesRunsInside(env, fields[i].pattern, v.fields[j].value, ty.fields[j].ty);
      }
    case ListPattern(items, _) =>
      forall i | 0 <= i < |items| ensures RunsInside(items[i], v.elems[i]) { MatchesRunsInside(env, items[i], v.elems[i], ty.elem); }
    case _ =>
  }

  /** The other way round where no such name stands inside. */
  lemma {:induction false} RunsInsideMatches(env: Env, p: Pattern, v: Value, ty: Type)
    requires Fits(env, p, ty) && HasType(env, v, ty) && !NameInside(env, p, ty) && RunsInside(p, v)
    ensures Matches(env, p, v, ty)
    decreases p
  {
    match p
    case Identifier(name) => if NamesVariant(env, ty, name) { assert v.variant == name; }
    case Constructor(name, args) => AllRunInsideMatch(env, args, v.payload, Payload(env, ty, name).value);
    case TuplePattern(items) => AllRunInsideMatch(env, items, v.items, ty.items);
    case RecordPattern(fields, _) =>
      forall i | 0 <= i < |fields| ensures FieldMatches(env, fields[i], v.fields, ty.fields) {
        assert FieldRunsInside(fields[i], v.fields) && FieldFits(env, fields[i], ty.fields);
        var j :| 0 <= j < |v.fields| && v.fields[j].name == fields[i].name && RunsInside(fields[i].pattern, v.fields[j].value);
        assert !FieldNameInside(env, fields[i], ty.fields, j);
        RunsInsideMatches(env, fields[i].pattern, v.fields[j].value, ty.fields[j].ty);
      }
    case ListPattern(items, _) =>
      forall i | 0 <= i < |items| ensures Matches(env, items[i], v.elems[i], ty.elem) {
        assert v.elems[i] in v.elems;
        RunsInsideMatches(env, items[i], v.elems[i], ty.elem);
      }
    case _ =>
  }

  lemma {:induction false} AllRunInsideMatch(env: Env, ps: seq<Pattern>, vs: seq<Value>, ts: seq<Type>)
    requires AllFit(env, ps, ts) && HaveTypes(env, vs, ts) && !NameAmong(env, ps, ts) && AllRunInside(ps, vs)
    ensures MatchesAll(env, ps, vs, ts)
    decreases ps
  {
    forall i | 0 <= i < |ps| ensures Matches(env, ps[i], vs[i], ts[i]) { RunsInsideMatches(env, ps[i], vs[i], ts[i]); }
  }

  /** And where one does, any value the pattern runs on can be changed at that name, so that
      the pattern still runs on it but the analyzer's reading does not match. */
  lemma {:induction false} NameInsideSeparates(env: Env, p: Pattern, v: Value, ty: Type) returns (v': Value)
    requires Fits(env, p, ty) && Tidy(env, p, ty) && HasType(env, v, ty) && NameInside(env, p, ty) && RunsInside(p, v)
    ensures HasType(env, v', ty) && RunsInside(p, v') && !Matches(env, p, v', ty)
    decreases p
  {
    match p
    case Identifier(name) => v' :| HasType(env, v', ty) && v'.variant != name;
    case Constructor(name, args) =>
      var payload := OneSeparated(env, args, v.payload, Payload(env, ty, name).value);
      v' := VariantValue(name, payload);
    case TuplePattern(items) =>
      var changed := OneSeparated(env, items, v.items, ty.items);
      v' := TupleValue(changed);
    case RecordPattern(fields, _) => v' := FieldSeparated(env, fields, v, ty, p);
    case ListPattern(items, _) =>
      var i :| 0 <= i < |items| && NameInside(env, items[i], ty.elem);
      assert v.elems[i] in v.elems;
      var w := NameInsideSeparates(env, items[i], v.elems[i], ty.elem);
      v' := ListValue(v.elems[i := w]);
      assert !Matches(env, items[i], v'.elems[i], ty.elem);
  }

  lemma {:induction false} OneSeparated(env: Env, ps: seq<Pattern>, vs: seq<Value>, ts: seq<Type>) returns (vs': seq<Value>)
    requires AllFit(env, ps, ts) && AllTidy(env, ps, ts) && HaveTypes(env, vs, ts) && NameAmong(env, ps, ts) && AllRunInside(ps, vs)
    ensures HaveTypes(env, vs', ts) && AllRunInside(ps, vs') && !MatchesAll(env, ps, vs', ts)
    decreases ps
  {
    var i :| 0 <= i < |ps| && NameInside(env, ps[i], ts[i]);
    var w := NameInsideSeparates(env, ps[i], vs[i], ts[i]);
    vs' := vs[i := w];
    assert !Matches(env, ps[i], vs'[i], ts[i]);
  }

  lemma {:induction false} FieldSeparated(env: Env, fields: seq<FieldPattern>, v: Value, ty: Type, p: Pattern) returns (v': Value)
    requires p.RecordPattern? && p.fields == fields
    requires Fits(env, p, ty) && Tidy(env, p, ty) && HasType(env, v, ty) && NameInside(env, p, ty) && RunsInside(p, v)
    ensures HasType(env, v', ty) && RunsInside(p, v') && !Matches(env, p, v', ty)
    decreases fields
  {
    var i, j := NamedField(env, fields, v, ty, p);
    assert FieldRunsInside(fields[i], v.fields) && FieldTidy(env, fields[i], ty.fields);
    var w := NameInsideSeparates(env, fields[i].pattern, v.fields[j].value, ty.fields[j].ty);
    hide Fits, Tidy, NameInside, FieldTidy;
    v' := RecordValue(v.fields[j := FieldValue(fields[i].name, w)]);
    FieldsStillRun(fields, v.fields, i, j, w);
    OtherwiseUnmatched(env, fields[i], v'.fields, ty.fields, j);
    RecordChanged(env, v, ty, j, w);
  }

  /** A field the record pattern names a variant in, and its place in the record. */
  lemma NamedField(env: Env, fields: seq<FieldPattern>, v: Value, ty: Type, p: Pattern) returns (i: nat, j: nat)
    requires p.RecordPattern? && p.fields == fields && Fits(env, p, ty) && HasType(env, v, ty) && NameInside(env, p, ty)
    ensures i < |fields| && j < |ty.fields| == |v.fields| && ty.fields[j].name == fields[i].name == v.fields[j].name
    ensures NameInside(env, fields[i].pattern, ty.fields[j].ty) && Fits(env, fields[i].pattern, ty.fields[j].ty)
    ensures HasType(env, v.fields[j].value, ty.fields[j].ty)
  {
    i, j :| 0 <= i < |fields| && 0 <= j && FieldNameInside(env, fields[i], ty.fields, j);
    assert FieldFits(env, fields[i], ty.fields);
  }

  lemma RecordChanged(env: Env, v: Value, ty: Type, j: nat, w: Value)
    requires ty.Record? && HasType(env, v, ty) && j < |ty.fields| && HasType(env, w, ty.fields[j].ty)
    ensures HasType(env, RecordValue(v.fields[j := FieldValue(ty.fields[j].name, w)]), ty)
  {
    var vs := v.fields[j := FieldValue(ty.fields[j].name, w)];
    assert RecordValue(vs).fields == vs;
  }

  lemma FieldsStillRun(fields: seq<FieldPattern>, vs: seq<FieldValue>, i: nat, j: nat, w: Value)
    requires i < |fields| && j < |vs| && vs[j].name == fields[i].name && RunsInside(fields[i].pattern, w)
    requires forall a, b :: 0 <= a < b < |fields| ==> fields[a].name != fields[b].name
    requires forall k :: 0 <= k < |fields| ==> FieldRunsInside(fields[k], vs)
    ensures forall k :: 0 <= k < |fields| ==> FieldRunsInside(fields[k], vs[j := FieldValue(fields[i].name, w)])
  {
    hide RunsInside;
    var vs' := vs[j := FieldValue(fields[i].name, w)];
    forall k | 0 <= k < |fields| ensures FieldRunsInside(fields[k], vs') {
      var m :| 0 <= m < |vs| && vs[m].name == fields[k].name && RunsInside(fields[k].pattern, vs[m].value);
      var at := if k == i then j else m;
      assert vs'[at].name == fields[k].name && RunsInside(fields[k].pattern, vs'[at].value);
    }
  }

  lemma OtherwiseUnmatched(env: Env, f: FieldPattern, vs: seq<FieldValue>, ts: seq<FieldType>, j: nat)
    requires j < |vs| == |ts| && ts[j].name == f.name && !Matches(env, f.pattern, vs[j].value, ts[j].ty)
    requires forall a, b :: 0 <= a < b < |ts| ==> ts[a].name != ts[b].name
    requires forall k :: 0 <= k < |vs| ==> vs[k].name == ts[k].name
    ensures !FieldMatches(env, f, vs, ts)
  {
    hide Matches;
  }

  /** Inside an arm the two readings agree on every value exactly when no identifier names a
      variant of its type beside another inhabited one, or the pattern runs on nothing. */
  lemma ReadingsAgreeExactly(env: Env, p: Pattern, ty: Type)
    requires Fits(env, p, ty) && Tidy(env, p, ty)
    ensures (forall v :: HasType(env, v, ty) ==> (RunsInside(p, v) <==> Matches(env, p, v, ty)))
            <==> (NameInside(env, p, ty) ==> forall v :: HasType(env, v, ty) ==> !RunsInside(p, v))
  {
    if !NameInside(env, p, ty) {
      forall v | HasType(env, v, ty) ensures RunsInside(p, v) <==> Matches(env, p, v, ty) {
        if Matches(env, p, v, ty) { MatchesRunsInside(env, p, v, ty); }
        if RunsInside(p, v) { RunsInsideMatches(env, p, v, ty); }
      }
    } else if v :| HasType(env, v, ty) && RunsInside(p, v) {
      var v' := NameInsideSeparates(env, p, v, ty);
      assert HasType(env, v', ty) && !(RunsInside(p, v') <==> Matches(env, p, v', ty));
    } else {
      forall v | HasType(env, v, ty) ensures !Matches(env, p, v, ty) { if Matches(env, p, v, ty) { MatchesRunsInside(env, p, v, ty); } }
    }
  }

  /** Below the top of an arm a prelude variant's bare name matches everything at run time. */
  lemma {:induction false} NestedVariantNameBinds(env: Env, inner: Type, w: Value)
    requires "__prelude__.option" in env && env["__prelude__.option"] == EnumDef([0], [Variant("some", [Var(0)]), Variant("none", [])])
    requires inner == Enum("__prelude__.option", [Bool]) && HasType(env, w, inner) && w.variant == "some"
    ensures var ty := Enum("__prelude__.option", [inner]); var p := Constructor("some", [Identifier("none")]); var v := VariantValue("some", [w]);
            HasType(env, v, ty) && Fits(env, p, ty) && Runs(env, p, v, ty) && !Matches(env, p, v, ty)
  {
    var ty := Enum("__prelude__.option", [inner]);
    var variants := env["__prelude__.option"].variants;
    assert Find(variants, "some") == Some([Var(0)]);
    assert Find(variants[1..], "none") == Some([]);
    assert Bind([0], [inner])[0] == inner;
    assert Payload(env, ty, "some").value == [inner];
    assert NamesVariant(env, inner, "none");
  }

  // ----- whole arms -----

  /** The pattern with every identifier read as a binding. */
  ghost function Blank(p: Pattern): Pattern
    decreases p
  {
    match p
    case Identifier(_) => Underscore
    case Constructor(name, args) => Constructor(name, BlankAll(args))
    case TuplePattern(items) => TuplePattern(BlankAll(items))
    case RecordPattern(fields, rest) => RecordPattern(BlankFields(fields), rest)
    case ListPattern(items, rest) => ListPattern(BlankAll(items), rest)
    case _ => p
  }

  ghost function BlankAll(ps: seq<Pattern>): (r: seq<Pattern>)
    ensures |r| == |ps| && forall i :: 0 <= i < |ps| ==> r[i] == Blank(ps[i])
    decreases ps
  {
    if ps == [] then [] else [Blank(ps[0])] + BlankAll(ps[1..])
  }

  ghost function BlankFields(fs: seq<FieldPattern>): (r: seq<FieldPattern>)
    ensures |r| == |fs| && forall i :: 0 <= i < |fs| ==> r[i] == FieldPattern(fs[i].name, Blank(fs[i].pattern))
    decreases fs
  {
    if fs == [] then [] else [FieldPattern(fs[0].name, Blank(fs[0].pattern))] + BlankFields(fs[1..])
  }

  ghost function Wildcards(n: nat): (r: seq<Pattern>)
    ensures |r| == n && forall i :: 0 <= i < n ==> r[i] == Underscore
  {
    seq(n, _ => Underscore)
  }

  /** The arm with a misread name taken for the variant it is run as. */
  ghost function Reread(env: Env, ty: Type, p: Pattern): Pattern {
    if Misread(env, p, ty) && Payload(env, ty, p.name).Some?
    then Constructor(p.name, Wildcards(|Payload(env, ty, p.name).value|))
    else p
  }

  /** The arm the run carries out, written as a pattern: a misread name is the variant, and
      an identifier inside the arm is a binding. */
  ghost function AsRun(env: Env, ty: Type, p: Pattern): Pattern {
    if p.Identifier? then Reread(env, ty, p) else Blank(p)
  }

  ghost function AllReread(env: Env, ty: Type, ps: seq<Pattern>): (r: seq<Pattern>)
    ensures |r| == |ps| && forall i :: 0 <= i < |ps| ==> r[i] == Reread(env, ty, ps[i])
  {
    seq(|ps|, i requires 0 <= i < |ps| => Reread(env, ty, ps[i]))
  }

  ghost function AllAsRun(env: Env, ty: Type, ps: seq<Pattern>): (r: seq<Pattern>)
    ensures |r| == |ps| && forall i :: 0 <= i < |ps| ==> r[i] == AsRun(env, ty, ps[i])
  {
    seq(|ps|, i requires 0 <= i < |ps| => AsRun(env, ty, ps[i]))
  }

  lemma {:induction false} BlankMatches(env: Env, p: Pattern, v: Value, ty: Type)
    requires Fits(env, p, ty) && HasType(env, v, ty)
    ensures Matches(env, Blank(p), v, ty) <==> RunsInside(p, v)
    decreases p
  {
    match p
    case Constructor(name, args) => if v.variant == name { BlankMatchesAll(env, args, v.payload, Payload(env, ty, name).value); }
    case TuplePattern(items) => BlankMatchesAll(env, items, v.items, ty.items);
    case RecordPattern(fields, _) =>
      forall i | 0 <= i < |fields|
        ensures FieldMatches(env, BlankFields(fields)[i], v.fields, ty.fields) <==> FieldRunsInside(fields[i], v.fields)
      {
        assert FieldFits(env, fields[i], ty.fields);
        forall j | 0 <= j < |v.fields| && v.fields[j].name == fields[i].name
          ensures Matches(env, Blank(fields[i].pattern), v.fields[j].value, ty.fields[j].ty) <==> RunsInside(fields[i].pattern, v.fields[j].value)
        {
          BlankMatches(env, fields[i].pattern, v.fields[j].value, ty.fields[j].ty);
        }
      }
    case ListPattern(items, _) =>
      forall i | 0 <= i < |items| && i < |v.elems| ensures Matches(env, BlankAll(items)[i], v.elems[i], ty.elem) <==> RunsInside(items[i], v.elems[i]) {
        assert v.elems[i] in v.elems;
        BlankMatches(env, items[i], v.elems[i], ty.elem);
      }
    case _ =>
  }

  lemma {:induction false} BlankMatchesAll(env: Env, ps: seq<Pattern>, vs: seq<Value>, ts: seq<Type>)
    requires AllFit(env, ps, ts) && HaveTypes(env, vs, ts)
    ensures MatchesAll(env, BlankAll(ps), vs, ts) <==> AllRunInside(ps, vs)
    decreases ps
  {
    forall i | 0 <= i < |ps| ensures Matches(env, BlankAll(ps)[i], vs[i], ts[i]) <==> RunsInside(ps[i], vs[i]) { BlankMatches(env, ps[i], vs[i], ts[i]); }
  }

  /** A bare arm runs on exactly the values it matches once reread. */
  lemma NameRunsReread(env: Env, p: Pattern, v: Value, ty: Type)
    requires p.Identifier? && HasType(env, v, ty)
    ensures Runs(env, p, v, ty) <==> Matches(env, Reread(env, ty, p), v, ty)
  {
    if Misread(env, p, ty) {
      var i :| 0 <= i < |env[ty.name].variants| && env[ty.name].variants[i] == Variant(p.name, []);
      assert env[ty.name].variants[i].name == p.name;
      var payload := Payload(env, ty, p.name).value;
      assert v.variant == p.name ==> MatchesAll(env, Wildcards(|payload|), v.payload, payload);
    } else if NamesVariant(env, ty, p.name) {
      FindIn(env[ty.name].variants, p.name);
    }
  }

  /** A lowered arm runs on exactly the values the rewritten arm matches. */
  lemma RunsAsRewritten(env: Env, p: Pattern, v: Value, ty: Type)
    requires Fits(env, p, ty) && HasType(env, v, ty)
    ensures Runs(env, p, v, ty) <==> Matches(env, AsRun(env, ty, p), v, ty)
  {
    if p.Identifier? { NameRunsReread(env, p, v, ty); } else { BlankMatches(env, p, v, ty); }
  }

  /** No value falls through a `when` as it runs, exactly when its arms, rewritten to what
      they run as, are exhaustive. */
  lemma FallsThroughExactly(env: Env, ty: Type, ps: seq<Pattern>)
    requires forall p :: p in ps ==> Fits(env, p, ty)
    ensures (forall v :: HasType(env, v, ty) ==> AnyRuns(env, ps, v, ty)) <==> Exhaustive(env, ty, AllAsRun(env, ty, ps))
  {
    forall v | HasType(env, v, ty) ensures AnyRuns(env, ps, v, ty) <==> AnyMatches(env, AllAsRun(env, ty, ps), v, ty) {
      forall i | 0 <= i < |ps| ensures Runs(env, ps[i], v, ty) <==> Matches(env, AllAsRun(env, ty, ps)[i], v, ty) { RunsAsRewritten(env, ps[i], v, ty); }
      SameAny(env, ps, AllAsRun(env, ty, ps), v, ty);
    }
  }

  lemma SameAny(env: Env, ps: seq<Pattern>, qs: seq<Pattern>, v: Value, ty: Type)
    requires |ps| == |qs| && forall i :: 0 <= i < |ps| ==> (Runs(env, ps[i], v, ty) <==> Matches(env, qs[i], v, ty))
    ensures AnyRuns(env, ps, v, ty) <==> AnyMatches(env, qs, v, ty)
  {
    hide Runs, Matches;
    if p :| p in ps && Runs(env, p, v, ty) {
      var i :| 0 <= i < |ps| && ps[i] == p;
      assert qs[i] in qs;
    }
    if q :| q in qs && Matches(env, q, v, ty) {
      var i :| 0 <= i < |qs| && qs[i] == q;
      assert ps[i] in ps;
    }
  }

  /** Without a variant's name inside an arm, only the misread bare names tell the two apart:
      no value falls through exactly when the arms, those names taken for variants, are
      exhaustive. */
  lemma MisreadsFallThroughExactly(env: Env, ty: Type, ps: seq<Pattern>)
    requires forall p :: p in ps ==> Fits(env, p, ty) && (p.Identifier? || !NameInside(env, p, ty))
    ensures (forall v :: HasType(env, v, ty) ==> AnyRuns(env, ps, v, ty)) <==> Exhaustive(env, ty, AllReread(env, ty, ps))
  {
    forall v | HasType(env, v, ty) ensures AnyRuns(env, ps, v, ty) <==> AnyMatches(env, AllReread(env, ty, ps), v, ty) {
      forall i | 0 <= i < |ps| ensures Runs(env, ps[i], v, ty) <==> Matches(env, AllReread(env, ty, ps)[i], v, ty) {
        if ps[i].Identifier? {
          NameRunsReread(env, ps[i], v, ty);
        } else {
          if Matches(env, ps[i], v, ty) { MatchesRunsInside(env, ps[i], v, ty); }
          if RunsInside(ps[i], v) { RunsInsideMatches(env, ps[i], v, ty); }
        }
      }
      SameAny(env, ps, AllReread(env, ty, ps), v, ty);
    }
  }

  /** So no accepted `when` over a closed type falls through if none of its arms is misread. */
  lemma AcceptedNeverFallsThrough(env: Env, ty: Type, ps: seq<Pattern>, v: Value)
    requires Closed(env, ty) && Accepted(env, ty, ps) && HasType(env, v, ty)
    requires forall p :: p in ps ==> Fits(env, p, ty) && !Misread(env, p, ty)
    ensures AnyRuns(env, ps, v, ty)
  {
    AcceptedIsExhaustive(env, ty, ps);
    var p :| p in ps && Matches(env, p, v, ty);
    MatchesRunsInside(env, p, v, ty);
    assert Runs(env, p, v, ty);
  }

  /** A misread arm is enough for acceptance and alone lets the other variants through. */
  lemma MisreadArmFallsThrough(env: Env, ty: Type, p: Pattern, v: Value)
    requires Misread(env, p, ty) && HasType(env, v, ty) && v.variant != p.name
    ensures Accepted(env, ty, [p]) && Fits(env, p, ty) && !AnyRuns(env, [p], v, ty)
  {
    assert p in [p] && TakesAll(env, ty, p);
  }
}
