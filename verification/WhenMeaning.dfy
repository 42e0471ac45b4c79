/** What acceptance of a `when` over a closed type means: every value is matched; and where
    the check is exact. */
module WhenMeaning {
  import opened Wrappers
  import opened WhenCheck

  // ----- soundness of the whole check -----

  lemma {:induction false} AllDone(env: Env, ty: Type, names: seq<string>, ps: seq<Pattern>, name: string)
    requires Uncovered(env, ty, names, ps) == [] && name in names
    ensures Done(env, ty, name, ps)
  {
    if name != names[0] { AllDone(env, ty, names[1..], ps, name); }
  }

  lemma {:induction false} SomeUndone(env: Env, ty: Type, names: seq<string>, ps: seq<Pattern>) returns (name: string)
    requires Uncovered(env, ty, names, ps) != []
    ensures name in names && !Done(env, ty, name, ps)
  {
    if Done(env, ty, names[0], ps) { name := SomeUndone(env, ty, names[1..], ps); } else { name := names[0]; }
  }

  /** A subject whose values the check can list, or a record. */
  ghost predicate Closed(env: Env, ty: Type) {
    ty.Bool? || ty.Record? || (ty.Enum? && ty.name in env)
  }

  /** An accepted `when` over a bool, a visible enum or a closed record matches every value,
      through any nesting of payloads. */
  lemma AcceptedIsExhaustive(env: Env, ty: Type, ps: seq<Pattern>)
    requires Closed(env, ty) && Accepted(env, ty, ps)
    requires forall p :: p in ps ==> Fits(env, p, ty)
    ensures Exhaustive(env, ty, ps)
  {
    forall v | HasType(env, v, ty) ensures AnyMatches(env, ps, v, ty) {
      if ty.Record? {
        RecordIsSound(env, ty, ps, v);
      } else if p :| p in ps && TakesAll(env, ty, p) {
        assert Matches(env, p, v, ty);
      } else if ty.Bool? {
        AllDone(env, ty, ["true", "false"], ps, if v.b then "true" else "false");
        assert Matches(env, Literal(v), v, ty);
      } else {
        FindIn(env[ty.name].variants, v.variant);
        NameListed(env[ty.name].variants, v.variant);
        AllDone(env, ty, Names(env[ty.name].variants), ps, v.variant);
        VariantIsSound(env, ty, ps, v);
      }
    }
  }

  lemma NameListed(variants: seq<Variant>, name: string)
    requires Find(variants, name).Some?
    ensures name in Names(variants)
  {
    var i :| 0 <= i < |variants| && variants[i].name == name;
    assert Names(variants)[i] == name;
  }

  lemma RecordIsSound(env: Env, ty: Type, ps: seq<Pattern>, v: Value)
    requires ty.Record? && Accepted(env, ty, ps) && HasType(env, v, ty)
    requires forall p :: p in ps ==> Fits(env, p, ty)
    ensures AnyMatches(env, ps, v, ty)
  {
    var p :| p in ps && RecordTakesAll(env, p);
    if p.RecordPattern? { CatchAllMatches(env, p, v, ty); }
    assert Matches(env, p, v, ty);
  }

  // ----- exactness -----

  /** Enums of the environment with as many arguments as variables, and the given variables. */
  ghost predicate Known(env: Env, ty: Type, vars: seq<nat>)
    decreases ty
  {
    match ty
    case Enum(name, args) => name in env && |args| == |env[name].vars| && forall a :: a in args ==> Known(env, a, vars)
    case Record(fields) => forall f :: f in fields ==> Known(env, f.ty, vars)
    case Tuple(items) => forall t :: t in items ==> Known(env, t, vars)
    case List(e) => Known(env, e, vars)
    case Var(n) => n in vars
    case _ => true
  }

  ghost predicate KnownEnv(env: Env) {
    forall name :: name in env ==> forall v :: v in env[name].variants ==> forall t :: t in v.params ==> Known(env, t, env[name].vars)
  }

  ghost predicate Inhabited(env: Env) {
    forall ty :: Known(env, ty, []) ==> exists v :: HasType(env, v, ty)
  }

  /** What the cover test can make use of: catch-alls, bool literals, variants without payload,
      and variants with one usable payload or with catch-alls alone. It takes a product or a
      list apart nowhere, and a name that is some prelude variant's for a test everywhere. */
  ghost predicate Usable(env: Env, p: Pattern, ty: Type)
    decreases p
  {
    CatchAll(env, p) ||
    match p
    case Identifier(name) => NamesVariant(env, ty, name)
    case Literal(value) => ty.Bool? && value.BoolValue?
    case Constructor(name, args) =>
      if |args| == 1 && Payload(env, ty, name).Some? && |Payload(env, ty, name).value| == 1
      then Usable(env, args[0], Payload(env, ty, name).value[0]) else AllCatchAll(env, args)
    case _ => false
  }

  ghost predicate AllUsable(env: Env, ty: Type, ps: seq<Pattern>) {
    forall p :: p in ps ==> Usable(env, p, ty)
  }

  ghost predicate AllFitting(env: Env, ty: Type, ps: seq<Pattern>) {
    forall p :: p in ps ==> Fits(env, p, ty)
  }

  lemma {:induction false} BindGives(env: Env, vars: seq<nat>, args: seq<Type>, n: nat)
    requires |vars| == |args| && n in vars && forall a :: a in args ==> Known(env, a, [])
    ensures n in Bind(vars, args) && Known(env, Bind(vars, args)[n], [])
  {
    if vars[0] != n { BindGives(env, vars[1..], args[1..], n); }
  }

  lemma {:induction false} InstIsKnown(env: Env, vars: seq<nat>, args: seq<Type>, t: Type)
    requires Known(env, t, vars) && |vars| == |args| && forall a :: a in args ==> Known(env, a, [])
    ensures Known(env, Inst(Bind(vars, args), t), [])
    decreases t
  {
    match t
    case Var(n) => BindGives(env, vars, args, n);
    case Enum(_, ts) => InstAllKnown(env, vars, args, ts);
    case Tuple(ts) => InstAllKnown(env, vars, args, ts);
    case Record(fs) => InstFieldsKnown(env, vars, args, fs);
    case List(e) => InstIsKnown(env, vars, args, e);
    case _ =>
  }

  lemma {:induction false} InstAllKnown(env: Env, vars: seq<nat>, args: seq<Type>, ts: seq<Type>)
    requires (forall t :: t in ts ==> Known(env, t, vars)) && |vars| == |args| && forall a :: a in args ==> Known(env, a, [])
    ensures forall u :: u in InstAll(Bind(vars, args), ts) ==> Known(env, u, [])
    decreases ts
  {
    var us := InstAll(Bind(vars, args), ts);
    forall u | u in us ensures Known(env, u, []) {
      var i :| 0 <= i < |us| && us[i] == u;
      assert ts[i] in ts;
      InstIsKnown(env, vars, args, ts[i]);
    }
  }

  lemma {:induction false} InstFieldsKnown(env: Env, vars: seq<nat>, args: seq<Type>, fs: seq<FieldType>)
    requires (forall f :: f in fs ==> Known(env, f.ty, vars)) && |vars| == |args| && forall a :: a in args ==> Known(env, a, [])
    ensures forall g :: g in InstFields(Bind(vars, args), fs) ==> Known(env, g.ty, [])
    decreases fs
  {
    if fs != [] {
      assert fs[0] in fs && forall f :: f in fs[1..] ==> f in fs;
      InstIsKnown(env, vars, args, fs[0].ty);
      InstFieldsKnown(env, vars, args, fs[1..]);
    }
  }

  lemma PayloadIsKnown(env: Env, ty: Type, variant: string)
    requires KnownEnv(env) && ty.Enum? && Known(env, ty, []) && Payload(env, ty, variant).Some?
    ensures forall t :: t in Payload(env, ty, variant).value ==> Known(env, t, [])
  {
    var def := env[ty.name];
    FindIn(def.variants, variant);
    InstAllKnown(env, def.vars, ty.args, Find(def.variants, variant).value);
  }

  lemma {:induction false} Inhabitants(env: Env, ts: seq<Type>) returns (vs: seq<Value>)
    requires Inhabited(env) && forall t :: t in ts ==> Known(env, t, [])
    ensures HaveTypes(env, vs, ts)
  {
    hide HasType, Known;
    vs := [];
    for i := 0 to |ts|
      invariant |vs| == i && forall j :: 0 <= j < i ==> HasType(env, vs[j], ts[j])
    {
      assert ts[i] in ts;
      var v :| HasType(env, v, ts[i]);
      vs := vs + [v];
    }
  }

  lemma {:induction false} SomeVariantUncovered(env: Env, ty: Type, variants: seq<Variant>, ps: seq<Pattern>) returns (name: string)
    requires ty.Enum? && !VariantsCovered(env, ty, variants, ps)
    ensures Find(variants, name).Some? && !VariantCovered(env, ty, name, ps)
  {
    if VariantCovered(env, ty, variants[0].name, ps) {
      name := SomeVariantUncovered(env, ty, variants[1..], ps);
      var i :| 0 <= i < |variants[1..]| && variants[1..][i].name == name;
      assert variants[i + 1].name == name;
    } else {
      name := variants[0].name;
    }
  }

  /** Usable patterns that do not cover a type miss one of its values. */
  lemma {:induction false} UncoveredValue(env: Env, ty: Type, ps: seq<Pattern>) returns (v: Value)
    requires KnownEnv(env) && Inhabited(env) && Known(env, ty, [])
    requires AllFitting(env, ty, ps) && AllUsable(env, ty, ps) && !Covers(env, ty, ps)
    ensures HasType(env, v, ty) && !AnyMatches(env, ps, v, ty)
    decreases Weight(ps), 1
  {
    if ty.Bool? {
      v := BoolValue(Literal(BoolValue(true)) !in ps);
      forall p | p in ps ensures !Matches(env, p, v, ty) { assert Fits(env, p, ty) && Usable(env, p, ty) && !CatchAll(env, p); }
    } else if ty.Enum? {
      var name := SomeVariantUncovered(env, ty, env[ty.name].variants, ps);
      forall p | p in ps && p.Identifier? ensures NamesVariant(env, ty, p.name) { assert Usable(env, p, ty) && !CatchAll(env, p); }
      assert Underscore !in ps by { assert CatchAll(env, Underscore); }
      v := MissedVariant(env, ty, ps, name);
    } else {
      v :| HasType(env, v, ty);
      forall p | p in ps ensures !Matches(env, p, v, ty) { assert Fits(env, p, ty) && Usable(env, p, ty) && !CatchAll(env, p); }
    }
  }

  lemma {:induction false} MissedVariant(env: Env, ty: Type, ps: seq<Pattern>, name: string) returns (v: Value)
    requires KnownEnv(env) && Inhabited(env) && ty.Enum? && Known(env, ty, []) && AllFitting(env, ty, ps) && AllUsable(env, ty, ps)
    requires Payload(env, ty, name).Some? && !VariantCovered(env, ty, name, ps)
    requires Underscore !in ps && forall p :: p in ps && p.Identifier? ==> NamesVariant(env, ty, p.name)
    ensures HasType(env, v, ty) && v.VariantValue? && v.variant == name && !AnyMatches(env, ps, v, ty)
    decreases Weight(ps), 0
  {
    PayloadIsKnown(env, ty, name);
    var payload := Payload(env, ty, name).value;
    if |payload| == 1 {
      ArmsAreLighter(env, ty.name, name, 1, ps);
      var subs := Firsts(Arms(env, ty.name, name, 1, ps));
      forall q | q in subs ensures Fits(env, q, payload[0]) && Usable(env, q, payload[0]) {
        var p := ArmWith(env, ty, ps, name, q);
        UsableBelow(env, ty, name, q);
      }
      var w;
      assert payload[0] in payload;
      if subs == [] { w :| HasType(env, w, payload[0]); } else { w := UncoveredValue(env, payload[0], subs); }
      v := VariantValue(name, [w]);
      forall p | p in ps ensures !Matches(env, p, v, ty) { NotMatchedBelow(env, ty, ps, name, p, w); }
    } else {
      var vs := Inhabitants(env, payload);
      v := VariantValue(name, vs);
      forall p | p in ps ensures !Matches(env, p, v, ty) { NotAnArm(env, ty, ps, name, p, v); }
    }
  }

  lemma UsableBelow(env: Env, ty: Type, name: string, q: Pattern)
    requires Payload(env, ty, name).Some? && |Payload(env, ty, name).value| == 1
    ensures Usable(env, Constructor(name, [q]), ty) <==> Usable(env, q, Payload(env, ty, name).value[0])
  {
  }

  lemma {:induction false} NotAnArm(env: Env, ty: Type, ps: seq<Pattern>, name: string, p: Pattern, v: Value)
    requires ty.Enum? && Payload(env, ty, name).Some? && |Payload(env, ty, name).value| != 1 && !VariantCovered(env, ty, name, ps)
    requires p in ps && Fits(env, p, ty) && Usable(env, p, ty) && p != Underscore && (p.Identifier? ==> NamesVariant(env, ty, p.name))
    requires v.VariantValue? && v.variant == name
    ensures !Matches(env, p, v, ty)
  {
    var payload := Payload(env, ty, name).value;
    ArmOf(env, ty.name, name, |payload|, ps, p);
    assert forall args :: IsArm(ty.name, name, |payload|, p, args) ==> args in Arms(env, ty.name, name, |payload|, ps);
    assert p.Constructor? ==> IsArm(ty.name, p.variant, |payload|, p, p.args);
    assert p.Identifier? ==> Payload(env, ty, p.name) == Some([]) && IsArm(ty.name, p.name, 0, p, []);
  }

  lemma {:induction false} NotMatchedBelow(env: Env, ty: Type, ps: seq<Pattern>, name: string, p: Pattern, w: Value)
    requires ty.Enum? && Payload(env, ty, name).Some? && |Payload(env, ty, name).value| == 1
    requires p in ps && Fits(env, p, ty) && p != Underscore && (p.Identifier? ==> NamesVariant(env, ty, p.name))
    requires !AnyMatches(env, Firsts(Arms(env, ty.name, name, 1, ps)), w, Payload(env, ty, name).value[0])
    ensures !Matches(env, p, VariantValue(name, [w]), ty)
  {
    ArmOf(env, ty.name, name, 1, ps, p);
    if p.Constructor? && p.variant == name {
      assert IsArm(ty.name, name, 1, p, p.args);
      assert AllFit(env, p.args, Payload(env, ty, name).value);
      FirstOf(Arms(env, ty.name, name, 1, ps), p.args);
    }
  }

  lemma CoversExactlyUsable(env: Env, ty: Type, ps: seq<Pattern>)
    requires KnownEnv(env) && Inhabited(env) && Known(env, ty, []) && AllFitting(env, ty, ps) && AllUsable(env, ty, ps)
    ensures Covers(env, ty, ps) <==> Exhaustive(env, ty, ps)
  {
    if Covers(env, ty, ps) {
      forall v | HasType(env, v, ty) ensures AnyMatches(env, ps, v, ty) { CoversIsSound(env, ty, ps, v); }
    } else {
      var v := UncoveredValue(env, ty, ps);
    }
  }

  // ----- the patterns it can make no use of -----

  /** The usable ones among the patterns. */
  ghost function Used(env: Env, ty: Type, ps: seq<Pattern>): (r: seq<Pattern>)
    ensures forall p :: p in r <==> p in ps && Usable(env, p, ty)
  {
    if ps == [] then [] else
      assert forall p :: p in ps <==> p == ps[0] || p in ps[1..];
      var rest := Used(env, ty, ps[1..]);
      if Usable(env, ps[0], ty) then [ps[0]] + rest else rest
  }

  lemma {:induction false} WholeArmsUsed(env: Env, ty: Type, name: string, ps: seq<Pattern>)
    requires ty.Enum? && Payload(env, ty, name).Some? && |Payload(env, ty, name).value| != 1 && AllFitting(env, ty, ps)
    ensures VariantCovered(env, ty, name, ps) <==> VariantCovered(env, ty, name, Used(env, ty, ps))
  {
    var n, used := |Payload(env, ty, name).value|, Used(env, ty, ps);
    forall a | a in Arms(env, ty.name, name, n, used) ensures a in Arms(env, ty.name, name, n, ps) {
      var p := ArmFrom(env, ty.name, name, n, used, a);
      ArmOf(env, ty.name, name, n, ps, p);
    }
    forall a | a in Arms(env, ty.name, name, n, ps) && (n == 0 || AllCatchAll(env, a)) ensures a in Arms(env, ty.name, name, n, used) {
      var p := ArmFrom(env, ty.name, name, n, ps, a);
      assert Fits(env, p, ty);
      ArmUsable(env, ty, name, p);
      ArmOf(env, ty.name, name, n, used, p);
    }
    if VariantCovered(env, ty, name, ps) && n == 0 { assert Arms(env, ty.name, name, n, ps)[0] in Arms(env, ty.name, name, n, used); }
    if VariantCovered(env, ty, name, used) && n == 0 { assert Arms(env, ty.name, name, n, used)[0] in Arms(env, ty.name, name, n, ps); }
  }

  lemma ArmUsable(env: Env, ty: Type, name: string, p: Pattern)
    requires ty.Enum? && Payload(env, ty, name).Some? && |Payload(env, ty, name).value| != 1 && Fits(env, p, ty)
    requires (p.Constructor? && p.variant == name && (AllCatchAll(env, p.args) || Payload(env, ty, name).value == []))
             || (p == Identifier(name) && BarePrelude(ty.name, name) && Payload(env, ty, name).value == [])
    ensures Usable(env, p, ty)
  {
    if p.Constructor? { assert AllFit(env, p.args, Payload(env, ty, name).value); }
  }

  lemma {:induction false} FirstsUsed(env: Env, ty: Type, name: string, ps: seq<Pattern>)
    requires ty.Enum? && Payload(env, ty, name).Some? && |Payload(env, ty, name).value| == 1 && AllFitting(env, ty, ps)
    ensures Firsts(Arms(env, ty.name, name, 1, Used(env, ty, ps)))
            == Used(env, Payload(env, ty, name).value[0], Firsts(Arms(env, ty.name, name, 1, ps)))
  {
    if ps != [] {
      var p, rest, inner := ps[0], ps[1..], Payload(env, ty, name).value[0];
      assert p in ps && forall q :: q in rest ==> q in ps;
      FirstsUsed(env, ty, name, rest);
      if Usable(env, p, ty) { assert Used(env, ty, ps)[1..] == Used(env, ty, rest); }
      if p.Constructor? && p.variant == name {
        var arms := Arms(env, ty.name, name, 1, rest);
        assert Fits(env, p, ty);
        assert AllFit(env, p.args, Payload(env, ty, name).value);
        assert p.args == [p.args[0]];
        UsableBelow(env, ty, name, p.args[0]);
        assert ([p.args] + arms)[1..] == arms;
        assert ([p.args[0]] + Firsts(arms))[1..] == Firsts(arms);
        var kept := Arms(env, ty.name, name, 1, Used(env, ty, rest));
        assert ([p.args] + kept)[1..] == kept;
      }
    }
  }

  /** The cover test does as if the other patterns were not there. */
  lemma {:induction false} CoversUsed(env: Env, ty: Type, ps: seq<Pattern>)
    requires KnownEnv(env) && Inhabited(env) && Known(env, ty, []) && AllFitting(env, ty, ps)
    ensures Covers(env, ty, ps) <==> Covers(env, ty, Used(env, ty, ps))
    decreases Weight(ps), 1, 0
  {
    assert forall p :: p in ps && CatchAll(env, p) ==> Usable(env, p, ty);
    if ty.Enum? && !AnyCatchAll(env, ps) { VariantsUsed(env, ty, env[ty.name].variants, ps); }
  }

  lemma {:induction false} VariantsUsed(env: Env, ty: Type, variants: seq<Variant>, ps: seq<Pattern>)
    requires KnownEnv(env) && Inhabited(env) && ty.Enum? && Known(env, ty, []) && AllFitting(env, ty, ps)
    requires forall v :: v in variants ==> v in env[ty.name].variants
    ensures VariantsCovered(env, ty, variants, ps) <==> VariantsCovered(env, ty, variants, Used(env, ty, ps))
    decreases Weight(ps), 0, |variants|, 1
  {
    if variants != [] {
      assert variants[0] in variants && forall v :: v in variants[1..] ==> v in variants;
      var i :| 0 <= i < |env[ty.name].variants| && env[ty.name].variants[i] == variants[0];
      assert env[ty.name].variants[i].name == variants[0].name;
      VariantUsed(env, ty, variants[0].name, ps, |variants|);
      VariantsUsed(env, ty, variants[1..], ps);
    }
  }

  lemma {:induction false} VariantUsed(env: Env, ty: Type, name: string, ps: seq<Pattern>, n: nat)
    requires KnownEnv(env) && Inhabited(env) && ty.Enum? && Known(env, ty, []) && AllFitting(env, ty, ps)
    requires Payload(env, ty, name).Some?
    ensures VariantCovered(env, ty, name, ps) <==> VariantCovered(env, ty, name, Used(env, ty, ps))
    decreases Weight(ps), 0, n, 0
  {
    PayloadIsKnown(env, ty, name);
    var payload := Payload(env, ty, name).value;
    if |payload| != 1 {
      WholeArmsUsed(env, ty, name, ps);
    } else {
      var subs := Firsts(Arms(env, ty.name, name, 1, ps));
      ArmsAreLighter(env, ty.name, name, 1, ps);
      FirstsUsed(env, ty, name, ps);
      if subs != [] {
        forall q | q in subs ensures Fits(env, q, payload[0]) { var p := ArmWith(env, ty, ps, name, q); }
        CoversUsed(env, payload[0], subs);
        NothingCovers(env, payload[0]);
      }
    }
  }

  lemma NothingCovers(env: Env, ty: Type)
    requires Inhabited(env) && Known(env, ty, [])
    ensures !Covers(env, ty, [])
  {
    var v :| HasType(env, v, ty);
    if Covers(env, ty, []) { CoversIsSound(env, ty, [], v); }
  }

  /** On inhabited types the recursive cover test is exact for the patterns it can make use of,
      and ignores the others. */
  lemma CoversIsExact(env: Env, ty: Type, ps: seq<Pattern>)
    requires KnownEnv(env) && Inhabited(env) && Known(env, ty, []) && AllFitting(env, ty, ps)
    ensures Covers(env, ty, ps) <==> Exhaustive(env, ty, Used(env, ty, ps))
  {
    CoversUsed(env, ty, ps);
    CoversExactlyUsable(env, ty, Used(env, ty, ps));
  }

  // ----- the whole check -----

  /** A bare name is read at the subject's own type, so every one of those is usable too. */
  ghost function UsedArms(env: Env, ty: Type, ps: seq<Pattern>): (r: seq<Pattern>)
    ensures forall p :: p in r <==> p in ps && (p.Identifier? || Usable(env, p, ty))
  {
    if ps == [] then [] else
      assert forall p :: p in ps <==> p == ps[0] || p in ps[1..];
      var rest := UsedArms(env, ty, ps[1..]);
      if ps[0].Identifier? || Usable(env, ps[0], ty) then [ps[0]] + rest else rest
  }

  lemma {:induction false} UsedArmsAreUsed(env: Env, ty: Type, ps: seq<Pattern>)
    requires forall p :: p in ps && p.Identifier? ==> NamesVariant(env, ty, p.name)
    ensures UsedArms(env, ty, ps) == Used(env, ty, ps)
  {
    if ps != [] {
      assert ps[0] in ps && forall p :: p in ps[1..] ==> p in ps;
      UsedArmsAreUsed(env, ty, ps[1..]);
    }
  }

  lemma {:induction false} UncoveredUsed(env: Env, ty: Type, names: seq<string>, ps: seq<Pattern>)
    requires KnownEnv(env) && Inhabited(env) && Known(env, ty, []) && AllFitting(env, ty, ps)
    requires ty.Enum? ==> forall name :: name in names ==> Payload(env, ty, name).Some?
    ensures ty.Enum? || ty.Bool? ==> Uncovered(env, ty, names, ps) == Uncovered(env, ty, names, Used(env, ty, ps))
    decreases |names|
  {
    hide Payload, VariantCovered, Covers, Fits, KnownEnv, Inhabited;
    if names != [] {
      if ty.Enum? { VariantUsed(env, ty, names[0], ps, 0); }
      UncoveredUsed(env, ty, names[1..], ps);
    }
  }

  lemma RequiredHavePayload(env: Env, ty: Type)
    ensures ty.Enum? ==> forall name :: name in Required(env, ty) ==> Payload(env, ty, name).Some?
  {
    if ty.Enum? && ty.name in env {
      forall name | name in Required(env, ty) ensures Payload(env, ty, name).Some? {
        var i :| 0 <= i < |Required(env, ty)| && Required(env, ty)[i] == name;
        assert env[ty.name].variants[i].name == name;
      }
    }
  }

  lemma MissedBool(env: Env, ps: seq<Pattern>, b: bool)
    requires AllFitting(env, Bool, ps) && Literal(BoolValue(b)) !in ps && forall p :: p in ps ==> !TakesAll(env, Bool, p)
    ensures !Exhaustive(env, Bool, ps)
  {
    assert HasType(env, BoolValue(b), Bool);
    forall p | p in ps ensures !Matches(env, p, BoolValue(b), Bool) { assert Fits(env, p, Bool) && !TakesAll(env, Bool, p); }
  }

  lemma NothingUncoveredExactly(env: Env, ty: Type, ps: seq<Pattern>)
    requires KnownEnv(env) && Inhabited(env) && Known(env, ty, []) && (ty.Bool? || ty.Enum?)
    requires AllFitting(env, ty, ps) && AllUsable(env, ty, ps) && forall p :: p in ps ==> !TakesAll(env, ty, p)
    ensures Uncovered(env, ty, Required(env, ty), ps) == [] <==> Exhaustive(env, ty, ps)
  {
    if Uncovered(env, ty, Required(env, ty), ps) == [] {
      AcceptedIsExhaustive(env, ty, ps);
    } else {
      hide Payload, VariantCovered, HasType, Matches, Covers, Fits, Usable, CatchAll, KnownEnv;
      var name := SomeUndone(env, ty, Required(env, ty), ps);
      if ty.Bool? {
        MissedBool(env, ps, name == "true");
      } else {
        RequiredHavePayload(env, ty);
        forall p | p in ps && p.Identifier? ensures NamesVariant(env, ty, p.name) { assert !TakesAll(env, ty, p); }
        assert Underscore !in ps by { assert TakesAll(env, ty, Underscore); }
        var v := MissedVariant(env, ty, ps, name);
      }
    }
  }

  lemma RecordExactly(env: Env, ty: Type, ps: seq<Pattern>)
    requires Inhabited(env) && Known(env, ty, []) && ty.Record? && AllFitting(env, ty, ps)
    ensures Accepted(env, ty, ps) <==> Exhaustive(env, ty, UsedArms(env, ty, ps))
  {
    var used := UsedArms(env, ty, ps);
    forall p | p in ps ensures p in used <==> RecordTakesAll(env, p) { assert Fits(env, p, ty); }
    if Accepted(env, ty, ps) {
      forall v | HasType(env, v, ty) ensures AnyMatches(env, used, v, ty) { RecordIsSound(env, ty, used, v); }
    } else {
      var v :| HasType(env, v, ty);
      assert !AnyMatches(env, used, v, ty);
    }
  }

  /** The check on a closed type accepts exactly when the arms it can make use of are
      exhaustive; so where it can use them all, exactly when they are. */
  lemma CheckIsExact(env: Env, ty: Type, ps: seq<Pattern>)
    requires KnownEnv(env) && Inhabited(env) && Known(env, ty, []) && Closed(env, ty) && AllFitting(env, ty, ps)
    ensures Accepted(env, ty, ps) <==> Exhaustive(env, ty, UsedArms(env, ty, ps))
    ensures (forall p :: p in ps ==> p.Identifier? || Usable(env, p, ty)) ==> (Accepted(env, ty, ps) <==> Exhaustive(env, ty, ps))
  {
    var used := UsedArms(env, ty, ps);
    if ty.Record? {
      RecordExactly(env, ty, ps);
    } else if p :| p in ps && TakesAll(env, ty, p) {
      assert p in used;
      forall v | HasType(env, v, ty) ensures AnyMatches(env, used, v, ty) { assert Matches(env, p, v, ty); }
    } else {
      forall p | p in ps && p.Identifier? ensures NamesVariant(env, ty, p.name) { assert !TakesAll(env, ty, p); }
      UsedArmsAreUsed(env, ty, ps);
      RequiredHavePayload(env, ty);
      UncoveredUsed(env, ty, Required(env, ty), ps);
      NothingUncoveredExactly(env, ty, used);
    }
    if forall p :: p in ps ==> p.Identifier? || Usable(env, p, ty) {
      forall v | HasType(env, v, ty) ensures AnyMatches(env, ps, v, ty) <==> AnyMatches(env, used, v, ty) { SameArms(env, ps, used, v, ty); }
    }
  }

  // ----- what it reports -----

  /** What the check says is missing from a `when` over a bool or an enum. */
  ghost function Missing(env: Env, ty: Type, ps: seq<Pattern>): seq<string> {
    if exists p :: p in ps && TakesAll(env, ty, p) then [] else Uncovered(env, ty, Required(env, ty), ps)
  }

  /** Every name asked for is reported as often as it stands among them, or not at all, and in
      their order. */
  lemma {:induction false} UncoveredIs(env: Env, ty: Type, names: seq<string>, ps: seq<Pattern>, name: string)
    ensures multiset(Uncovered(env, ty, names, ps))[name] == if Done(env, ty, name, ps) then 0 else multiset(names)[name]
    decreases |names|
  {
    hide Done;
    if names != [] {
      UncoveredIs(env, ty, names[1..], ps, name);
      assert names == [names[0]] + names[1..];
      if Done(env, ty, names[0], ps) { assert [] + Uncovered(env, ty, names[1..], ps) == Uncovered(env, ty, names[1..], ps); }
    }
  }

  lemma {:induction false} UncoveredInOrder(env: Env, ty: Type, names: seq<string>, more: seq<string>, ps: seq<Pattern>)
    ensures Uncovered(env, ty, names + more, ps) == Uncovered(env, ty, names, ps) + Uncovered(env, ty, more, ps)
    decreases |names|
  {
    hide Done, Uncovered;
    if names == [] {
      assert names + more == more;
      NoneUncovered(env, ty, names, ps);
    } else {
      UncoveredInOrder(env, ty, names[1..], more, ps);
      assert (names + more)[0] == names[0] && (names + more)[1..] == names[1..] + more;
      UncoveredFirst(env, ty, names, ps);
      UncoveredFirst(env, ty, names + more, ps);
    }
  }

  lemma UncoveredFirst(env: Env, ty: Type, names: seq<string>, ps: seq<Pattern>)
    requires names != []
    ensures Uncovered(env, ty, names, ps) == (if Done(env, ty, names[0], ps) then [] else [names[0]]) + Uncovered(env, ty, names[1..], ps)
  {
    hide Done;
  }

  /** `v` is the value, or one of the values, that a name stands for. */
  predicate Named(v: Value, name: string) {
    (v.VariantValue? && v.variant == name) || (v.BoolValue? && (name == "true" || name == "false") && v.b == (name == "true"))
  }

  /** A name is reported exactly if some value it stands for is matched by none of the arms the
      check can make use of. */
  lemma MissingExactly(env: Env, ty: Type, ps: seq<Pattern>, name: string)
    requires KnownEnv(env) && Inhabited(env) && Known(env, ty, []) && Closed(env, ty) && !ty.Record? && AllFitting(env, ty, ps)
    requires name in Required(env, ty)
    ensures name in Missing(env, ty, ps) <==> exists v :: HasType(env, v, ty) && Named(v, name) && !AnyMatches(env, UsedArms(env, ty, ps), v, ty)
  {
    hide Payload, VariantCovered, HasType, Matches, Covers, Fits, Usable, CatchAll, KnownEnv, Inhabited, Uncovered, Known;
    var used := UsedArms(env, ty, ps);
    if p :| p in ps && TakesAll(env, ty, p) {
      assert p in used by { assert p.Underscore? ==> Usable(env, p, ty) by { UnderscoreUsable(env, ty); } }
      forall v | HasType(env, v, ty) ensures AnyMatches(env, used, v, ty) { TakenAll(env, ty, used, p, v); }
    } else {
      forall p | p in ps && p.Identifier? ensures NamesVariant(env, ty, p.name) { assert !TakesAll(env, ty, p); }
      UsedArmsAreUsed(env, ty, ps);
      RequiredHavePayload(env, ty);
      UncoveredUsed(env, ty, Required(env, ty), ps);
      UncoveredIs(env, ty, Required(env, ty), used, name);
      if Done(env, ty, name, used) {
        forall v | HasType(env, v, ty) && Named(v, name) ensures AnyMatches(env, used, v, ty) { DoneMatches(env, ty, used, name, v); }
      } else {
        forall p | p in used ensures p in ps && Usable(env, p, ty) {}
        var v := UndoneValue(env, ty, used, name);
      }
    }
  }

  lemma UnderscoreUsable(env: Env, ty: Type)
    ensures Usable(env, Underscore, ty)
  {
  }

  lemma TakenAll(env: Env, ty: Type, ps: seq<Pattern>, p: Pattern, v: Value)
    requires p in ps && TakesAll(env, ty, p)
    ensures AnyMatches(env, ps, v, ty)
  {
    assert Matches(env, p, v, ty);
  }

  lemma DoneMatches(env: Env, ty: Type, ps: seq<Pattern>, name: string, v: Value)
    requires AllFitting(env, ty, ps) && (ty.Bool? || ty.Enum?) && HasType(env, v, ty) && Named(v, name) && Done(env, ty, name, ps)
    ensures AnyMatches(env, ps, v, ty)
  {
    if ty.Enum? {
      VariantIsSound(env, ty, ps, v);
    } else {
      assert Matches(env, Literal(v), v, ty);
    }
  }

  lemma UndoneValue(env: Env, ty: Type, ps: seq<Pattern>, name: string) returns (v: Value)
    requires KnownEnv(env) && Inhabited(env) && Known(env, ty, []) && Closed(env, ty) && !ty.Record?
    requires AllFitting(env, ty, ps) && AllUsable(env, ty, ps) && forall p :: p in ps ==> !TakesAll(env, ty, p)
    requires name in Required(env, ty) && !Done(env, ty, name, ps)
    ensures HasType(env, v, ty) && Named(v, name) && !AnyMatches(env, ps, v, ty)
  {
    if ty.Enum? {
      hide VariantCovered, Covers, Fits, Usable, CatchAll, KnownEnv, Inhabited, Payload, Matches, HasType;
      RequiredHavePayload(env, ty);
      forall p | p in ps && p.Identifier? ensures NamesVariant(env, ty, p.name) { assert !TakesAll(env, ty, p); }
      assert Underscore !in ps by { assert TakesAll(env, ty, Underscore); }
      v := MissedVariant(env, ty, ps, name);
    } else {
      v := BoolValue(name == "true");
      forall p | p in ps ensures !Matches(env, p, v, Bool) { assert Fits(env, p, Bool) && !TakesAll(env, Bool, p); }
    }
  }

  lemma SameArms(env: Env, ps: seq<Pattern>, qs: seq<Pattern>, v: Value, ty: Type)
    requires forall p :: p in ps <==> p in qs
    ensures AnyMatches(env, ps, v, ty) <==> AnyMatches(env, qs, v, ty)
  {
    hide Matches;
  }

  /** Two payloads are not taken apart: four arms that cover a pair of bools are refused. */
  lemma {:induction false} ProductsAreNotDecomposed(env: Env)
    requires env == map["pair" := EnumDef([], [Variant("both", [Bool, Bool])])]
    ensures var t, f := Literal(BoolValue(true)), Literal(BoolValue(false));
            var ps := [Constructor("both", [t, t]), Constructor("both", [t, f]), Constructor("both", [f, t]), Constructor("both", [f, f])];
            Exhaustive(env, Enum("pair", []), ps) && !Accepted(env, Enum("pair", []), ps)
  {
    var t, f := Literal(BoolValue(true)), Literal(BoolValue(false));
    var ps := [Constructor("both", [t, t]), Constructor("both", [t, f]), Constructor("both", [f, t]), Constructor("both", [f, f])];
    var ty := Enum("pair", []);
    PairPayload(env, ty);
    forall v: Value | HasType(env, v, ty) ensures AnyMatches(env, ps, v, ty) {
      PairOnly(env, ty, v);
      var p := Constructor("both", [Literal(v.payload[0]), Literal(v.payload[1])]);
      assert p in ps && Matches(env, p, v, ty);
    }
    forall a: seq<Pattern> | a in Arms(env, "pair", "both", 2, ps) ensures !AllCatchAll(env, a) {
      var p := ArmFrom(env, "pair", "both", 2, ps, a);
      assert a[0] in a && !CatchAll(env, a[0]);
    }
    assert Required(env, ty) == ["both"];
    assert !Done(env, ty, "both", ps);
  }

  lemma {:induction false} PairOnly(env: Env, ty: Type, v: Value)
    requires env == map["pair" := EnumDef([], [Variant("both", [Bool, Bool])])] && ty == Enum("pair", []) && HasType(env, v, ty)
    ensures v.variant == "both" && |v.payload| == 2 && v.payload[0].BoolValue? && v.payload[1].BoolValue?
  {
    FindIn(env["pair"].variants, v.variant);
    PairPayload(env, ty);
    assert HaveTypes(env, v.payload, [Bool, Bool]);
    assert HasType(env, v.payload[0], [Bool, Bool][0]) && HasType(env, v.payload[1], [Bool, Bool][1]);
  }

  lemma {:induction false} PairPayload(env: Env, ty: Type)
    requires env == map["pair" := EnumDef([], [Variant("both", [Bool, Bool])])] && ty == Enum("pair", [])
    ensures Payload(env, ty, "both") == Some([Bool, Bool])
    ensures Required(env, ty) == ["both"]
  {
    assert Find(env["pair"].variants, "both") == Some([Bool, Bool]);
    assert InstAll(map[], [Bool, Bool]) == [Bool, Bool] by {
      assert [Bool, Bool][1..] == [Bool] && [Bool][1..] == [];
    }
    assert Payload(env, ty, "both") == Some(InstAll(map[], [Bool, Bool]));
  }
}
