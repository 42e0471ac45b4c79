/** Exhaustiveness of `when`: which arms together match every value of the subject's type. */
module WhenCheck {
  import opened Wrappers

  // ----- types, values, patterns -----

  datatype FieldType = FieldType(name: string, ty: Type)

  /** The types a pattern can be checked against. `Opaque` is any type the check treats as
      open: numbers, strings, functions and the like. */
  datatype Type =
    | Bool
    | Enum(name: string, args: seq<Type>)
    | Record(fields: seq<FieldType>)
    | Tuple(items: seq<Type>)
    | List(elem: Type)
    | Var(id: nat)
    | Opaque(code: nat)

  datatype Variant = Variant(name: string, params: seq<Type>)

  /** `vars` are the type variables the payload types may mention. */
  datatype EnumDef = EnumDef(vars: seq<nat>, variants: seq<Variant>)

  type Env = map<string, EnumDef>

  datatype FieldValue = FieldValue(name: string, value: Value)

  datatype Value =
    | BoolValue(b: bool)
    | VariantValue(variant: string, payload: seq<Value>)
    | RecordValue(fields: seq<FieldValue>)
    | TupleValue(items: seq<Value>)
    | ListValue(elems: seq<Value>)
    | OpaqueValue(code: nat)

  datatype FieldPattern = FieldPattern(name: string, pattern: Pattern)

  datatype Pattern =
    | Underscore
    | Identifier(name: string)
    | Literal(value: Value)
    | Constructor(variant: string, args: seq<Pattern>)
    | TuplePattern(items: seq<Pattern>)
    | RecordPattern(fields: seq<FieldPattern>, rest: bool)
    | ListPattern(items: seq<Pattern>, rest: bool)
    | Interpolation

  // ----- lookups -----

  predicate BarePrelude(enum: string, variant: string) {
    (enum == "__prelude__.option" && (variant == "some" || variant == "none"))
    || (enum == "__prelude__.result" && (variant == "ok" || variant == "err"))
  }

  /** The payload types of the first variant of that name. */
  function Find(variants: seq<Variant>, name: string): (r: Option<seq<Type>>)
    ensures r.Some? <==> exists i :: 0 <= i < |variants| && variants[i].name == name
  {
    if variants == [] then None
    else if variants[0].name == name then Some(variants[0].params)
    else
      var r := Find(variants[1..], name);
      assert forall i :: 0 <= i < |variants| && variants[i].name == name ==> variants[1..][i - 1].name == name;
      r
  }

  function FindVariant(env: Env, enum: string, variant: string): Option<seq<Type>> {
    if enum in env then Find(env[enum].variants, variant) else None
  }

  function Inst(s: map<nat, Type>, t: Type): Type
    decreases t
  {
    match t
    case Var(n) => if n in s then s[n] else t
    case Enum(name, args) => Enum(name, InstAll(s, args))
    case Record(fields) => Record(InstFields(s, fields))
    case Tuple(items) => Tuple(InstAll(s, items))
    case List(e) => List(Inst(s, e))
    case _ => t
  }

  function InstAll(s: map<nat, Type>, ts: seq<Type>): (r: seq<Type>)
    ensures |r| == |ts| && forall i :: 0 <= i < |ts| ==> r[i] == Inst(s, ts[i])
    decreases ts
  {
    if ts == [] then [] else [Inst(s, ts[0])] + InstAll(s, ts[1..])
  }

  function InstFields(s: map<nat, Type>, fs: seq<FieldType>): seq<FieldType>
    decreases fs
  {
    if fs == [] then [] else [FieldType(fs[0].name, Inst(s, fs[0].ty))] + InstFields(s, fs[1..])
  }

  /** The enum's variables bound to the subject's arguments, pairwise while both last. */
  function Bind(vars: seq<nat>, args: seq<Type>): map<nat, Type> {
    if vars == [] || args == [] then map[] else Bind(vars[1..], args[1..]) + map[vars[0] := args[0]]
  }

  /** The payload types of a variant at the subject's type. */
  function Payload(env: Env, ty: Type, variant: string): Option<seq<Type>> {
    if !ty.Enum? then None else
      match FindVariant(env, ty.name, variant)
      case None => None
      case Some(params) => Some(InstAll(Bind(env[ty.name].vars, ty.args), params))
  }

  // ----- what patterns mean -----

  /** An identifier is a variant's name only when the subject's enum is a prelude enum
      that declares it bare and without payload; otherwise it binds. */
  predicate NamesVariant(env: Env, ty: Type, name: string) {
    ty.Enum? && BarePrelude(ty.name, name) && FindVariant(env, ty.name, name) == Some([])
  }

  ghost predicate Matches(env: Env, p: Pattern, v: Value, ty: Type)
    decreases p
  {
    match p
    case Underscore => true
    case Identifier(name) => NamesVariant(env, ty, name) ==> v.VariantValue? && v.variant == name
    case Literal(value) => v == value
    case Constructor(name, args) =>
      && v.VariantValue? && v.variant == name && Payload(env, ty, name).Some?
      && MatchesAll(env, args, v.payload, Payload(env, ty, name).value)
    case TuplePattern(items) => v.TupleValue? && ty.Tuple? && MatchesAll(env, items, v.items, ty.items)
    case RecordPattern(fields, _) =>
      && v.RecordValue? && ty.Record? && |v.fields| == |ty.fields|
      && forall i :: 0 <= i < |fields| ==> FieldMatches(env, fields[i], v.fields, ty.fields)
    case ListPattern(items, rest) =>
      && v.ListValue? && ty.List? && |items| <= |v.elems| && (rest || |items| == |v.elems|)
      && forall i :: 0 <= i < |items| ==> Matches(env, items[i], v.elems[i], ty.elem)
    case Interpolation => false
  }

  ghost predicate FieldMatches(env: Env, f: FieldPattern, vs: seq<FieldValue>, ts: seq<FieldType>)
    requires |vs| == |ts|
    decreases f
  {
    exists j :: 0 <= j < |vs| && vs[j].name == f.name && Matches(env, f.pattern, vs[j].value, ts[j].ty)
  }

  ghost predicate MatchesAll(env: Env, ps: seq<Pattern>, vs: seq<Value>, ts: seq<Type>)
    decreases ps
  {
    |ps| == |vs| == |ts| && forall i :: 0 <= i < |ps| ==> Matches(env, ps[i], vs[i], ts[i])
  }

  /** Some arm matches. */
  ghost predicate AnyMatches(env: Env, ps: seq<Pattern>, v: Value, ty: Type) {
    exists p :: p in ps && Matches(env, p, v, ty)
  }

  /** `v` is a value of `ty`; nothing is known of a variable's or an open type's values. */
  ghost predicate HasType(env: Env, v: Value, ty: Type)
    decreases v
  {
    match ty
    case Bool => v.BoolValue?
    case Enum(_, _) =>
      && v.VariantValue? && Payload(env, ty, v.variant).Some?
      && HaveTypes(env, v.payload, Payload(env, ty, v.variant).value)
    case Record(fields) =>
      && v.RecordValue? && |v.fields| == |fields|
      && forall i :: 0 <= i < |fields| ==> v.fields[i].name == fields[i].name && HasType(env, v.fields[i].value, fields[i].ty)
    case Tuple(items) => v.TupleValue? && HaveTypes(env, v.items, items)
    case List(e) => v.ListValue? && forall w :: w in v.elems ==> HasType(env, w, e)
    case _ => true
  }

  ghost predicate HaveTypes(env: Env, vs: seq<Value>, ts: seq<Type>)
    decreases vs
  {
    |vs| == |ts| && forall i :: 0 <= i < |vs| ==> HasType(env, vs[i], ts[i])
  }

  /** The pattern passed the analyzer's own checks against `ty`. */
  ghost predicate Fits(env: Env, p: Pattern, ty: Type)
    decreases p
  {
    match p
    case Underscore => true
    case Identifier(_) => true
    case Literal(value) => if value.BoolValue? then ty == Bool else ty.Opaque? && value.OpaqueValue?
    case Constructor(name, args) => Payload(env, ty, name).Some? && AllFit(env, args, Payload(env, ty, name).value)
    case TuplePattern(items) => ty.Tuple? && AllFit(env, items, ty.items)
    case RecordPattern(fields, rest) =>
      && ty.Record? && (rest || |fields| == |ty.fields|)
      && forall i :: 0 <= i < |fields| ==> FieldFits(env, fields[i], ty.fields)
    case ListPattern(items, _) => ty.List? && forall i :: 0 <= i < |items| ==> Fits(env, items[i], ty.elem)
    case Interpolation => ty.Opaque?
  }

  ghost predicate FieldFits(env: Env, f: FieldPattern, ts: seq<FieldType>)
    decreases f
  {
    && (exists j :: 0 <= j < |ts| && ts[j].name == f.name)
    && (forall j :: 0 <= j < |ts| && ts[j].name == f.name ==> Fits(env, f.pattern, ts[j].ty))
  }

  ghost predicate AllFit(env: Env, ps: seq<Pattern>, ts: seq<Type>)
    decreases ps
  {
    |ps| == |ts| && forall i :: 0 <= i < |ps| ==> Fits(env, ps[i], ts[i])
  }

  // ----- the check -----

  /** Does any prelude enum declare this bare name without payload? */
  predicate NamesSomeVariant(env: Env, name: string) {
    exists enum :: enum in env && BarePrelude(enum, name) && Variant(name, []) in env[enum].variants
  }

  predicate CatchAll(env: Env, p: Pattern)
    decreases p
  {
    match p
    case Underscore => true
    case Identifier(name) => !NamesSomeVariant(env, name)
    case TuplePattern(items) => forall q :: q in items ==> CatchAll(env, q)
    case RecordPattern(fields, _) => forall f :: f in fields ==> CatchAll(env, f.pattern)
    case ListPattern(items, rest) => items == [] && rest
    case _ => false
  }

  predicate AnyCatchAll(env: Env, ps: seq<Pattern>) { exists p :: p in ps && CatchAll(env, p) }

  predicate AllCatchAll(env: Env, ps: seq<Pattern>) { forall p :: p in ps ==> CatchAll(env, p) }

  ghost function Weight(ps: seq<Pattern>): nat
    decreases ps
  {
    if ps == [] then 0 else PatternWeight(ps[0]) + Weight(ps[1..])
  }

  ghost function PatternWeight(p: Pattern): (n: nat)
    ensures n >= 1
    decreases p
  {
    match p
    case Constructor(_, args) => 1 + Weight(args)
    case _ => 1
  }

  /** The argument lists of the arms headed by a variant. */
  function Arms(env: Env, enum: string, variant: string, arity: nat, ps: seq<Pattern>): seq<seq<Pattern>> {
    if ps == [] then []
    else
      var rest := Arms(env, enum, variant, arity, ps[1..]);
      match ps[0]
      case Constructor(name, args) => if name == variant then [args] + rest else rest
      case Identifier(name) => if arity == 0 && name == variant && BarePrelude(enum, name) then [[]] + rest else rest
      case _ => rest
  }

  function Firsts(arms: seq<seq<Pattern>>): seq<Pattern> {
    if arms == [] then [] else (if arms[0] == [] then [] else [arms[0][0]]) + Firsts(arms[1..])
  }

  lemma {:induction false} ArmsAreLighter(env: Env, enum: string, variant: string, arity: nat, ps: seq<Pattern>)
    ensures var subs := Firsts(Arms(env, enum, variant, arity, ps));
            Weight(subs) <= Weight(ps) && (subs != [] ==> Weight(subs) < Weight(ps))
  {
    if ps != [] {
      ArmsAreLighter(env, enum, variant, arity, ps[1..]);
      var rest := Arms(env, enum, variant, arity, ps[1..]);
      match ps[0]
      case Constructor(name, args) =>
        if name == variant { FirstsMore(args, rest); }
      case Identifier(name) =>
        if arity == 0 && name == variant && BarePrelude(enum, name) { FirstsMore([], rest); }
      case _ =>
    }
  }

  lemma FirstsMore(args: seq<Pattern>, rest: seq<seq<Pattern>>)
    ensures Weight(Firsts([args] + rest)) <= Weight(args) + Weight(Firsts(rest))
  {
    assert ([args] + rest)[1..] == rest;
    if args != [] {
      assert ([args[0]] + Firsts(rest))[1..] == Firsts(rest);
    } else {
      assert [] + Firsts(rest) == Firsts(rest);
    }
  }

  /** Do the patterns cover every value of `ty`? */
  predicate Covers(env: Env, ty: Type, ps: seq<Pattern>)
    decreases Weight(ps), 2, 0
  {
    AnyCatchAll(env, ps) ||
    match ty
    case Bool => Literal(BoolValue(true)) in ps && Literal(BoolValue(false)) in ps
    case Enum(name, _) =>
      name in env && VariantsCovered(env, ty, env[name].variants, ps)
    case _ => false
  }

  predicate VariantsCovered(env: Env, ty: Type, variants: seq<Variant>, ps: seq<Pattern>)
    requires ty.Enum?
    decreases Weight(ps), 1, |variants|
  {
    variants == [] || (VariantCovered(env, ty, variants[0].name, ps) && VariantsCovered(env, ty, variants[1..], ps))
  }

  /** Do the arms headed by one variant cover its payload? */
  predicate VariantCovered(env: Env, ty: Type, variant: string, ps: seq<Pattern>)
    requires ty.Enum?
    decreases Weight(ps), 0, 0
  {
    match Payload(env, ty, variant)
    case None => false
    case Some(payload) =>
      var arms := Arms(env, ty.name, variant, |payload|, ps);
      if |payload| == 0 then arms != []
      else if |payload| == 1 then
        var subs := Firsts(arms);
        ArmsAreLighter(env, ty.name, variant, |payload|, ps);
        subs != [] && Covers(env, payload[0], subs)
      else exists a :: a in arms && AllCatchAll(env, a)
  }

  // ----- the whole `when` -----

  ghost predicate Exhaustive(env: Env, ty: Type, ps: seq<Pattern>) {
    forall v :: HasType(env, v, ty) ==> AnyMatches(env, ps, v, ty)
  }

  /** An arm that binds or ignores the whole subject. */
  predicate TakesAll(env: Env, ty: Type, p: Pattern) {
    p.Underscore? || (p.Identifier? && !NamesVariant(env, ty, p.name))
  }

  /** Is one of the values the check asks for, by name, covered by the arms? */
  predicate Done(env: Env, ty: Type, name: string, ps: seq<Pattern>) {
    if ty.Enum? then VariantCovered(env, ty, name, ps) else Literal(BoolValue(name == "true")) in ps
  }

  function Uncovered(env: Env, ty: Type, names: seq<string>, ps: seq<Pattern>): seq<string> {
    if names == [] then []
    else (if Done(env, ty, names[0], ps) then [] else [names[0]]) + Uncovered(env, ty, names[1..], ps)
  }

  function Names(variants: seq<Variant>): (r: seq<string>)
    ensures |r| == |variants| && forall i :: 0 <= i < |variants| ==> r[i] == variants[i].name
  {
    if variants == [] then [] else [variants[0].name] + Names(variants[1..])
  }

  /** What must be covered: nothing for a type whose values cannot be listed. */
  function Required(env: Env, ty: Type): seq<string> {
    match ty
    case Bool => ["true", "false"]
    case Enum(name, _) => if name in env then Names(env[name].variants) else []
    case _ => []
  }

  /** The arm pass: the names it has seen covered after the arms so far. */
  ghost predicate Seen(env: Env, ty: Type, ps: seq<Pattern>, covered: set<string>) {
    && (forall p :: p in ps ==> !TakesAll(env, ty, p))
    && (forall name :: name in covered ==> SeenBy(env, ty, ps, name))
    && (ty == Bool ==> (Literal(BoolValue(true)) in ps ==> "true" in covered) && (Literal(BoolValue(false)) in ps ==> "false" in covered))
  }

  ghost predicate SeenBy(env: Env, ty: Type, ps: seq<Pattern>, name: string) {
    || (Identifier(name) in ps && NamesVariant(env, ty, name))
    || (exists args :: Constructor(name, args) in ps && AllCatchAll(env, args))
    || (ty == Bool && name == "true" && Literal(BoolValue(true)) in ps)
    || (ty == Bool && name == "false" && Literal(BoolValue(false)) in ps)
  }

  /** An arm that on its own covers a record subject. */
  predicate RecordTakesAll(env: Env, p: Pattern) {
    match p
    case Underscore => true
    case Identifier(_) => true
    case RecordPattern(fields, _) => forall f :: f in fields ==> CatchAll(env, f.pattern)
    case _ => false
  }

  method CheckRecordExhaustive(env: Env, ps: seq<Pattern>) returns (missing: seq<string>)
    ensures missing == if exists p :: p in ps && RecordTakesAll(env, p) then [] else ["else"]
  {
    for i := 0 to |ps|
      invariant forall p :: p in ps[..i] ==> !RecordTakesAll(env, p)
    {
      if RecordTakesAll(env, ps[i]) { return []; }
    }
    assert ps[..|ps|] == ps;
    missing := ["else"];
  }

  predicate ListTakesAll(p: Pattern) { p.Underscore? || p.Identifier? || (p.ListPattern? && p.items == [] && p.rest) }

  /** An arm counted as covering every non-empty list. */
  predicate TakesNonEmpty(env: Env, p: Pattern) {
    p.ListPattern? && p.items != [] && p.rest && AllCatchAll(env, p.items)
  }

  predicate ListAccepted(env: Env, ps: seq<Pattern>) {
    || (exists p :: p in ps && ListTakesAll(p))
    || (ListPattern([], false) in ps && exists p :: p in ps && TakesNonEmpty(env, p))
  }

  method CheckListExhaustive(env: Env, ps: seq<Pattern>) returns (missing: seq<string>)
    ensures missing == if exists p :: p in ps && ListTakesAll(p) then []
                       else (if ListPattern([], false) in ps then [] else ["[]"])
                            + (if exists p :: p in ps && TakesNonEmpty(env, p) then [] else ["[_, ...]"])
    ensures missing == [] <==> ListAccepted(env, ps)
  {
    var coversEmpty, coversNonEmpty := false, false;
    for i := 0 to |ps|
      invariant forall p :: p in ps[..i] ==> !ListTakesAll(p)
      invariant coversEmpty <==> ListPattern([], false) in ps[..i]
      invariant coversNonEmpty <==> exists p :: p in ps[..i] && TakesNonEmpty(env, p)
    {
      assert ps[..i + 1] == ps[..i] + [ps[i]];
      if ListTakesAll(ps[i]) { return []; }
      if ps[i].ListPattern? {
        if ps[i].items == [] { coversEmpty := true; }
        else if ps[i].rest && AllCatchAll(env, ps[i].items) {
          coversNonEmpty := true;
          assert TakesNonEmpty(env, ps[i]);
        }
      }
    }
    assert ps[..|ps|] == ps;
    missing := [];
    if !coversEmpty { missing := missing + ["[]"]; }
    if !coversNonEmpty { missing := missing + ["[_, ...]"]; }
  }

  /** The check reports nothing. */
  predicate Accepted(env: Env, ty: Type, ps: seq<Pattern>) {
    match ty
    case Record(_) => exists p :: p in ps && RecordTakesAll(env, p)
    case List(_) => ListAccepted(env, ps)
    case _ => (exists p :: p in ps && TakesAll(env, ty, p)) || Uncovered(env, ty, Required(env, ty), ps) == []
  }

  method CheckWhenExhaustive(env: Env, ty: Type, ps: seq<Pattern>) returns (missing: seq<string>)
    requires forall p :: p in ps ==> Fits(env, p, ty)
    ensures missing == [] <==> Accepted(env, ty, ps)
    ensures ty.Bool? || ty.Enum? ==>
              missing == if exists p :: p in ps && TakesAll(env, ty, p) then [] else Uncovered(env, ty, Required(env, ty), ps)
  {
    if ty.List? {
      missing := CheckListExhaustive(env, ps);
      return;
    }
    if ty.Record? {
      missing := CheckRecordExhaustive(env, ps);
      return;
    }
    missing := CheckListed(env, ty, ps);
  }

  /** Subjects whose values are listed by name, and those for which nothing is required. */
  method CheckListed(env: Env, ty: Type, ps: seq<Pattern>) returns (missing: seq<string>)
    requires forall p :: p in ps ==> Fits(env, p, ty)
    ensures missing == if exists p :: p in ps && TakesAll(env, ty, p) then [] else Uncovered(env, ty, Required(env, ty), ps)
  {
    hide Fits, CatchAll, VariantCovered, Covers, Done, Seen, TakesAll, Uncovered, Payload;
    if ty.Enum? && ty.name !in env { NoneUncovered(env, ty, Required(env, ty), ps); return []; }
    var covered, all := CoveredByArms(env, ty, ps);
    missing := [];
    if all { return; }
    hide Required;
    var required := Required(env, ty);
    assert required[0..] == required;
    for i := 0 to |required|
      invariant missing + Uncovered(env, ty, required[i..], ps) == Uncovered(env, ty, required, ps)
    {
      var name := required[i];
      UncoveredStep(env, ty, required, i, ps, missing);
      DoneIs(env, ty, ps, covered, i);
      if name !in covered && !(ty.Enum? && VariantCovered(env, ty, name, ps)) {
        missing := missing + [name];
      }
    }
    NoneUncovered(env, ty, required[|required|..], ps);
  }

  lemma UncoveredStep(env: Env, ty: Type, names: seq<string>, i: nat, ps: seq<Pattern>, before: seq<string>)
    requires i < |names|
    ensures before + Uncovered(env, ty, names[i..], ps) ==
            before + (if Done(env, ty, names[i], ps) then [] else [names[i]]) + Uncovered(env, ty, names[i + 1..], ps)
  {
    hide Done;
    assert names[i..][0] == names[i] && names[i..][1..] == names[i + 1..];
  }

  lemma NoneUncovered(env: Env, ty: Type, names: seq<string>, ps: seq<Pattern>)
    requires names == []
    ensures Uncovered(env, ty, names, ps) == []
  {
  }

  /** The first pass over the arms: `all` when one of them takes the whole subject. */
  method CoveredByArms(env: Env, ty: Type, ps: seq<Pattern>) returns (covered: set<string>, all: bool)
    requires ty.Enum? ==> ty.name in env
    ensures all <==> exists p :: p in ps && TakesAll(env, ty, p)
    ensures !all ==> Seen(env, ty, ps, covered)
  {
    hide Fits, CatchAll, Covers;
    covered := {};
    for i := 0 to |ps|
      invariant Seen(env, ty, ps[..i], covered)
    {
      if TakesAll(env, ty, ps[i]) { return covered, true; }
      ghost var before := covered;
      match ps[i] {
        case Identifier(name) => covered := covered + {name};
        case Constructor(name, args) => if AllCatchAll(env, args) { covered := covered + {name}; }
        case Literal(value) =>
          if ty == Bool && value.BoolValue? { covered := covered + {if value.b then "true" else "false"}; }
        case _ =>
      }
      SeenMore(env, ty, ps, i, before, covered);
    }
    assert ps[..|ps|] == ps;
    all := false;
  }

  lemma SeenMore(env: Env, ty: Type, ps: seq<Pattern>, i: nat, before: set<string>, covered: set<string>)
    requires i < |ps| && Seen(env, ty, ps[..i], before) && !TakesAll(env, ty, ps[i])
    requires before <= covered
    requires match ps[i]
             case Identifier(name) => covered == before + {name}
             case Constructor(name, args) => covered == if AllCatchAll(env, args) then before + {name} else before
             case Literal(value) => covered == if ty == Bool && value.BoolValue? then before + {if value.b then "true" else "false"} else before
             case _ => covered == before
    ensures Seen(env, ty, ps[..i + 1], covered)
  {
    assert ps[..i + 1] == ps[..i] + [ps[i]];
    forall name | name in covered ensures SeenBy(env, ty, ps[..i + 1], name) {
      if name in before {
        assert SeenBy(env, ty, ps[..i], name);
      } else {
        assert ps[i] in ps[..i + 1];
      }
    }
  }

  lemma DoneIs(env: Env, ty: Type, ps: seq<Pattern>, covered: set<string>, i: nat)
    requires forall p :: p in ps ==> Fits(env, p, ty)
    requires Seen(env, ty, ps, covered) && i < |Required(env, ty)|
    ensures var name := Required(env, ty)[i];
            Done(env, ty, name, ps) <==> name in covered || (ty.Enum? && VariantCovered(env, ty, name, ps))
  {
    var name := Required(env, ty)[i];
    if name in covered { SeenIsDone(env, ty, ps, name, i); }
    if ty == Bool { BoolSeen(env, ty, ps, covered, i); }
  }

  lemma BoolSeen(env: Env, ty: Type, ps: seq<Pattern>, covered: set<string>, i: nat)
    requires Seen(env, ty, ps, covered) && i < |Required(env, ty)| && ty == Bool
    ensures Done(env, ty, Required(env, ty)[i], ps) ==> Required(env, ty)[i] in covered
  {
  }

  lemma SeenIsDone(env: Env, ty: Type, ps: seq<Pattern>, name: string, i: nat)
    requires forall p :: p in ps ==> Fits(env, p, ty)
    requires SeenBy(env, ty, ps, name) && i < |Required(env, ty)| && Required(env, ty)[i] == name
    ensures Done(env, ty, name, ps)
  {
    if ty.Enum? {
      if Identifier(name) in ps && NamesVariant(env, ty, name) {
        ArmOf(env, ty.name, name, 0, ps, Identifier(name));
        assert IsArm(ty.name, name, 0, Identifier(name), []);
      } else {
        var args :| Constructor(name, args) in ps && AllCatchAll(env, args);
        assert Fits(env, Constructor(name, args), ty);
        var payload := Payload(env, ty, name).value;
        ArmOf(env, ty.name, name, |payload|, ps, Constructor(name, args));
        assert IsArm(ty.name, name, |payload|, Constructor(name, args), args);
        if |payload| == 1 {
          FirstOf(Arms(env, ty.name, name, 1, ps), args);
          assert AnyCatchAll(env, Firsts(Arms(env, ty.name, name, 1, ps)));
        }
      }
    } else {
      assert forall args :: Constructor(name, args) in ps ==> Fits(env, Constructor(name, args), ty);
    }
  }

  // ----- where the gathered arms come from -----

  ghost predicate IsArm(enum: string, variant: string, arity: nat, p: Pattern, args: seq<Pattern>) {
    || p == Constructor(variant, args)
    || (arity == 0 && p == Identifier(variant) && BarePrelude(enum, variant) && args == [])
  }

  lemma {:induction false} ArmOf(env: Env, enum: string, variant: string, arity: nat, ps: seq<Pattern>, p: Pattern)
    requires p in ps
    ensures forall args :: IsArm(enum, variant, arity, p, args) ==> args in Arms(env, enum, variant, arity, ps)
  {
    if p != ps[0] { ArmOf(env, enum, variant, arity, ps[1..], p); }
  }

  lemma {:induction false} ArmFrom(env: Env, enum: string, variant: string, arity: nat, ps: seq<Pattern>, args: seq<Pattern>) returns (p: Pattern)
    requires args in Arms(env, enum, variant, arity, ps)
    ensures p in ps && IsArm(enum, variant, arity, p, args)
  {
    if IsArm(enum, variant, arity, ps[0], args) {
      p := ps[0];
    } else {
      p := ArmFrom(env, enum, variant, arity, ps[1..], args);
    }
  }

  lemma {:induction false} FirstOf(arms: seq<seq<Pattern>>, a: seq<Pattern>)
    requires a in arms && a != []
    ensures a[0] in Firsts(arms)
  {
    if a != arms[0] { FirstOf(arms[1..], a); }
  }

  lemma {:induction false} FirstFrom(arms: seq<seq<Pattern>>, q: Pattern) returns (a: seq<Pattern>)
    requires q in Firsts(arms)
    ensures a in arms && a != [] && a[0] == q
  {
    if arms[0] != [] && arms[0][0] == q {
      a := arms[0];
    } else {
      a := FirstFrom(arms[1..], q);
    }
  }

  // ----- soundness -----

  lemma {:induction false} FindIn(variants: seq<Variant>, name: string)
    requires Find(variants, name).Some?
    ensures Variant(name, Find(variants, name).value) in variants
  {
    if variants[0].name != name { FindIn(variants[1..], name); } else { assert variants[0] == Variant(name, variants[0].params); }
  }

  /** A catch-all pattern matches every value of any type it fits. */
  lemma {:induction false} CatchAllMatches(env: Env, p: Pattern, v: Value, ty: Type)
    requires CatchAll(env, p) && Fits(env, p, ty) && HasType(env, v, ty)
    ensures Matches(env, p, v, ty)
    decreases p
  {
    match p
    case Underscore =>
    case Identifier(name) =>
      if NamesVariant(env, ty, name) { FindIn(env[ty.name].variants, name); }
    case TuplePattern(items) => AllCatchAllMatch(env, items, v.items, ty.items);
    case RecordPattern(fields, _) =>
      forall i | 0 <= i < |fields| ensures FieldMatches(env, fields[i], v.fields, ty.fields) {
        var f := fields[i];
        assert f in fields && FieldFits(env, f, ty.fields);
        var j :| 0 <= j < |ty.fields| && ty.fields[j].name == f.name;
        CatchAllMatches(env, f.pattern, v.fields[j].value, ty.fields[j].ty);
      }
    case ListPattern(_, _) =>
  }

  lemma {:induction false} AllCatchAllMatch(env: Env, ps: seq<Pattern>, vs: seq<Value>, ts: seq<Type>)
    requires AllCatchAll(env, ps) && AllFit(env, ps, ts) && HaveTypes(env, vs, ts)
    ensures MatchesAll(env, ps, vs, ts)
    decreases ps
  {
    forall i | 0 <= i < |ps| ensures Matches(env, ps[i], vs[i], ts[i]) {
      assert ps[i] in ps;
      CatchAllMatches(env, ps[i], vs[i], ts[i]);
    }
  }

  lemma AnyCatchAllMatches(env: Env, ty: Type, ps: seq<Pattern>, v: Value)
    requires AnyCatchAll(env, ps) && HasType(env, v, ty)
    requires forall p :: p in ps ==> Fits(env, p, ty)
    ensures AnyMatches(env, ps, v, ty)
  {
    var p :| p in ps && CatchAll(env, p);
    CatchAllMatches(env, p, v, ty);
  }

  /** Patterns that cover a type match every one of its values, however deeply nested. */
  lemma {:induction false} CoversIsSound(env: Env, ty: Type, ps: seq<Pattern>, v: Value)
    requires Covers(env, ty, ps) && HasType(env, v, ty)
    requires forall p :: p in ps ==> Fits(env, p, ty)
    ensures AnyMatches(env, ps, v, ty)
    decreases Weight(ps), 1
  {
    if AnyCatchAll(env, ps) {
      AnyCatchAllMatches(env, ty, ps, v);
    } else if ty == Bool {
      assert Matches(env, Literal(v), v, ty);
    } else {
      EachCovered(env, ty, env[ty.name].variants, ps, v.variant);
      VariantIsSound(env, ty, ps, v);
    }
  }

  lemma {:induction false} EachCovered(env: Env, ty: Type, variants: seq<Variant>, ps: seq<Pattern>, name: string)
    requires ty.Enum? && VariantsCovered(env, ty, variants, ps) && Find(variants, name).Some?
    ensures VariantCovered(env, ty, name, ps)
  {
    if variants[0].name != name { EachCovered(env, ty, variants[1..], ps, name); }
  }

  lemma {:induction false} VariantIsSound(env: Env, ty: Type, ps: seq<Pattern>, v: Value)
    requires ty.Enum? && HasType(env, v, ty) && VariantCovered(env, ty, v.variant, ps)
    requires forall p :: p in ps ==> Fits(env, p, ty)
    ensures AnyMatches(env, ps, v, ty)
    decreases Weight(ps), 0
  {
    var payload := Payload(env, ty, v.variant).value;
    var arms := Arms(env, ty.name, v.variant, |payload|, ps);
    if |payload| == 0 {
      var p := ArmFrom(env, ty.name, v.variant, 0, ps, arms[0]);
      assert Fits(env, p, ty);
      assert MatchesAll(env, [], v.payload, payload);
      assert Matches(env, p, v, ty);
    } else if |payload| == 1 {
      var subs := Firsts(arms);
      ArmsAreLighter(env, ty.name, v.variant, 1, ps);
      forall q | q in subs ensures Fits(env, q, payload[0]) { var p := ArmWith(env, ty, ps, v.variant, q); }
      CoversIsSound(env, payload[0], subs, v.payload[0]);
      var q :| q in subs && Matches(env, q, v.payload[0], payload[0]);
      var p := ArmWith(env, ty, ps, v.variant, q);
      assert Matches(env, p, v, ty);
    } else {
      var a :| a in arms && AllCatchAll(env, a);
      var p := ArmFrom(env, ty.name, v.variant, |payload|, ps, a);
      assert Fits(env, p, ty);
      AllCatchAllMatch(env, a, v.payload, payload);
      assert Matches(env, p, v, ty);
    }
  }

  /** The arm a one-payload sub-pattern was taken from. */
  lemma ArmWith(env: Env, ty: Type, ps: seq<Pattern>, variant: string, q: Pattern) returns (p: Pattern)
    requires ty.Enum? && Payload(env, ty, variant).Some? && |Payload(env, ty, variant).value| == 1
    requires q in Firsts(Arms(env, ty.name, variant, 1, ps))
    requires forall p :: p in ps ==> Fits(env, p, ty)
    ensures p in ps && p == Constructor(variant, [q]) && Fits(env, q, Payload(env, ty, variant).value[0])
  {
    var a := FirstFrom(Arms(env, ty.name, variant, 1, ps), q);
    p := ArmFrom(env, ty.name, variant, 1, ps, a);
    assert p == Constructor(variant, a);
    assert Fits(env, p, ty);
    assert AllFit(env, a, Payload(env, ty, variant).value);
    assert a == [q];
  }
}
