/** The row-free types of the analyzer, one-pass substitution, and the view of a
    compound type as a head with a sequence of children. */
module Types {

  datatype Type =
    | Unknown
    | Var(id: nat)
    | Bool
    | Int
    | Float
    | Instant
    | Duration
    | String
    | Bytes
    | Nothing
    | Tuple(elements: seq<Type>)
    | Fun(params: seq<Type>, ret: Type)
    | Enum(name: string, args: seq<Type>)
    | List(elem: Type)
    | Dict(key: Type, value: Type)
    | Ref(inner: Type)

  /** A finite map from type variables to types; other variables stand for themselves. */
  type Bindings = map<nat, Type>

  /** One pass of a substitution: a variable is looked up once, not chased. */
  function Apply(s: Bindings, t: Type): Type
    decreases t
  {
    match t
    case Var(n) => if n in s then s[n] else t
    case Tuple(es) => Tuple(ApplyAll(s, es))
    case Fun(ps, r) => Fun(ApplyAll(s, ps), Apply(s, r))
    case Enum(name, es) => Enum(name, ApplyAll(s, es))
    case List(e) => List(Apply(s, e))
    case Dict(k, v) => Dict(Apply(s, k), Apply(s, v))
    case Ref(e) => Ref(Apply(s, e))
    case _ => t
  }

  function ApplyAll(s: Bindings, ts: seq<Type>): (r: seq<Type>)
    ensures |r| == |ts|
    ensures forall i :: 0 <= i < |ts| ==> r[i] == Apply(s, ts[i])
    decreases ts
  {
    if ts == [] then [] else [Apply(s, ts[0])] + ApplyAll(s, ts[1..])
  }

  // ----- heads and children -----

  /** The immediate children of a type, in the order the solver visits them. */
  function Kids(t: Type): seq<Type> {
    match t
    case Tuple(es) => es
    case Fun(ps, r) => ps + [r]
    case Enum(_, es) => es
    case List(e) => [e]
    case Dict(k, v) => [k, v]
    case Ref(e) => [e]
    case _ => []
  }

  /** Same constructor, same enum name, same number of children. */
  ghost predicate SameHead(t: Type, u: Type) {
    && |Kids(t)| == |Kids(u)|
    && match t
       case Var(n) => t == u
       case Tuple(_) => u.Tuple?
       case Fun(_, _) => u.Fun?
       case Enum(n, _) => u.Enum? && u.name == n
       case List(_) => u.List?
       case Dict(_, _) => u.Dict?
       case Ref(_) => u.Ref?
       case _ => t == u
  }

  lemma KidSmaller(t: Type, k: Type)
    requires k in Kids(t)
    ensures k < t
  {
    match t
    case Fun(ps, r) => assert k in ps || k == r;
    case _ =>
  }

  lemma HeadAndKids(t: Type, u: Type)
    requires SameHead(t, u) && Kids(t) == Kids(u)
    ensures t == u
  {
    match t
    case Fun(ps, r) =>
      assert ps == Kids(t)[..|Kids(t)| - 1] && u.params == Kids(u)[..|Kids(u)| - 1];
      assert r == Kids(t)[|ps|] && u.ret == Kids(u)[|u.params|];
    case List(e) => assert e == Kids(t)[0] && u.elem == Kids(u)[0];
    case Ref(e) => assert e == Kids(t)[0] && u.inner == Kids(u)[0];
    case Dict(k, v) => assert k == Kids(t)[0] && u.key == Kids(u)[0] && v == Kids(t)[1] && u.value == Kids(u)[1];
    case _ =>
  }

  /** A substitution keeps the head of a compound type and acts on its children. */
  lemma ApplyKids(s: Bindings, t: Type)
    requires !t.Var?
    ensures SameHead(Apply(s, t), t) && Kids(Apply(s, t)) == ApplyAll(s, Kids(t))
  {
    match t
    case Fun(ps, r) => assert ApplyAll(s, ps + [r]) == ApplyAll(s, ps) + [Apply(s, r)];
    case _ =>
  }

  // ----- size and variables -----

  ghost function Size(t: Type): nat
    ensures Size(t) >= 1
    decreases t, 1
  {
    match t
    case Tuple(es) => 1 + SizeAll(es)
    case Fun(ps, r) => 1 + SizeAll(ps) + Size(r)
    case Enum(_, es) => 1 + SizeAll(es)
    case List(e) => 1 + Size(e)
    case Dict(k, v) => 1 + Size(k) + Size(v)
    case Ref(e) => 1 + Size(e)
    case _ => 1
  }

  ghost function SizeAll(ts: seq<Type>): nat
    decreases ts, 0
  {
    if ts == [] then 0 else Size(ts[0]) + SizeAll(ts[1..])
  }

  lemma SizeAllConcat(ts: seq<Type>, us: seq<Type>)
    ensures SizeAll(ts + us) == SizeAll(ts) + SizeAll(us)
  {
    if ts == [] {
      assert ts + us == us;
    } else {
      assert (ts + us)[1..] == ts[1..] + us;
      SizeAllConcat(ts[1..], us);
    }
  }

  lemma SizeAllMember(ts: seq<Type>, i: nat)
    requires i < |ts|
    ensures Size(ts[i]) <= SizeAll(ts)
  {
    if i > 0 { SizeAllMember(ts[1..], i - 1); }
  }

  lemma SizeIsKids(t: Type)
    ensures Size(t) == 1 + SizeAll(Kids(t))
  {
    match t
    case Fun(ps, r) => SizeAllConcat(ps, [r]); assert SizeAll([r]) == Size(r);
    case List(e) => assert SizeAll([e]) == Size(e);
    case Ref(e) => assert SizeAll([e]) == Size(e);
    case Dict(k, v) => assert [k, v][1..] == [v]; assert SizeAll([v]) == Size(v);
    case _ =>
  }

  ghost function Vars(t: Type): set<nat>
    decreases t, 1
  {
    match t
    case Var(n) => {n}
    case Tuple(es) => VarsAll(es)
    case Fun(ps, r) => VarsAll(ps) + Vars(r)
    case Enum(_, es) => VarsAll(es)
    case List(e) => Vars(e)
    case Dict(k, v) => Vars(k) + Vars(v)
    case Ref(e) => Vars(e)
    case _ => {}
  }

  ghost function VarsAll(ts: seq<Type>): (r: set<nat>)
    ensures forall v :: v in r <==> exists i :: 0 <= i < |ts| && v in Vars(ts[i])
    decreases ts, 0
  {
    if ts == [] then {} else
      assert forall i :: 0 < i < |ts| ==> ts[i] == ts[1..][i - 1];
      Vars(ts[0]) + VarsAll(ts[1..])
  }

  /** A compound type's variables are exactly those of its children. */
  lemma VarsOfKids(t: Type)
    requires !t.Var?
    ensures Vars(t) == VarsAll(Kids(t))
  {
    match t
    case Fun(ps, r) =>
      forall i | 0 <= i < |ps| ensures Kids(t)[i] == ps[i] {}
      assert Kids(t)[|ps|] == r;
    case List(e) => assert Kids(t)[0] == e;
    case Ref(e) => assert Kids(t)[0] == e;
    case Dict(k, v) => assert Kids(t)[0] == k && Kids(t)[1] == v;
    case _ =>
  }

  lemma VarsOfKid(t: Type, k: Type)
    requires k in Kids(t)
    ensures Vars(k) <= Vars(t)
  {
    VarsOfKids(t);
  }

  // ----- substitution laws -----

  /** Two substitutions that agree on a type's variables agree on the type. */
  lemma {:induction false} ApplyAgree(s: Bindings, s': Bindings, t: Type)
    requires forall v :: v in Vars(t) ==> Apply(s, Var(v)) == Apply(s', Var(v))
    ensures Apply(s, t) == Apply(s', t)
    decreases t
  {
    if t.Var? {
      assert t.id in Vars(t);
    } else {
      ApplyKids(s, t);
      ApplyKids(s', t);
      forall i | 0 <= i < |Kids(t)| ensures Apply(s, Kids(t)[i]) == Apply(s', Kids(t)[i]) {
        KidSmaller(t, Kids(t)[i]);
        VarsOfKid(t, Kids(t)[i]);
        ApplyAgree(s, s', Kids(t)[i]);
      }
      HeadAndKids(Apply(s, t), Apply(s', t));
    }
  }

  lemma {:induction false} ApplyIdentity(t: Type)
    ensures Apply(map[], t) == t
    decreases t
  {
    if !t.Var? {
      ApplyKids(map[], t);
      forall i | 0 <= i < |Kids(t)| ensures Apply(map[], Kids(t)[i]) == Kids(t)[i] {
        KidSmaller(t, Kids(t)[i]);
        ApplyIdentity(Kids(t)[i]);
      }
      HeadAndKids(Apply(map[], t), t);
    }
  }

  /** A substitution that binds none of a type's variables leaves it alone. */
  lemma ApplyFixed(s: Bindings, t: Type)
    requires Vars(t) !! s.Keys
    ensures Apply(s, t) == t
  {
    ApplyAgree(s, map[], t);
    ApplyIdentity(t);
  }

  /** The variables of a substituted type come from the images of its variables. */
  lemma {:induction false} VarsOfApply(s: Bindings, t: Type, within: set<nat>)
    requires forall w :: w in Vars(t) ==> Vars(Apply(s, Var(w))) <= within
    ensures Vars(Apply(s, t)) <= within
    decreases t
  {
    if t.Var? {
      assert t.id in Vars(t);
    } else {
      ApplyKids(s, t);
      VarsOfKids(Apply(s, t));
      forall i | 0 <= i < |Kids(t)| ensures Vars(Kids(Apply(s, t))[i]) <= within {
        KidSmaller(t, Kids(t)[i]);
        VarsOfKid(t, Kids(t)[i]);
        VarsOfApply(s, Kids(t)[i], within);
      }
    }
  }

  /** If two substitutions agree pointwise through `f`, they agree on every type:
      `s2` is `s1` followed by `f`. */
  lemma {:induction false} ApplyCompose(s1: Bindings, f: Bindings, s2: Bindings, t: Type)
    requires forall v :: v in Vars(t) ==> Apply(s2, Var(v)) == Apply(f, Apply(s1, Var(v)))
    ensures Apply(s2, t) == Apply(f, Apply(s1, t))
    decreases t
  {
    if t.Var? {
      assert t.id in Vars(t);
    } else {
      ApplyKids(s1, t);
      ApplyKids(s2, t);
      ApplyKids(f, Apply(s1, t));
      forall i | 0 <= i < |Kids(t)|
        ensures Apply(s2, Kids(t)[i]) == Apply(f, Apply(s1, Kids(t)[i]))
      {
        KidSmaller(t, Kids(t)[i]);
        VarsOfKid(t, Kids(t)[i]);
        ApplyCompose(s1, f, s2, Kids(t)[i]);
      }
      HeadAndKids(Apply(s2, t), Apply(f, Apply(s1, t)));
    }
  }

  /** A child of a compound type stays strictly smaller under any substitution. */
  lemma ApplyKidSmaller(s: Bindings, t: Type, k: Type)
    requires k in Kids(t)
    ensures Size(Apply(s, k)) < Size(Apply(s, t))
  {
    ApplyKids(s, t);
    var i :| 0 <= i < |Kids(t)| && Kids(t)[i] == k;
    SizeAllMember(Kids(Apply(s, t)), i);
    SizeIsKids(Apply(s, t));
  }

  /** A variable that occurs inside a compound type has a strictly smaller image. */
  lemma {:induction false} OccursSmaller(s: Bindings, t: Type, v: nat)
    requires v in Vars(t)
    ensures Size(Apply(s, Var(v))) <= Size(Apply(s, t))
    ensures !t.Var? ==> Size(Apply(s, Var(v))) < Size(Apply(s, t))
    decreases t
  {
    if !t.Var? {
      VarsOfKids(t);
      var i :| 0 <= i < |Kids(t)| && v in Vars(Kids(t)[i]);
      var k := Kids(t)[i];
      KidSmaller(t, k);
      OccursSmaller(s, k, v);
      ApplyKidSmaller(s, t, k);
    }
  }
}
