/** The worklist solver for equality constraints over row-free types: a chained
    (triangular) substitution with lazy head resolution, normalised at the end. */
module Unifier {
  import opened Types
  import opened UnifierSpec

  // ----- what it means to solve a set of constraints -----

  ghost predicate Unifies(f: Bindings, cs: seq<Constraint>) {
    forall c :: c in cs ==> Apply(f, c.lhs) == Apply(f, c.rhs)
  }

  ghost predicate Unifiable(cs: seq<Constraint>) {
    exists f :: Unifies(f, cs)
  }

  ghost predicate Idempotent(s: Bindings) {
    forall t :: Apply(s, Apply(s, t)) == Apply(s, t)
  }

  /** Every unifier factors through `s`; applying `s` first loses nothing. */
  ghost predicate MostGeneral(s: Bindings, cs: seq<Constraint>) {
    forall f, t :: Unifies(f, cs) ==> Apply(f, Apply(s, t)) == Apply(f, t)
  }

  /** Every use of an enum has the declared number of type arguments. */
  ghost predicate Arities(t: Type, arity: map<string, nat>)
    decreases t
  {
    && (t.Enum? ==> t.name in arity && |t.args| == arity[t.name])
    && forall k :: k in Kids(t) ==> (KidSmaller(t, k); Arities(k, arity))
  }

  ghost predicate AritiesAll(cs: seq<Constraint>, arity: map<string, nat>) {
    forall c :: c in cs ==> Arities(c.lhs, arity) && Arities(c.rhs, arity)
  }

  ghost function ConstraintVars(cs: seq<Constraint>): set<nat> {
    if cs == [] then {} else Vars(cs[0].lhs) + Vars(cs[0].rhs) + ConstraintVars(cs[1..])
  }

  lemma ConstraintVarsCover(cs: seq<Constraint>)
    ensures Scoped(cs, ConstraintVars(cs))
  {
    if cs != [] { ConstraintVarsCover(cs[1..]); }
  }

  // ----- the chained bindings are acyclic -----

  /** `solved` is the form the chained `b` unfolds to. */
  ghost predicate Solves(b: Bindings, solved: Bindings) {
    && solved.Keys == b.Keys
    && forall k {:trigger SolvesAt(b, solved, k)} :: k in b ==> SolvesAt(b, solved, k)
  }

  ghost predicate SolvesAt(b: Bindings, solved: Bindings, k: nat)
    requires k in b && k in solved
  {
    solved[k] == Apply(solved, b[k])
  }

  /** The solved form mentions no bound variable. */
  ghost predicate Ground(b: Bindings, solved: Bindings) {
    && solved.Keys == b.Keys
    && forall k :: k in b ==> Vars(solved[k]) !! b.Keys
  }

  /** `stamp` orders the variables by the time they were bound; variable-to-variable
      chains only move forward in it. */
  ghost predicate Stamped(b: Bindings, stamp: map<nat, nat>) {
    && stamp.Keys == b.Keys
    && (forall k :: k in b ==> stamp[k] < |b|)
    && (forall k :: k in b && b[k].Var? && b[k].id in b ==> stamp[k] < stamp[b[k].id])
  }

  /** `solved` and `stamp` together witness that chasing `b` terminates. */
  ghost predicate Triangular(b: Bindings, solved: Bindings, stamp: map<nat, nat>) {
    Solves(b, solved) && Ground(b, solved) && Stamped(b, stamp)
  }

  /** How far a variable is from the end of its chain of variable bindings. */
  ghost function ChainLeft(b: Bindings, stamp: map<nat, nat>, t: Type): int
    requires stamp.Keys == b.Keys
  {
    if t.Var? && t.id in b then |b| - stamp[t.id] else 0
  }

  /** `f` makes every binding an equation that holds. */
  ghost predicate Respects(f: Bindings, b: Bindings) {
    forall k {:trigger RespectsAt(f, b, k)} :: k in b ==> RespectsAt(f, b, k)
  }

  ghost predicate RespectsAt(f: Bindings, b: Bindings, k: nat)
    requires k in b
  {
    Apply(f, Var(k)) == Apply(f, b[k])
  }

  // ----- reads of the chained bindings -----

  /** Follow variable bindings at the head of a type only. */
  method ResolveHead(b: Bindings, ty: Type, ghost solved: Bindings, ghost stamp: map<nat, nat>,
                     ghost scope: set<nat>, ghost arity: map<string, nat>)
    returns (cur: Type)
    requires Triangular(b, solved, stamp) && BindingsFit(b, scope, arity) && Within(ty, scope, arity)
    ensures cur.Var? ==> cur.id !in b
    ensures Apply(solved, cur) == Apply(solved, ty)
    ensures forall f :: Respects(f, b) ==> Apply(f, cur) == Apply(f, ty)
    ensures Within(cur, scope, arity)
  {
    cur := ty;
    while cur.Var? && cur.id in b
      invariant Apply(solved, cur) == Apply(solved, ty)
      invariant forall f :: Respects(f, b) ==> Apply(f, cur) == Apply(f, ty)
      invariant Within(cur, scope, arity)
      decreases ChainLeft(b, stamp, cur)
    {
      assert cur == Var(cur.id) && SolvesAt(b, solved, cur.id);
      assert forall f :: Respects(f, b) ==> RespectsAt(f, b, cur.id);
      cur := b[cur.id];
    }
  }

  /** Does `v` occur in `ty` once bound variables are chased? */
  predicate OccursIn(b: Bindings, v: nat, ty: Type, ghost solved: Bindings, ghost stamp: map<nat, nat>)
    requires Triangular(b, solved, stamp) && v !in b
    ensures OccursIn(b, v, ty, solved, stamp) <==> v in Vars(Apply(solved, ty))
    decreases Size(Apply(solved, ty)), 1 + ChainLeft(b, stamp, ty), 0
  {
    match ty
    case Var(n) => if n in b then assert SolvesAt(b, solved, n); OccursIn(b, v, b[n], solved, stamp) else n == v
    case Fun(ps, r) =>
      KidsShrink(solved, ty);
      assert Kids(ty)[|ps|] == r;
      assert forall i :: 0 <= i < |ps| ==> Kids(ty)[i] == ps[i];
      OccursInAny(b, v, ps, ty, solved, stamp) || OccursIn(b, v, r, solved, stamp)
    case List(e) => KidsShrink(solved, ty); assert Kids(ty)[0] == e; OccursIn(b, v, e, solved, stamp)
    case Ref(e) => KidsShrink(solved, ty); assert Kids(ty)[0] == e; OccursIn(b, v, e, solved, stamp)
    case Dict(k, e) =>
      KidsShrink(solved, ty);
      assert Kids(ty)[0] == k && Kids(ty)[1] == e;
      OccursIn(b, v, k, solved, stamp) || OccursIn(b, v, e, solved, stamp)
    case Tuple(es) => KidsShrink(solved, ty); OccursInAny(b, v, es, ty, solved, stamp)
    case Enum(_, es) => KidsShrink(solved, ty); OccursInAny(b, v, es, ty, solved, stamp)
    case _ => false
  }

  predicate OccursInAny(b: Bindings, v: nat, ts: seq<Type>, ghost parent: Type,
                        ghost solved: Bindings, ghost stamp: map<nat, nat>)
    requires Triangular(b, solved, stamp) && v !in b
    requires forall t :: t in ts ==> Size(Apply(solved, t)) < Size(Apply(solved, parent))
    ensures OccursInAny(b, v, ts, parent, solved, stamp) <==> v in VarsAll(ApplyAll(solved, ts))
    decreases Size(Apply(solved, parent)), 0, |ts|
  {
    if ts == [] then false else
      OccursIn(b, v, ts[0], solved, stamp) || OccursInAny(b, v, ts[1..], parent, solved, stamp)
  }

  lemma KidsShrink(s: Bindings, t: Type)
    ensures forall k :: k in Kids(t) ==> Size(Apply(s, k)) < Size(Apply(s, t))
  {
    forall k | k in Kids(t) ensures Size(Apply(s, k)) < Size(Apply(s, t)) { ApplyKidSmaller(s, t, k); }
  }

  /** Chase every variable through the chained bindings. The contract says that this
      equals one pass of the normalised substitution. */
  function DeepResolve(b: Bindings, ty: Type, ghost solved: Bindings, ghost stamp: map<nat, nat>): (r: Type)
    requires Triangular(b, solved, stamp)
    ensures r == Apply(solved, ty)
    decreases Size(Apply(solved, ty)), 1 + ChainLeft(b, stamp, ty), 0
  {
    match ty
    case Var(n) => if n in b then assert SolvesAt(b, solved, n); DeepResolve(b, b[n], solved, stamp) else ty
    case Fun(ps, r) =>
      KidsShrink(solved, ty);
      assert Kids(ty)[|ps|] == r;
      assert forall i :: 0 <= i < |ps| ==> Kids(ty)[i] == ps[i];
      Fun(DeepResolveAll(b, ps, ty, solved, stamp), DeepResolve(b, r, solved, stamp))
    case List(e) => KidsShrink(solved, ty); assert Kids(ty)[0] == e; List(DeepResolve(b, e, solved, stamp))
    case Ref(e) => KidsShrink(solved, ty); assert Kids(ty)[0] == e; Ref(DeepResolve(b, e, solved, stamp))
    case Dict(k, e) =>
      KidsShrink(solved, ty);
      assert Kids(ty)[0] == k && Kids(ty)[1] == e;
      Dict(DeepResolve(b, k, solved, stamp), DeepResolve(b, e, solved, stamp))
    case Tuple(es) => KidsShrink(solved, ty); Tuple(DeepResolveAll(b, es, ty, solved, stamp))
    case Enum(name, es) => KidsShrink(solved, ty); Enum(name, DeepResolveAll(b, es, ty, solved, stamp))
    case _ => ty
  }

  function DeepResolveAll(b: Bindings, ts: seq<Type>, ghost parent: Type,
                          ghost solved: Bindings, ghost stamp: map<nat, nat>): (r: seq<Type>)
    requires Triangular(b, solved, stamp)
    requires forall t :: t in ts ==> Size(Apply(solved, t)) < Size(Apply(solved, parent))
    ensures r == ApplyAll(solved, ts)
    decreases Size(Apply(solved, parent)), 0, |ts|
  {
    if ts == [] then [] else
      [DeepResolve(b, ts[0], solved, stamp)] + DeepResolveAll(b, ts[1..], parent, solved, stamp)
  }

  // ----- the binding step -----

  lemma ExtendedSolves(b: Bindings, solved: Bindings, stamp: map<nat, nat>, n: nat, t: Type, k: nat)
    requires Triangular(b, solved, stamp) && n !in b && k in b[n := t]
    requires n !in Vars(Apply(solved, t))
    ensures var solved' := Extended(solved, n, Apply(solved, t));
            solved'[k] == Apply(solved', b[n := t][k])
  {
    var u := Apply(solved, t);
    if k == n {
      ExtendedComposes(solved, n, u, t);
      ApplyFixed(map[n := u], u);
    } else {
      ExtendedComposes(solved, n, u, b[k]);
      assert SolvesAt(b, solved, k);
    }
  }

  lemma ExtendedUnbound(b: Bindings, solved: Bindings, stamp: map<nat, nat>, n: nat, t: Type, k: nat)
    requires Triangular(b, solved, stamp) && n !in b && k in b[n := t]
    requires n !in Vars(Apply(solved, t))
    ensures Vars(Extended(solved, n, Apply(solved, t))[k]) !! b.Keys + {n}
  {
    var u := Apply(solved, t);
    ResolvedIsUnbound(b, solved, stamp, t);
    if k != n { VarsAfterOne(n, u, solved[k]); }
  }

  /** The occurs check keeps the chained bindings acyclic. */
  lemma BindKeepsTriangular(b: Bindings, solved: Bindings, stamp: map<nat, nat>, n: nat, t: Type)
    requires Triangular(b, solved, stamp) && n !in b
    requires t.Var? ==> t.id !in b
    requires n !in Vars(Apply(solved, t))
    ensures Triangular(b[n := t], Extended(solved, n, Apply(solved, t)), stamp[n := |b|])
  {
    StampAfterBind(b, solved, stamp, n, t);
    SolvesAfterBind(b, solved, stamp, n, t);
    GroundAfterBind(b, solved, stamp, n, t);
  }

  lemma StampAfterBind(b: Bindings, solved: Bindings, stamp: map<nat, nat>, n: nat, t: Type)
    requires Triangular(b, solved, stamp) && n !in b
    requires t.Var? ==> t.id !in b
    requires n !in Vars(Apply(solved, t))
    ensures Stamped(b[n := t], stamp[n := |b|])
  {
    assert t.Var? ==> t.id != n by { if t.Var? { assert Apply(solved, t) == t; } }
  }

  lemma SolvesAfterBind(b: Bindings, solved: Bindings, stamp: map<nat, nat>, n: nat, t: Type)
    requires Triangular(b, solved, stamp) && n !in b
    requires n !in Vars(Apply(solved, t))
    ensures Solves(b[n := t], Extended(solved, n, Apply(solved, t)))
  {
    var b', solved' := b[n := t], Extended(solved, n, Apply(solved, t));
    forall k | k in b' ensures SolvesAt(b', solved', k) {
      ExtendedSolves(b, solved, stamp, n, t, k);
    }
  }

  lemma GroundAfterBind(b: Bindings, solved: Bindings, stamp: map<nat, nat>, n: nat, t: Type)
    requires Triangular(b, solved, stamp) && n !in b
    requires n !in Vars(Apply(solved, t))
    ensures Ground(b[n := t], Extended(solved, n, Apply(solved, t)))
  {
    hide Apply, Vars, Extended, Solves;
    var b', solved' := b[n := t], Extended(solved, n, Apply(solved, t));
    assert b'.Keys == b.Keys + {n};
    ExtendedKeys(solved, n, Apply(solved, t));
    forall k | k in b' ensures Vars(solved'[k]) !! b'.Keys {
      ExtendedUnbound(b, solved, stamp, n, t, k);
    }
  }

  /** A resolved type mentions no bound variable. */
  lemma ResolvedIsUnbound(b: Bindings, solved: Bindings, stamp: map<nat, nat>, t: Type)
    requires Triangular(b, solved, stamp)
    ensures Vars(Apply(solved, t)) !! b.Keys
  {
    var ok := (Vars(t) + VarsOfRange(solved)) - b.Keys;
    forall v | v in Vars(t) ensures Vars(Apply(solved, Var(v))) <= ok {
      if v in solved { RangeCovers(solved, v); }
    }
    VarsOfApply(solved, t, ok);
  }

  ghost function VarsOfRange(s: Bindings): set<nat> {
    VarsAll(SetToSeq(s.Values))
  }

  ghost function SetToSeq(ts: set<Type>): (r: seq<Type>)
    ensures forall t :: t in ts <==> t in r
  {
    if ts == {} then [] else var t :| t in ts; [t] + SetToSeq(ts - {t})
  }

  lemma RangeCovers(s: Bindings, k: nat)
    requires k in s
    ensures Vars(s[k]) <= VarsOfRange(s)
  {
    assert s[k] in SetToSeq(s.Values);
  }

  // ----- what error-free triangular bindings mean -----

  /** A substitution that respects the bindings cannot tell a type from its resolved form. */
  lemma {:induction false} RespectsSolved(f: Bindings, b: Bindings, solved: Bindings, stamp: map<nat, nat>, t: Type)
    requires Triangular(b, solved, stamp) && Respects(f, b)
    ensures Apply(f, Apply(solved, t)) == Apply(f, t)
    decreases Size(Apply(solved, t)), ChainLeft(b, stamp, t)
  {
    if t.Var? {
      if t.id in b {
        assert SolvesAt(b, solved, t.id) && RespectsAt(f, b, t.id);
        RespectsSolved(f, b, solved, stamp, b[t.id]);
      }
    } else {
      ApplyKids(solved, t);
      ApplyKids(f, t);
      ApplyKids(f, Apply(solved, t));
      forall i | 0 <= i < |Kids(t)| ensures Apply(f, Apply(solved, Kids(t)[i])) == Apply(f, Kids(t)[i]) {
        ApplyKidSmaller(solved, t, Kids(t)[i]);
        RespectsSolved(f, b, solved, stamp, Kids(t)[i]);
      }
      HeadAndKids(Apply(f, Apply(solved, t)), Apply(f, t));
    }
  }

  lemma SolvedRespects(b: Bindings, solved: Bindings, stamp: map<nat, nat>)
    requires Triangular(b, solved, stamp)
    ensures Respects(solved, b)
  {
    forall k | k in b ensures RespectsAt(solved, b, k) { assert SolvesAt(b, solved, k); }
  }

  lemma SolvedIdempotent(b: Bindings, solved: Bindings, stamp: map<nat, nat>)
    requires Triangular(b, solved, stamp)
    ensures Idempotent(solved)
  {
    forall t ensures Apply(solved, Apply(solved, t)) == Apply(solved, t) {
      ResolvedIsUnbound(b, solved, stamp, t);
      ApplyFixed(solved, Apply(solved, t));
    }
  }

  // ----- unifiability of two resolved heads -----

  /** Compound types unify exactly when their heads agree and their children unify. */
  lemma KidsDecide(f: Bindings, x: Type, y: Type)
    requires !x.Var? && !y.Var?
    ensures Apply(f, x) == Apply(f, y) <==> SameHead(x, y) && ApplyAll(f, Kids(x)) == ApplyAll(f, Kids(y))
  {
    ApplyKids(f, x);
    ApplyKids(f, y);
    if SameHead(x, y) && ApplyAll(f, Kids(x)) == ApplyAll(f, Kids(y)) {
      HeadAndKids(Apply(f, x), Apply(f, y));
    }
  }

  /** No substitution respecting the bindings unifies a variable with a compound type
      it occurs in: the image would be larger than itself. */
  lemma OccursRefutes(f: Bindings, b: Bindings, solved: Bindings, stamp: map<nat, nat>, n: nat, t: Type)
    requires Triangular(b, solved, stamp) && Respects(f, b)
    requires n in Vars(Apply(solved, t)) && n !in b && t != Var(n)
    requires t.Var? ==> t.id !in b
    ensures Apply(f, Var(n)) != Apply(f, t)
  {
    assert !t.Var?;
    ApplyKids(solved, t);
    RespectsSolved(f, b, solved, stamp, t);
    OccursSmaller(f, Apply(solved, t), n);
  }

  // ----- pushing children onto the worklist -----

  /** The worklist with the pairs of `xs` and `ys` on top, the first pair topmost. */
  function PushPairs(work: seq<Constraint>, xs: seq<Type>, ys: seq<Type>): seq<Constraint>
    requires |xs| == |ys|
  {
    if xs == [] then work else PushPairs(work, xs[1..], ys[1..]) + [Eq(xs[0], ys[0])]
  }

  lemma {:induction false} PushPairsUnifies(f: Bindings, work: seq<Constraint>, xs: seq<Type>, ys: seq<Type>)
    requires |xs| == |ys|
    ensures Unifies(f, PushPairs(work, xs, ys)) <==> Unifies(f, work) && ApplyAll(f, xs) == ApplyAll(f, ys)
  {
    if xs != [] {
      PushPairsUnifies(f, work, xs[1..], ys[1..]);
      UnifiesPush(f, PushPairs(work, xs[1..], ys[1..]), Eq(xs[0], ys[0]));
      assert ApplyAll(f, xs) == [Apply(f, xs[0])] + ApplyAll(f, xs[1..]);
      assert ApplyAll(f, ys) == [Apply(f, ys[0])] + ApplyAll(f, ys[1..]);
    }
  }

  lemma UnifiesPush(f: Bindings, work: seq<Constraint>, c: Constraint)
    ensures Unifies(f, work + [c]) <==> Unifies(f, work) && Apply(f, c.lhs) == Apply(f, c.rhs)
  {
    assert c in work + [c];
    assert forall d :: d in work ==> d in work + [c];
  }

  lemma {:induction false} PushPairsLast(work: seq<Constraint>, xs: seq<Type>, ys: seq<Type>, x: Type, y: Type)
    requires |xs| == |ys|
    ensures PushPairs(work + [Eq(x, y)], xs, ys) == PushPairs(work, xs + [x], ys + [y])
  {
    if xs == [] {
      assert PushPairs(work, [x], [y]) == PushPairs(work, [], []) + [Eq(x, y)];
    } else {
      PushPairsLast(work, xs[1..], ys[1..], x, y);
      assert (xs + [x])[1..] == xs[1..] + [x] && (ys + [y])[1..] == ys[1..] + [y];
    }
  }

  ghost predicate Fits(cs: seq<Constraint>, scope: set<nat>, arity: map<string, nat>) {
    Scoped(cs, scope) && AritiesAll(cs, arity)
  }

  lemma {:induction false} PushPairsFits(work: seq<Constraint>, xs: seq<Type>, ys: seq<Type>,
                                         scope: set<nat>, arity: map<string, nat>)
    requires |xs| == |ys| && Fits(work, scope, arity)
    requires forall t :: t in xs || t in ys ==> Vars(t) <= scope && Arities(t, arity)
    ensures Fits(PushPairs(work, xs, ys), scope, arity)
  {
    if xs != [] {
      PushPairsFits(work, xs[1..], ys[1..], scope, arity);
    }
  }

  /** The total resolved size of the worklist: the second component of the measure. */
  ghost function WorkSize(s: Bindings, work: seq<Constraint>): nat {
    if work == [] then 0 else
      var c := work[|work| - 1];
      Size(Apply(s, c.lhs)) + Size(Apply(s, c.rhs)) + WorkSize(s, work[..|work| - 1])
  }

  lemma {:induction false} PushPairsSize(s: Bindings, work: seq<Constraint>, xs: seq<Type>, ys: seq<Type>)
    requires |xs| == |ys|
    ensures WorkSize(s, PushPairs(work, xs, ys)) == WorkSize(s, work) + SizeAll(ApplyAll(s, xs)) + SizeAll(ApplyAll(s, ys))
  {
    if xs != [] {
      PushPairsSize(s, work, xs[1..], ys[1..]);
      var rest := PushPairs(work, xs[1..], ys[1..]);
      assert PushPairs(work, xs, ys)[..|rest|] == rest;
      assert ApplyAll(s, xs)[1..] == ApplyAll(s, xs[1..]);
      assert ApplyAll(s, ys)[1..] == ApplyAll(s, ys[1..]);
    }
  }

  // ----- the invariant of the main loop -----

  ghost predicate Equivalent(cs: seq<Constraint>, work: seq<Constraint>, b: Bindings) {
    forall f :: Unifies(f, cs) <==> Unifies(f, work) && Respects(f, b)
  }

  ghost predicate Faithful(cs: seq<Constraint>, work: seq<Constraint>, b: Bindings, clean: bool) {
    if clean then Equivalent(cs, work, b) else !Unifiable(cs)
  }

  ghost predicate BindingsFit(b: Bindings, scope: set<nat>, arity: map<string, nat>) {
    && b.Keys <= scope
    && forall k :: k in b ==> Within(b[k], scope, arity)
  }

  /** Popping a pair and resolving its two heads. */
  ghost predicate Popped(work: seq<Constraint>, rest: seq<Constraint>, x: Type, y: Type, b: Bindings, solved: Bindings) {
    && |work| > 0 && rest == work[..|work| - 1]
    && Apply(solved, x) == Apply(solved, work[|work| - 1].lhs)
    && Apply(solved, y) == Apply(solved, work[|work| - 1].rhs)
    && (forall f :: Respects(f, b) ==>
          && Apply(f, x) == Apply(f, work[|work| - 1].lhs)
          && Apply(f, y) == Apply(f, work[|work| - 1].rhs))
  }

  lemma PoppedMeaning(f: Bindings, work: seq<Constraint>, rest: seq<Constraint>, x: Type, y: Type, b: Bindings, solved: Bindings)
    requires Popped(work, rest, x, y, b, solved) && Respects(f, b)
    ensures Unifies(f, work) <==> Unifies(f, rest) && Apply(f, x) == Apply(f, y)
  {
    hide Apply;
    assert work == rest + [work[|work| - 1]];
    UnifiesPush(f, rest, work[|work| - 1]);
  }

  /** A pair that is already equal can be dropped. */
  lemma StepEqual(cs: seq<Constraint>, work: seq<Constraint>, rest: seq<Constraint>, x: Type, b: Bindings, solved: Bindings, clean: bool)
    requires Popped(work, rest, x, x, b, solved) && Faithful(cs, work, b, clean)
    ensures Faithful(cs, rest, b, clean)
  {
    forall f | Respects(f, b) ensures Unifies(f, work) <==> Unifies(f, rest) {
      PoppedMeaning(f, work, rest, x, x, b, solved);
    }
  }

  /** A pair that no respecting substitution unifies refutes the constraints. */
  lemma StepClash(cs: seq<Constraint>, work: seq<Constraint>, rest: seq<Constraint>, x: Type, y: Type,
                  b: Bindings, solved: Bindings, clean: bool)
    requires Popped(work, rest, x, y, b, solved) && Faithful(cs, work, b, clean)
    requires forall f :: Respects(f, b) ==> Apply(f, x) != Apply(f, y)
    ensures !Unifiable(cs)
  {
    forall f | clean ensures !Unifies(f, cs) {
      if Respects(f, b) { PoppedMeaning(f, work, rest, x, y, b, solved); }
    }
  }

  lemma HeadsClash(b: Bindings, x: Type, y: Type)
    requires !x.Var? && !y.Var? && !SameHead(x, y)
    ensures forall f :: Respects(f, b) ==> Apply(f, x) != Apply(f, y)
  {
    forall f ensures Apply(f, x) != Apply(f, y) { KidsDecide(f, x, y); }
  }

  lemma OccursClash(b: Bindings, solved: Bindings, stamp: map<nat, nat>, n: nat, t: Type)
    requires Triangular(b, solved, stamp)
    requires n in Vars(Apply(solved, t)) && n !in b && t != Var(n)
    requires t.Var? ==> t.id !in b
    ensures forall f :: Respects(f, b) ==> Apply(f, Var(n)) != Apply(f, t)
  {
    forall f | Respects(f, b) ensures Apply(f, Var(n)) != Apply(f, t) {
      OccursRefutes(f, b, solved, stamp, n, t);
    }
  }

  /** Matching heads: the pair is replaced by its children. */
  lemma StepKids(cs: seq<Constraint>, work: seq<Constraint>, rest: seq<Constraint>, x: Type, y: Type,
                 b: Bindings, solved: Bindings, clean: bool, scope: set<nat>, arity: map<string, nat>)
    requires Popped(work, rest, x, y, b, solved) && Faithful(cs, work, b, clean)
    requires !x.Var? && !y.Var? && SameHead(x, y)
    requires Fits(rest, scope, arity)
    requires Vars(x) <= scope && Vars(y) <= scope && Arities(x, arity) && Arities(y, arity)
    ensures Faithful(cs, PushPairs(rest, Kids(x), Kids(y)), b, clean)
    ensures Fits(PushPairs(rest, Kids(x), Kids(y)), scope, arity)
    ensures WorkSize(solved, PushPairs(rest, Kids(x), Kids(y))) < WorkSize(solved, work)
  {
    var work' := PushPairs(rest, Kids(x), Kids(y));
    forall f | Respects(f, b) ensures Unifies(f, work) <==> Unifies(f, work') {
      PoppedMeaning(f, work, rest, x, y, b, solved);
      PushPairsUnifies(f, rest, Kids(x), Kids(y));
      KidsDecide(f, x, y);
    }
    forall t | t in Kids(x) || t in Kids(y) ensures Vars(t) <= scope && Arities(t, arity) {
      if t in Kids(x) { VarsOfKid(x, t); } else { VarsOfKid(y, t); }
    }
    PushPairsFits(rest, Kids(x), Kids(y), scope, arity);
    PushPairsSize(solved, rest, Kids(x), Kids(y));
    ApplyKids(solved, x);
    ApplyKids(solved, y);
    SizeIsKids(Apply(solved, x));
    SizeIsKids(Apply(solved, y));
  }

  lemma RespectsBind(f: Bindings, b: Bindings, n: nat, t: Type)
    requires n !in b
    ensures Respects(f, b[n := t]) <==> Respects(f, b) && Apply(f, Var(n)) == Apply(f, t)
  {
    if Respects(f, b[n := t]) {
      forall k | k in b ensures RespectsAt(f, b, k) { assert RespectsAt(f, b[n := t], k); }
      assert RespectsAt(f, b[n := t], n);
    }
    if Respects(f, b) && Apply(f, Var(n)) == Apply(f, t) {
      var b' := b[n := t];
      forall k | k in b' ensures RespectsAt(f, b', k) { assert k != n ==> RespectsAt(f, b, k); }
    }
  }

  /** A variable bound past the occurs check: the equation moves into the bindings. */
  lemma StepBind(cs: seq<Constraint>, work: seq<Constraint>, rest: seq<Constraint>, n: nat, t: Type,
                 x: Type, y: Type, b: Bindings, solved: Bindings, clean: bool)
    requires (x == Var(n) && y == t) || (x == t && y == Var(n))
    requires Popped(work, rest, x, y, b, solved) && Faithful(cs, work, b, clean) && n !in b
    ensures Faithful(cs, rest, b[n := t], clean)
  {
    forall f ensures Unifies(f, work) && Respects(f, b) <==> Unifies(f, rest) && Respects(f, b[n := t]) {
      RespectsBind(f, b, n, t);
      if Respects(f, b) { PoppedMeaning(f, work, rest, x, y, b, solved); }
    }
  }

  // ----- one arm of the loop at a time -----

  /** Everything the main loop keeps true. */
  ghost predicate Inv(cs: seq<Constraint>, work: seq<Constraint>, b: Bindings, solved: Bindings, stamp: map<nat, nat>,
                      scope: set<nat>, arity: map<string, nat>, clean: bool) {
    && Triangular(b, solved, stamp)
    && Fits(work, scope, arity) && BindingsFit(b, scope, arity)
    && Faithful(cs, work, b, clean)
  }

  ghost predicate Within(t: Type, scope: set<nat>, arity: map<string, nat>) {
    Vars(t) <= scope && Arities(t, arity)
  }

  ghost predicate Smaller(b': Bindings, solved': Bindings, work': seq<Constraint>,
                          b: Bindings, solved: Bindings, work: seq<Constraint>, scope: set<nat>) {
    || |scope - b'.Keys| < |scope - b.Keys|
    || (b'.Keys == b.Keys && WorkSize(solved', work') < WorkSize(solved, work))
  }

  lemma EqualArm(cs: seq<Constraint>, work: seq<Constraint>, rest: seq<Constraint>, x: Type,
                 b: Bindings, solved: Bindings, stamp: map<nat, nat>, scope: set<nat>, arity: map<string, nat>, clean: bool)
    requires Inv(cs, work, b, solved, stamp, scope, arity, clean) && Popped(work, rest, x, x, b, solved)
    ensures Inv(cs, rest, b, solved, stamp, scope, arity, clean)
    ensures Smaller(b, solved, rest, b, solved, work, scope)
  {
    StepEqual(cs, work, rest, x, b, solved, clean);
    PoppedFits(work, rest, work[|work| - 1], scope, arity);
  }

  lemma ClashArm(cs: seq<Constraint>, work: seq<Constraint>, rest: seq<Constraint>, x: Type, y: Type,
                 b: Bindings, solved: Bindings, stamp: map<nat, nat>, scope: set<nat>, arity: map<string, nat>, clean: bool)
    requires Inv(cs, work, b, solved, stamp, scope, arity, clean) && Popped(work, rest, x, y, b, solved)
    requires !x.Var? && !y.Var? && !SameHead(x, y)
    ensures Inv(cs, rest, b, solved, stamp, scope, arity, false)
    ensures Smaller(b, solved, rest, b, solved, work, scope)
  {
    HeadsClash(b, x, y);
    StepClash(cs, work, rest, x, y, b, solved, clean);
    PoppedFits(work, rest, work[|work| - 1], scope, arity);
  }

  lemma OccursArm(cs: seq<Constraint>, work: seq<Constraint>, rest: seq<Constraint>, n: nat, t: Type, x: Type, y: Type,
                  b: Bindings, solved: Bindings, stamp: map<nat, nat>, scope: set<nat>, arity: map<string, nat>, clean: bool)
    requires Inv(cs, work, b, solved, stamp, scope, arity, clean) && Popped(work, rest, x, y, b, solved)
    requires (x == Var(n) && y == t) || (x == t && y == Var(n))
    requires n !in b && t != Var(n) && (t.Var? ==> t.id !in b) && n in Vars(Apply(solved, t))
    ensures Inv(cs, rest, b, solved, stamp, scope, arity, false)
    ensures Smaller(b, solved, rest, b, solved, work, scope)
  {
    OccursClash(b, solved, stamp, n, t);
    StepClash(cs, work, rest, x, y, b, solved, clean);
    PoppedFits(work, rest, work[|work| - 1], scope, arity);
  }

  lemma KidsArm(cs: seq<Constraint>, work: seq<Constraint>, rest: seq<Constraint>, x: Type, y: Type,
                b: Bindings, solved: Bindings, stamp: map<nat, nat>, scope: set<nat>, arity: map<string, nat>, clean: bool)
    requires Inv(cs, work, b, solved, stamp, scope, arity, clean) && Popped(work, rest, x, y, b, solved)
    requires !x.Var? && !y.Var? && SameHead(x, y) && Within(x, scope, arity) && Within(y, scope, arity)
    ensures Inv(cs, PushPairs(rest, Kids(x), Kids(y)), b, solved, stamp, scope, arity, clean)
    ensures Smaller(b, solved, PushPairs(rest, Kids(x), Kids(y)), b, solved, work, scope)
  {
    PoppedFits(work, rest, work[|work| - 1], scope, arity);
    StepKids(cs, work, rest, x, y, b, solved, clean, scope, arity);
  }

  lemma BindFits(b: Bindings, scope: set<nat>, arity: map<string, nat>, n: nat, t: Type)
    requires BindingsFit(b, scope, arity) && n in scope && Within(t, scope, arity)
    ensures BindingsFit(b[n := t], scope, arity)
  {
  }

  lemma BindArm(cs: seq<Constraint>, work: seq<Constraint>, rest: seq<Constraint>, n: nat, t: Type, x: Type, y: Type,
                b: Bindings, solved: Bindings, stamp: map<nat, nat>, scope: set<nat>, arity: map<string, nat>, clean: bool)
    requires Inv(cs, work, b, solved, stamp, scope, arity, clean) && Popped(work, rest, x, y, b, solved)
    requires (x == Var(n) && y == t) || (x == t && y == Var(n))
    requires n in scope && n !in b && (t.Var? ==> t.id !in b) && n !in Vars(Apply(solved, t)) && Within(t, scope, arity)
    ensures Inv(cs, rest, b[n := t], Extended(solved, n, Apply(solved, t)), stamp[n := |b|], scope, arity, clean)
    ensures Smaller(b[n := t], Extended(solved, n, Apply(solved, t)), rest, b, solved, work, scope)
  {
    PoppedFits(work, rest, work[|work| - 1], scope, arity);
    StepBind(cs, work, rest, n, t, x, y, b, solved, clean);
    BindKeepsTriangular(b, solved, stamp, n, t);
    BindFits(b, scope, arity, n, t);
    assert n in scope - b.Keys && n !in scope - b[n := t].Keys;
    SmallerSet(scope - b[n := t].Keys, scope - b.Keys);
  }

  // ----- the lazy solver follows the simple one -----

  /** The worklist in the order it is worked off. */
  ghost function Pending(work: seq<Constraint>): (r: seq<Constraint>)
    ensures forall c :: c in r <==> c in work
  {
    if work == [] then [] else
      assert work == work[..|work| - 1] + [work[|work| - 1]];
      [work[|work| - 1]] + Pending(work[..|work| - 1])
  }

  /** What the simple solver makes of the constraints is what it makes of the worklist from the
      solved form of the bindings, behind the diagnostics there are. */
  ghost predicate OnCourse(cs: seq<Constraint>, work: seq<Constraint>, solved: Bindings, errors: seq<Diagnostic>, scope: set<nat>) {
    && Solved(solved, scope) && Scoped(cs, scope) && Scoped(Pending(work), scope)
    && var rest := Run(solved, Pending(work), scope);
       Run(map[], cs, scope) == Outcome(rest.subst, errors + rest.errors)
  }

  lemma {:induction false} PendingPushed(work: seq<Constraint>, xs: seq<Type>, ys: seq<Type>)
    requires |xs| == |ys|
    ensures Pending(PushPairs(work, xs, ys)) == Pairs(xs, ys) + Pending(work)
  {
    if xs == [] {
      assert Pairs(xs, ys) + Pending(work) == Pending(work);
    } else {
      PendingPushed(work, xs[1..], ys[1..]);
      var rest := PushPairs(work, xs[1..], ys[1..]);
      assert PushPairs(work, xs, ys)[..|rest|] == rest;
    }
  }

  lemma SeedPending(cs: seq<Constraint>, work: seq<Constraint>)
    requires |work| == |cs| && forall k :: 0 <= k < |work| ==> work[k] == cs[|cs| - 1 - k]
    ensures Pending(work) == cs
    decreases |cs|
  {
    if cs != [] {
      var init := work[..|work| - 1];
      forall k | 0 <= k < |init| ensures init[k] == cs[1..][|cs| - 2 - k] { assert init[k] == work[k]; }
      SeedPending(cs[1..], init);
      assert cs == [cs[0]] + cs[1..];
    }
  }

  /** One turn on the top of the worklist, given the action its resolved pair calls for. */
  lemma TurnOnTop(cs: seq<Constraint>, before: seq<Constraint>, solved: Bindings, errors: seq<Diagnostic>, scope: set<nat>)
    requires OnCourse(cs, before, solved, errors, scope) && before != []
    ensures var top, rest := before[|before| - 1], before[..|before| - 1];
            var action := TurnOf(solved, top);
            && Scoped(Pending(rest), scope)
            && (action.Bind? ==> OnCourse(cs, rest, Extended(solved, action.id, action.ty), errors, scope))
            && (action.Report? ==> OnCourse(cs, rest, solved, errors + [action.diagnostic], scope))
            && (action.Descend? ==>
                  Scoped(action.members + Pending(rest), scope)
                  && var o := Run(solved, action.members + Pending(rest), scope);
                     Run(map[], cs, scope) == Outcome(o.subst, errors + o.errors))
  {
    hide Apply, Extended, Turn, TurnOf, Solved, Scoped, Run, TotalSize, Unbound;
    var pending, rest := Pending(before), before[..|before| - 1];
    assert pending[1..] == Pending(rest) && pending[0] == before[|before| - 1];
    HeadInScope(solved, pending, scope);
    RunStep(solved, pending, scope);
    var action := TurnOf(solved, pending[0]);
    if action.Report? { Reported(errors, action.diagnostic, Run(solved, Pending(rest), scope)); }
  }

  lemma Reported(errors: seq<Diagnostic>, d: Diagnostic, o: Outcome)
    ensures errors + Reporting(d, o).errors == (errors + [d]) + o.errors && Reporting(d, o).subst == o.subst
  {
  }

  /** The turn of a popped pair whose heads are resolved. */
  lemma PoppedTurn(work: seq<Constraint>, rest: seq<Constraint>, x: Type, y: Type, b: Bindings, solved: Bindings, stamp: map<nat, nat>)
    requires Popped(work, rest, x, y, b, solved) && Triangular(b, solved, stamp) && (x.Var? ==> x.id !in b) && (y.Var? ==> y.id !in b)
    ensures var turn, u, v := TurnOf(solved, work[|work| - 1]), Apply(solved, x), Apply(solved, y);
            if x.Var? && x == y then turn == Descend([])
            else if x.Var? then turn == BindOrReport(x.id, v)
            else if y.Var? then turn == BindOrReport(y.id, u)
            else if SameHead(x, y) then turn.Descend?
            else turn == Report(Mismatch(u, v))
  {
    UnboundStays(x, b, solved, stamp);
    UnboundStays(y, b, solved, stamp);
    if !x.Var? && !y.Var? { SameHeadKept(solved, x, y); }
  }

  lemma UnboundStays(t: Type, b: Bindings, solved: Bindings, stamp: map<nat, nat>)
    requires Triangular(b, solved, stamp) && (t.Var? ==> t.id !in b)
    ensures Apply(solved, t).Var? <==> t.Var?
    ensures t.Var? ==> Apply(solved, t) == t
  {
    if !t.Var? { ApplyKids(solved, t); }
  }

  lemma EqualOnCourse(cs: seq<Constraint>, before: seq<Constraint>, solved: Bindings, errors: seq<Diagnostic>, scope: set<nat>)
    requires OnCourse(cs, before, solved, errors, scope) && before != [] && TurnOf(solved, before[|before| - 1]) == Descend([])
    ensures OnCourse(cs, before[..|before| - 1], solved, errors, scope)
  {
    hide Run, TurnOf;
    TurnOnTop(cs, before, solved, errors, scope);
    assert [] + Pending(before[..|before| - 1]) == Pending(before[..|before| - 1]);
  }

  lemma BindOnCourse(cs: seq<Constraint>, before: seq<Constraint>, n: nat, u: Type, solved: Bindings, errors: seq<Diagnostic>, scope: set<nat>)
    requires OnCourse(cs, before, solved, errors, scope) && before != [] && TurnOf(solved, before[|before| - 1]) == BindOrReport(n, u)
    ensures n !in Vars(u) ==> OnCourse(cs, before[..|before| - 1], Extended(solved, n, u), errors, scope)
    ensures n in Vars(u) ==> OnCourse(cs, before[..|before| - 1], solved, errors + [RecursiveUnification(u)], scope)
  {
    hide OnCourse, TurnOf, Extended, Vars;
    TurnOnTop(cs, before, solved, errors, scope);
  }

  lemma ClashOnCourse(cs: seq<Constraint>, before: seq<Constraint>, d: Diagnostic, solved: Bindings, errors: seq<Diagnostic>, scope: set<nat>)
    requires OnCourse(cs, before, solved, errors, scope) && before != [] && TurnOf(solved, before[|before| - 1]) == Report(d)
    ensures OnCourse(cs, before[..|before| - 1], solved, errors + [d], scope)
  {
    hide OnCourse, TurnOf;
    TurnOnTop(cs, before, solved, errors, scope);
  }

  /** Members resolved or not, the simple solver goes on alike. */
  lemma KidsOnCourse(cs: seq<Constraint>, before: seq<Constraint>, x: Type, y: Type, solved: Bindings, errors: seq<Diagnostic>, scope: set<nat>)
    requires OnCourse(cs, before, solved, errors, scope) && before != [] && !x.Var? && !y.Var? && SameHead(x, y)
    requires Apply(solved, x) == Apply(solved, before[|before| - 1].lhs) && Apply(solved, y) == Apply(solved, before[|before| - 1].rhs)
    requires Vars(x) <= scope && Vars(y) <= scope
    ensures OnCourse(cs, PushPairs(before[..|before| - 1], Kids(x), Kids(y)), solved, errors, scope)
  {
    var rest, a, b := before[..|before| - 1], Apply(solved, x), Apply(solved, y);
    TurnOnTop(cs, before, solved, errors, scope);
    PendingPushed(rest, Kids(x), Kids(y));
    SameHeadKept(solved, x, y);
    MembersAlike(solved, x, y, Pending(rest), scope);
    hide Apply, Run, Solved;
    assert TurnOf(solved, before[|before| - 1]) == Descend(Pairs(Kids(a), Kids(b)));
    RunAlike(solved, Pairs(Kids(x), Kids(y)) + Pending(rest), Pairs(Kids(a), Kids(b)) + Pending(rest), scope);
  }

  lemma MembersAlike(solved: Bindings, x: Type, y: Type, rest: seq<Constraint>, scope: set<nat>)
    requires Solved(solved, scope) && !x.Var? && !y.Var? && SameHead(x, y) && Vars(x) <= scope && Vars(y) <= scope && Scoped(rest, scope)
    ensures |Kids(Apply(solved, x))| == |Kids(Apply(solved, y))|
    ensures Scoped(Pairs(Kids(x), Kids(y)) + rest, scope)
    ensures Alike(solved, Pairs(Kids(x), Kids(y)) + rest, Pairs(Kids(Apply(solved, x)), Kids(Apply(solved, y))) + rest)
  {
    SameHeadKept(solved, x, y);
    forall i | 0 <= i < |Kids(x)|
      ensures Apply(solved, Kids(Apply(solved, x))[i]) == Apply(solved, Kids(x)[i]) && Vars(Kids(x)[i]) <= scope
      ensures Apply(solved, Kids(Apply(solved, y))[i]) == Apply(solved, Kids(y)[i]) && Vars(Kids(y)[i]) <= scope
    {
      VarsOfKid(x, Kids(x)[i]);
      VarsOfKid(y, Kids(y)[i]);
      ResolvesOnce(solved, scope, Kids(x)[i]);
      ResolvesOnce(solved, scope, Kids(y)[i]);
    }
  }

  // ----- the solver -----

  /** Solve equality constraints. The diagnostics returned are those this call adds. */
  method UnifyEqConstraints(constraints: seq<Constraint>, ghost arity: map<string, nat>)
    returns (subst: Bindings, errors: seq<Diagnostic>)
    requires AritiesAll(constraints, arity)
    ensures errors == [] <==> Unifiable(constraints)
    ensures errors == [] ==> Unifies(subst, constraints) && MostGeneral(subst, constraints)
    ensures Idempotent(subst)
    ensures forall k :: k in subst ==> k in ConstraintVars(constraints) && Vars(subst[k]) <= ConstraintVars(constraints)
    ensures Scoped(constraints, ConstraintVars(constraints))
    ensures Outcome(subst, errors) == Run(map[], constraints, ConstraintVars(constraints))
    ensures Accounted(subst, constraints, errors)
  {
    hide Inv, OnCourse, Run, Accounted, MostGeneral, Unifiable, Unifies, Idempotent, Triangular;
    ghost var scope := ConstraintVars(constraints);
    var bindings: Bindings := map[];
    ghost var solved: Bindings, stamp: map<nat, nat> := map[], map[];
    errors := [];
    var work: seq<Constraint> := [];
    for i := |constraints| downto 0
      invariant |work| == |constraints| - i
      invariant forall k :: 0 <= k < |work| ==> work[k] == constraints[|constraints| - 1 - k]
    {
      work := work + [constraints[i]];
    }
    Seeded(constraints, work, arity);

    while work != []
      invariant Inv(constraints, work, bindings, solved, stamp, scope, arity, errors == [])
      invariant OnCourse(constraints, work, solved, errors, scope)
      decreases |scope - bindings.Keys|, WorkSize(solved, work)
    {
      work, bindings, errors, solved, stamp :=
        SolveTop(constraints, work, bindings, errors, solved, stamp, scope, arity);
    }

    Concluded(constraints, bindings, solved, stamp, errors, arity);
    subst := Normalise(bindings, solved, stamp);
  }

  lemma Seeded(cs: seq<Constraint>, work: seq<Constraint>, arity: map<string, nat>)
    requires AritiesAll(cs, arity)
    requires |work| == |cs| && forall k :: 0 <= k < |work| ==> work[k] == cs[|cs| - 1 - k]
    ensures Inv(cs, work, map[], map[], map[], ConstraintVars(cs), arity, true)
    ensures OnCourse(cs, work, map[], [], ConstraintVars(cs))
  {
    hide Run, Faithful;
    ConstraintVarsCover(cs);
    SeedEquivalent(cs, work);
    SeedFits(cs, work, ConstraintVars(cs), arity);
    SeedPending(cs, work);
    StartOnCourse(cs, work, ConstraintVars(cs));
    StartInv(cs, work, ConstraintVars(cs), arity);
  }

  lemma Concluded(cs: seq<Constraint>, b: Bindings, solved: Bindings, stamp: map<nat, nat>, errors: seq<Diagnostic>, arity: map<string, nat>)
    requires Inv(cs, [], b, solved, stamp, ConstraintVars(cs), arity, errors == []) && OnCourse(cs, [], solved, errors, ConstraintVars(cs))
    ensures Triangular(b, solved, stamp) && Idempotent(solved)
    ensures errors == [] <==> Unifiable(cs)
    ensures errors == [] ==> Unifies(solved, cs) && MostGeneral(solved, cs)
    ensures forall k :: k in solved ==> k in ConstraintVars(cs) && Vars(solved[k]) <= ConstraintVars(cs)
    ensures Scoped(cs, ConstraintVars(cs)) && Run(map[], cs, ConstraintVars(cs)) == Outcome(solved, errors) && Accounted(solved, cs, errors)
  {
    hide Run, Faithful, Accounted, Apply, Vars, Unifies, Unifiable, MostGeneral, Idempotent;
    var scope := ConstraintVars(cs);
    SolvedIdempotent(b, solved, stamp);
    DrainedMeaning(cs, b, solved, stamp, errors == []);
    EndOfCourse(cs, solved, errors, scope);
    forall k | k in solved ensures Vars(solved[k]) <= scope { SolvedWithin(b, solved, stamp, scope, arity, k); }
  }

  lemma SolvedWithin(b: Bindings, solved: Bindings, stamp: map<nat, nat>, scope: set<nat>, arity: map<string, nat>, k: nat)
    requires Triangular(b, solved, stamp) && BindingsFit(b, scope, arity) && k in solved
    ensures Vars(solved[k]) <= scope
  {
    assert k in b && b.Keys <= scope;
    SolvedScoped(b, solved, stamp, scope, arity, Var(k));
  }

  lemma StartInv(cs: seq<Constraint>, work: seq<Constraint>, scope: set<nat>, arity: map<string, nat>)
    requires Equivalent(cs, work, map[]) && Fits(work, scope, arity)
    ensures Inv(cs, work, map[], map[], map[], scope, arity, true)
  {
  }

  lemma StartOnCourse(cs: seq<Constraint>, work: seq<Constraint>, scope: set<nat>)
    requires Pending(work) == cs && Scoped(cs, scope)
    ensures OnCourse(cs, work, map[], [], scope)
  {
    hide Run;
    var o := Run(map[], cs, scope);
    assert [] + o.errors == o.errors;
  }

  lemma EndOfCourse(cs: seq<Constraint>, solved: Bindings, errors: seq<Diagnostic>, scope: set<nat>)
    requires OnCourse(cs, [], solved, errors, scope)
    ensures Run(map[], cs, scope) == Outcome(solved, errors) && Accounted(solved, cs, errors)
  {
    RunNone(solved, scope);
    RunAccounted(map[], cs, scope);
    assert errors + [] == errors;
  }

  /** The body of the main loop: pop a pair, resolve its heads, and act on them. */
  method SolveTop(ghost cs: seq<Constraint>, before: seq<Constraint>, bindings: Bindings, errors: seq<Diagnostic>,
                  ghost solved: Bindings, ghost stamp: map<nat, nat>, ghost scope: set<nat>, ghost arity: map<string, nat>)
    returns (work: seq<Constraint>, bindings': Bindings, errors': seq<Diagnostic>,
             ghost solved': Bindings, ghost stamp': map<nat, nat>)
    requires before != [] && Inv(cs, before, bindings, solved, stamp, scope, arity, errors == []) && OnCourse(cs, before, solved, errors, scope)
    ensures Inv(cs, work, bindings', solved', stamp', scope, arity, errors' == [])
    ensures Smaller(bindings', solved', work, bindings, solved, before, scope)
    ensures OnCourse(cs, work, solved', errors', scope)
  {
    hide OnCourse, Turn, TurnOf, BindOrReport, Extended, Apply, Vars, SameHead, Triangular, PushPairs, WorkSize, Faithful, Mismatch;
    bindings', errors', solved', stamp' := bindings, errors, solved, stamp;
    var top := before[|before| - 1];
    work := before[..|before| - 1];
    var a := ResolveHead(bindings, top.lhs, solved, stamp, scope, arity);
    var b := ResolveHead(bindings, top.rhs, solved, stamp, scope, arity);
    assert Popped(before, work, a, b, bindings, solved);
    ghost var clean := errors == [];
    PoppedTurn(before, work, a, b, bindings, solved, stamp);
    VarItself(a);
    VarItself(b);

    if a.Var? && a == b {
      EqualOnCourse(cs, before, solved, errors, scope);
      EqualArm(cs, before, work, a, bindings, solved, stamp, scope, arity, clean);
    } else if a.Var? {
      BindOnCourse(cs, before, a.id, Apply(solved, b), solved, errors, scope);
      if OccursIn(bindings, a.id, b, solved, stamp) {
        OccursArm(cs, before, work, a.id, b, a, b, bindings, solved, stamp, scope, arity, clean);
        errors' := errors + [RecursiveUnification(DeepResolve(bindings, b, solved, stamp))];
      } else {
        BindArm(cs, before, work, a.id, b, a, b, bindings, solved, stamp, scope, arity, clean);
        bindings', solved', stamp' := bindings[a.id := b], Extended(solved, a.id, Apply(solved, b)), stamp[a.id := |bindings|];
      }
    } else if b.Var? {
      BindOnCourse(cs, before, b.id, Apply(solved, a), solved, errors, scope);
      if OccursIn(bindings, b.id, a, solved, stamp) {
        OccursArm(cs, before, work, b.id, a, a, b, bindings, solved, stamp, scope, arity, clean);
        errors' := errors + [RecursiveUnification(DeepResolve(bindings, a, solved, stamp))];
      } else {
        BindArm(cs, before, work, b.id, a, a, b, bindings, solved, stamp, scope, arity, clean);
        bindings', solved', stamp' := bindings[b.id := a], Extended(solved, b.id, Apply(solved, a)), stamp[b.id := |bindings|];
      }
    } else {
      var reports: seq<Diagnostic>;
      work, reports := MatchHeads(work, a, b, bindings, solved, stamp);
      assert errors + [] == errors;
      if reports == [] {
        KidsOnCourse(cs, before, a, b, solved, errors, scope);
        KidsArm(cs, before, before[..|before| - 1], a, b, bindings, solved, stamp, scope, arity, clean);
      } else {
        ClashOnCourse(cs, before, reports[0], solved, errors, scope);
        ClashArm(cs, before, work, a, b, bindings, solved, stamp, scope, arity, clean);
      }
      errors' := errors + reports;
    }
  }

  /** Two heads that are not variables: push the children, or report the mismatch. */
  method MatchHeads(rest: seq<Constraint>, a: Type, b: Type, bindings: Bindings,
                    ghost solved: Bindings, ghost stamp: map<nat, nat>)
    returns (work: seq<Constraint>, reports: seq<Diagnostic>)
    requires !a.Var? && !b.Var? && Triangular(bindings, solved, stamp)
    requires a.Enum? && b.Enum? && a.name == b.name ==> |a.args| == |b.args|
    ensures reports == [] <==> SameHead(a, b)
    ensures reports == [] ==> work == PushPairs(rest, Kids(a), Kids(b))
    ensures reports != [] ==> work == rest && reports == [Mismatch(Apply(solved, a), Apply(solved, b))]
  {
    MismatchResolved(a, b, solved);
    hide Apply, DeepResolve, Triangular, PushPairs;
    work, reports := rest, [];
    match a {
      case Fun(p1, r1) =>
        if b.Fun? {
          if |p1| != |b.params| {
            reports := [ParamCountMismatch(|b.params|, |p1|)];
          } else {
            PushPairsLast(work, p1, b.params, r1, b.ret);
            work := work + [Eq(r1, b.ret)];
            work := PushPairs(work, p1, b.params);
          }
          return;
        }
      case List(x) =>
        if b.List? { PushOne(work, x, b.elem); work := work + [Eq(x, b.elem)]; return; }
      case Ref(x) =>
        if b.Ref? { PushOne(work, x, b.inner); work := work + [Eq(x, b.inner)]; return; }
      case Dict(k, v) =>
        if b.Dict? {
          PushTwo(work, k, b.key, v, b.value);
          work := work + [Eq(v, b.value)];
          work := work + [Eq(k, b.key)];
          return;
        }
      case Tuple(es) =>
        if b.Tuple? {
          if |es| != |b.elements| {
            reports := [TupleSizeMismatch(|b.elements|, |es|)];
          } else {
            work := PushPairs(work, es, b.elements);
          }
          return;
        }
      case Enum(name, args) =>
        if b.Enum? && b.name == name { work := PushPairs(work, args, b.args); return; }
      case _ =>
        if a == b { PushNone(work); return; }
    }
    reports := [TypeMismatch(DeepResolve(bindings, b, solved, stamp), DeepResolve(bindings, a, solved, stamp))];
  }

  lemma MismatchResolved(a: Type, b: Type, solved: Bindings)
    requires !a.Var? && !b.Var?
    ensures Mismatch(Apply(solved, a), Apply(solved, b)) ==
            if a.Fun? && b.Fun? && |a.params| != |b.params| then ParamCountMismatch(|b.params|, |a.params|)
            else if a.Tuple? && b.Tuple? then TupleSizeMismatch(|b.elements|, |a.elements|)
            else TypeMismatch(Apply(solved, b), Apply(solved, a))
  {
  }

  lemma PushNone(work: seq<Constraint>)
    ensures PushPairs(work, [], []) == work
  {
  }

  lemma PushOne(work: seq<Constraint>, x: Type, y: Type)
    ensures PushPairs(work, [x], [y]) == work + [Eq(x, y)]
  {
    assert PushPairs(work, [x], [y]) == PushPairs(work, [], []) + [Eq(x, y)];
  }

  lemma PushTwo(work: seq<Constraint>, k1: Type, k2: Type, v1: Type, v2: Type)
    ensures PushPairs(work, [k1, v1], [k2, v2]) == work + [Eq(v1, v2)] + [Eq(k1, k2)]
  {
    assert [k1, v1][1..] == [v1] && [k2, v2][1..] == [v2];
    assert PushPairs(work, [v1], [v2]) == PushPairs(work, [], []) + [Eq(v1, v2)];
  }

  /** One deep resolution per bound variable: the chained map becomes its solved form. */
  method Normalise(b: Bindings, ghost solved: Bindings, ghost stamp: map<nat, nat>) returns (s: Bindings)
    requires Triangular(b, solved, stamp)
    ensures s == solved
  {
    hide Apply, Ground, Stamped;
    s := map[];
    var keys := b.Keys;
    while keys != {}
      invariant keys <= b.Keys && s.Keys == b.Keys - keys
      invariant forall k :: k in s ==> s[k] == solved[k]
      decreases |keys|
    {
      var k :| k in keys;
      assert SolvesAt(b, solved, k);
      s := s[k := DeepResolve(b, b[k], solved, stamp)];
      keys := keys - {k};
    }
    assert s.Keys == solved.Keys;
  }

  lemma SeedEquivalent(cs: seq<Constraint>, work: seq<Constraint>)
    requires |work| == |cs| && forall k :: 0 <= k < |work| ==> work[k] == cs[|cs| - 1 - k]
    ensures Equivalent(cs, work, map[])
  {
    forall c | c in cs ensures c in work {
      var i :| 0 <= i < |cs| && cs[i] == c;
      assert work[|cs| - 1 - i] == c;
    }
  }

  lemma SeedFits(cs: seq<Constraint>, work: seq<Constraint>, scope: set<nat>, arity: map<string, nat>)
    requires |work| == |cs| && forall k :: 0 <= k < |work| ==> work[k] == cs[|cs| - 1 - k]
    requires Fits(cs, scope, arity)
    ensures Fits(work, scope, arity)
  {
  }

  lemma PoppedFits(before: seq<Constraint>, rest: seq<Constraint>, top: Constraint, scope: set<nat>, arity: map<string, nat>)
    requires |before| > 0 && rest == before[..|before| - 1] && top == before[|before| - 1]
    requires Fits(before, scope, arity)
    ensures Fits(rest, scope, arity)
    ensures Vars(top.lhs) <= scope && Vars(top.rhs) <= scope && Arities(top.lhs, arity) && Arities(top.rhs, arity)
  {
    assert top in before;
    assert forall c :: c in rest ==> c in before;
  }

  /** What the loop has established once the worklist is empty. */
  lemma DrainedMeaning(cs: seq<Constraint>, b: Bindings, solved: Bindings, stamp: map<nat, nat>, clean: bool)
    requires Triangular(b, solved, stamp) && Faithful(cs, [], b, clean)
    ensures clean <==> Unifiable(cs)
    ensures clean ==> Unifies(solved, cs) && MostGeneral(solved, cs)
  {
    if clean {
      SolvedRespects(b, solved, stamp);
      assert Unifies(solved, cs);
      forall f, t | Unifies(f, cs) ensures Apply(f, Apply(solved, t)) == Apply(f, t) {
        RespectsSolved(f, b, solved, stamp, t);
      }
    }
  }

  /** The solver introduces no variable: solved types stay within the constraints' scope. */
  lemma {:induction false} SolvedScoped(b: Bindings, solved: Bindings, stamp: map<nat, nat>,
                                        scope: set<nat>, arity: map<string, nat>, t: Type)
    requires Triangular(b, solved, stamp) && BindingsFit(b, scope, arity) && Vars(t) <= scope
    ensures Vars(Apply(solved, t)) <= scope
    decreases Size(Apply(solved, t)), ChainLeft(b, stamp, t)
  {
    if t.Var? {
      if t.id in b { assert SolvesAt(b, solved, t.id); SolvedScoped(b, solved, stamp, scope, arity, b[t.id]); }
    } else {
      ApplyKids(solved, t);
      VarsOfKids(Apply(solved, t));
      forall i | 0 <= i < |Kids(t)| ensures Vars(Apply(solved, Kids(t)[i])) <= scope {
        ApplyKidSmaller(solved, t, Kids(t)[i]);
        VarsOfKid(t, Kids(t)[i]);
        SolvedScoped(b, solved, stamp, scope, arity, Kids(t)[i]);
      }
    }
  }
}
