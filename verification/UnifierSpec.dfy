/** What solving a list of equality constraints comes to: the simple solver, which keeps its
    substitution solved at every step, and what its diagnostics say about its result. */
module UnifierSpec {
  import opened Types

  datatype Constraint = Eq(lhs: Type, rhs: Type)

  datatype Diagnostic =
    | RecursiveUnification(ty: Type)
    | ParamCountMismatch(expectedCount: nat, foundCount: nat)
    | TupleSizeMismatch(expectedSize: nat, foundSize: nat)
    | TypeMismatch(expected: Type, found: Type)

  ghost predicate Scoped(cs: seq<Constraint>, scope: set<nat>) {
    forall c :: c in cs ==> Vars(c.lhs) <= scope && Vars(c.rhs) <= scope
  }

  /** The constraints that equate two lists member by member. */
  ghost function Pairs(xs: seq<Type>, ys: seq<Type>): (r: seq<Constraint>)
    requires |xs| == |ys|
    ensures |r| == |xs| && forall i :: 0 <= i < |xs| ==> r[i] == Eq(xs[i], ys[i])
  {
    if xs == [] then [] else [Eq(xs[0], ys[0])] + Pairs(xs[1..], ys[1..])
  }

  /** The one diagnostic owed to two resolved types whose heads differ: a count when only the
      number of members differs, the types otherwise. */
  ghost function Mismatch(a: Type, b: Type): Diagnostic {
    if a.Fun? && b.Fun? && |a.params| != |b.params| then ParamCountMismatch(|b.params|, |a.params|)
    else if a.Tuple? && b.Tuple? then TupleSizeMismatch(|b.elements|, |a.elements|)
    else TypeMismatch(b, a)
  }

  /** The solved substitution after `n` is bound to the resolved type `u`. */
  ghost function Extended(solved: Bindings, n: nat, u: Type): Bindings {
    (map k | k in solved :: Apply(map[n := u], solved[k]))[n := u]
  }

  lemma ExtendedComposes(solved: Bindings, n: nat, u: Type, t: Type)
    requires n !in solved
    ensures Apply(Extended(solved, n, u), t) == Apply(map[n := u], Apply(solved, t))
  {
    ApplyCompose(solved, map[n := u], Extended(solved, n, u), t);
  }

  lemma VarsAfterOne(n: nat, u: Type, t: Type)
    ensures Vars(Apply(map[n := u], t)) <= Vars(t) - {n} + Vars(u)
  {
    VarsOfApply(map[n := u], t, Vars(t) - {n} + Vars(u));
  }

  lemma ExtendedKeys(solved: Bindings, n: nat, u: Type)
    ensures Extended(solved, n, u).Keys == solved.Keys + {n}
  {
  }

  // ----- the simple solver -----

  /** The substitution is solved, over variables in `scope`. */
  ghost predicate Solved(s: Bindings, scope: set<nat>) {
    s.Keys <= scope && forall k :: k in s ==> Vars(s[k]) <= scope - s.Keys
  }

  /** How many variables are not bound yet. */
  ghost function Unbound(s: Bindings, scope: set<nat>): nat { |scope - s.Keys| }

  lemma ResolvedVars(s: Bindings, scope: set<nat>, t: Type)
    requires Solved(s, scope) && Vars(t) <= scope
    ensures Vars(Apply(s, t)) <= scope - s.Keys
  {
    VarsOfApply(s, t, scope - s.Keys);
  }

  lemma SolvedAfterBind(s: Bindings, scope: set<nat>, n: nat, u: Type)
    requires Solved(s, scope) && n in scope && n !in s && Vars(u) <= scope - s.Keys && n !in Vars(u)
    ensures Solved(Extended(s, n, u), scope) && Unbound(Extended(s, n, u), scope) < Unbound(s, scope)
  {
    var s' := Extended(s, n, u);
    ExtendedKeys(s, n, u);
    hide Vars, Apply, Extended;
    KeysLeft(s.Keys, s'.Keys, scope, n);
    forall k | k in s' ensures Vars(s'[k]) <= scope - s'.Keys { ExtendedVars(s, scope, n, u, k); }
  }

  lemma KeysLeft(keys: set<nat>, keys': set<nat>, scope: set<nat>, n: nat)
    requires n in scope && n !in keys && keys' == keys + {n}
    ensures scope - keys' == scope - keys - {n} && |scope - keys'| < |scope - keys|
  {
    assert n in scope - keys && n !in scope - keys';
    SmallerSet(scope - keys', scope - keys);
  }

  lemma ExtendedVars(s: Bindings, scope: set<nat>, n: nat, u: Type, k: nat)
    requires Solved(s, scope) && n in scope && n !in s && Vars(u) <= scope - s.Keys && n !in Vars(u) && k in Extended(s, n, u)
    ensures Vars(Extended(s, n, u)[k]) <= scope - s.Keys - {n}
  {
    if k != n { VarsAfterOne(n, u, s[k]); }
  }

  lemma SmallerSet(x: set<nat>, y: set<nat>)
    requires x < y
    ensures |x| < |y|
  {
    var v :| v in y && v !in x;
    assert x <= y - {v};
    SubsetSize(x, y - {v});
  }

  lemma SubsetSize(x: set<nat>, y: set<nat>)
    requires x <= y
    ensures |x| <= |y|
  {
    if x != {} {
      var v :| v in x;
      SubsetSize(x - {v}, y - {v});
    }
  }

  ghost function TotalSize(s: Bindings, cs: seq<Constraint>): nat {
    if cs == [] then 0 else Size(Apply(s, cs[0].lhs)) + Size(Apply(s, cs[0].rhs)) + TotalSize(s, cs[1..])
  }

  /** What a pair of resolved types calls for: its members to be solved in turn (none, if they
      are one variable), a variable to be bound, or a diagnostic. */
  datatype Action = Descend(members: seq<Constraint>) | Bind(id: nat, ty: Type) | Report(diagnostic: Diagnostic)

  /** An unbound variable is bound, the left one if both sides are variables. A variable that
      occurs in the other side and heads that differ are reported. */
  ghost function Turn(a: Type, b: Type): Action {
    if a.Var? && a == b then Descend([])
    else if a.Var? then BindOrReport(a.id, b)
    else if b.Var? then BindOrReport(b.id, a)
    else if SameHead(a, b) then Descend(Pairs(Kids(a), Kids(b)))
    else Report(Mismatch(a, b))
  }

  ghost function BindOrReport(n: nat, u: Type): Action {
    if n in Vars(u) then Report(RecursiveUnification(u)) else Bind(n, u)
  }

  datatype Outcome = Outcome(subst: Bindings, errors: seq<Diagnostic>)

  ghost function Reporting(d: Diagnostic, o: Outcome): Outcome { Outcome(o.subst, [d] + o.errors) }

  /** The constraints one after another, each resolved in full before its turn, and its members
      before the next one. */
  ghost function Run(s: Bindings, cs: seq<Constraint>, scope: set<nat>): Outcome
    requires Solved(s, scope) && Scoped(cs, scope)
    decreases Unbound(s, scope), TotalSize(s, cs), |cs|
  {
    if cs == [] then Outcome(s, [])
    else
      HeadInScope(s, cs, scope);
      match TurnOf(s, cs[0])
      case Descend(members) => Run(s, members + cs[1..], scope)
      case Bind(n, u) => Run(Extended(s, n, u), cs[1..], scope)
      case Report(d) => Reporting(d, Run(s, cs[1..], scope))
  }

  ghost function TurnOf(s: Bindings, c: Constraint): Action { Turn(Apply(s, c.lhs), Apply(s, c.rhs)) }

  /** The action stays in scope and leaves less to do. */
  ghost predicate Stays(s: Bindings, action: Action, cs: seq<Constraint>, scope: set<nat>)
    requires cs != []
  {
    && (action.Descend? ==> Scoped(action.members + cs[1..], scope) && TotalSize(s, action.members + cs[1..]) < TotalSize(s, cs))
    && (action.Bind? ==>
          && action.id in scope && action.id !in s
          && Solved(Extended(s, action.id, action.ty), scope) && Unbound(Extended(s, action.id, action.ty), scope) < Unbound(s, scope))
  }

  lemma HeadInScope(s: Bindings, cs: seq<Constraint>, scope: set<nat>)
    requires Solved(s, scope) && Scoped(cs, scope) && cs != []
    ensures Scoped(cs[1..], scope) && TotalSize(s, cs[1..]) < TotalSize(s, cs)
    ensures Stays(s, TurnOf(s, cs[0]), cs, scope)
  {
    var c, rest := cs[0], cs[1..];
    assert c in cs && forall d :: d in rest ==> d in cs;
    ResolvedVars(s, scope, c.lhs);
    ResolvedVars(s, scope, c.rhs);
    TurnStays(s, Apply(s, c.lhs), Apply(s, c.rhs), rest, scope);
  }

  lemma TurnStays(s: Bindings, a: Type, b: Type, rest: seq<Constraint>, scope: set<nat>)
    requires Solved(s, scope) && Scoped(rest, scope) && Vars(a) <= scope - s.Keys && Vars(b) <= scope - s.Keys
    ensures var action := Turn(a, b);
            && (action.Descend? ==> Scoped(action.members + rest, scope) && TotalSize(s, action.members + rest) < Size(a) + Size(b) + TotalSize(s, rest))
            && (action.Bind? ==>
                  && action.id in scope && action.id !in s
                  && Solved(Extended(s, action.id, action.ty), scope) && Unbound(Extended(s, action.id, action.ty), scope) < Unbound(s, scope))
  {
    VarItself(a);
    VarItself(b);
    hide Apply, Extended, Solved, Scoped, Vars, TotalSize, Pairs, SameHead, Kids, Mismatch, Unbound;
    if a.Var? && a == b {
      assert [] + rest == rest;
    } else if !a.Var? && !b.Var? {
      if SameHead(a, b) { KidsInScope(s, a, b, rest, scope); }
    } else if Turn(a, b).Bind? {
      SolvedAfterBind(s, scope, Turn(a, b).id, Turn(a, b).ty);
    }
  }

  lemma VarItself(t: Type)
    ensures t.Var? ==> t.id in Vars(t)
  {
  }

  lemma KidsInScope(s: Bindings, a: Type, b: Type, rest: seq<Constraint>, scope: set<nat>)
    requires Scoped(rest, scope) && SameHead(a, b) && Vars(a) <= scope - s.Keys && Vars(b) <= scope - s.Keys
    ensures Scoped(Pairs(Kids(a), Kids(b)) + rest, scope)
    ensures TotalSize(s, Pairs(Kids(a), Kids(b)) + rest) < Size(a) + Size(b) + TotalSize(s, rest)
  {
    forall i | 0 <= i < |Kids(a)| ensures Vars(Kids(a)[i]) <= scope - s.Keys && Vars(Kids(b)[i]) <= scope - s.Keys {
      VarsOfKid(a, Kids(a)[i]);
      VarsOfKid(b, Kids(b)[i]);
    }
    PairsSize(s, Kids(a), Kids(b), rest, scope);
    SizeIsKids(a);
    SizeIsKids(b);
  }

  lemma {:induction false} PairsSize(s: Bindings, xs: seq<Type>, ys: seq<Type>, rest: seq<Constraint>, scope: set<nat>)
    requires |xs| == |ys|
    requires forall i :: 0 <= i < |xs| ==> Vars(xs[i]) !! s.Keys && Vars(ys[i]) !! s.Keys
    ensures TotalSize(s, Pairs(xs, ys) + rest) == SizeAll(xs) + SizeAll(ys) + TotalSize(s, rest)
  {
    if xs == [] {
      assert Pairs(xs, ys) + rest == rest;
    } else {
      PairsSize(s, xs[1..], ys[1..], rest, scope);
      assert Pairs(xs, ys) + rest == [Eq(xs[0], ys[0])] + (Pairs(xs[1..], ys[1..]) + rest);
      assert ([Eq(xs[0], ys[0])] + (Pairs(xs[1..], ys[1..]) + rest))[1..] == Pairs(xs[1..], ys[1..]) + rest;
      ApplyFixed(s, xs[0]);
      ApplyFixed(s, ys[0]);
    }
  }

  // ----- laws of the simple solver -----

  /** Lists that resolve alike. */
  ghost predicate Alike(s: Bindings, cs: seq<Constraint>, ds: seq<Constraint>) {
    |cs| == |ds| && forall i :: 0 <= i < |cs| ==> Apply(s, cs[i].lhs) == Apply(s, ds[i].lhs) && Apply(s, cs[i].rhs) == Apply(s, ds[i].rhs)
  }

  lemma AlikeExtended(s: Bindings, n: nat, u: Type, cs: seq<Constraint>, ds: seq<Constraint>)
    requires Alike(s, cs, ds) && n !in s
    ensures Alike(Extended(s, n, u), cs, ds)
  {
    hide Apply, Extended;
    forall i | 0 <= i < |cs|
      ensures Apply(Extended(s, n, u), cs[i].lhs) == Apply(Extended(s, n, u), ds[i].lhs)
      ensures Apply(Extended(s, n, u), cs[i].rhs) == Apply(Extended(s, n, u), ds[i].rhs)
    {
      ExtendedComposes(s, n, u, cs[i].lhs);
      ExtendedComposes(s, n, u, ds[i].lhs);
      ExtendedComposes(s, n, u, cs[i].rhs);
      ExtendedComposes(s, n, u, ds[i].rhs);
    }
  }

  lemma AlikeBehind(s: Bindings, members: seq<Constraint>, cs: seq<Constraint>, ds: seq<Constraint>)
    requires Alike(s, cs, ds)
    ensures Alike(s, members + cs, members + ds)
  {
    hide Apply;
  }

  /** The solver sees constraints only as they resolve. */
  lemma {:induction false} RunAlike(s: Bindings, cs: seq<Constraint>, ds: seq<Constraint>, scope: set<nat>)
    requires Solved(s, scope) && Scoped(cs, scope) && Scoped(ds, scope) && Alike(s, cs, ds)
    ensures Run(s, cs, scope) == Run(s, ds, scope)
    decreases Unbound(s, scope), TotalSize(s, cs), |cs|
  {
    hide Apply, Extended, Turn, Solved, Scoped, TotalSize, Unbound;
    if cs != [] {
      HeadInScope(s, cs, scope);
      HeadInScope(s, ds, scope);
      assert TurnOf(s, cs[0]) == TurnOf(s, ds[0]) && Alike(s, cs[1..], ds[1..]);
      match TurnOf(s, cs[0])
      case Descend(members) =>
        AlikeBehind(s, members, cs[1..], ds[1..]);
        RunAlike(s, members + cs[1..], members + ds[1..], scope);
      case Bind(n, u) =>
        AlikeExtended(s, n, u, cs[1..], ds[1..]);
        RunAlike(Extended(s, n, u), cs[1..], ds[1..], scope);
      case Report(_) => RunAlike(s, cs[1..], ds[1..], scope);
    }
  }

  /** The result is solved, and no variable once bound comes loose. */
  lemma {:induction false} RunSolved(s: Bindings, cs: seq<Constraint>, scope: set<nat>)
    requires Solved(s, scope) && Scoped(cs, scope)
    ensures Solved(Run(s, cs, scope).subst, scope) && s.Keys <= Run(s, cs, scope).subst.Keys
    ensures cs != [] && TurnOf(s, cs[0]).Bind? ==> TurnOf(s, cs[0]).id in Run(s, cs, scope).subst
    decreases Unbound(s, scope), TotalSize(s, cs), |cs|
  {
    hide Apply, Extended, Turn, Solved, Scoped, TotalSize, Unbound;
    if cs != [] {
      HeadInScope(s, cs, scope);
      match TurnOf(s, cs[0])
      case Descend(members) => RunSolved(s, members + cs[1..], scope);
      case Bind(n, u) =>
        ExtendedKeys(s, n, u);
        RunSolved(Extended(s, n, u), cs[1..], scope);
      case Report(_) => RunSolved(s, cs[1..], scope);
    }
  }

  ghost function Then(o: Outcome, ds: seq<Constraint>, scope: set<nat>): Outcome
    requires Solved(o.subst, scope) && Scoped(ds, scope)
  {
    var more := Run(o.subst, ds, scope);
    Outcome(more.subst, o.errors + more.errors)
  }

  lemma ThenReporting(d: Diagnostic, o: Outcome, ds: seq<Constraint>, scope: set<nat>)
    requires Solved(o.subst, scope) && Scoped(ds, scope)
    ensures Then(Reporting(d, o), ds, scope) == Reporting(d, Then(o, ds, scope))
  {
    hide Run;
    var more := Run(o.subst, ds, scope);
    assert ([d] + o.errors) + more.errors == [d] + (o.errors + more.errors);
  }

  /** Constraints are solved in order: first some, then the others from what came of them. */
  lemma {:induction false} RunInOrder(s: Bindings, cs: seq<Constraint>, ds: seq<Constraint>, scope: set<nat>)
    requires Solved(s, scope) && Scoped(cs, scope) && Scoped(ds, scope)
    ensures Scoped(cs + ds, scope) && Solved(Run(s, cs, scope).subst, scope)
    ensures Run(s, cs + ds, scope) == Then(Run(s, cs, scope), ds, scope)
    decreases Unbound(s, scope), TotalSize(s, cs), |cs|
  {
    RunSolved(s, cs, scope);
    ScopedConcat(cs, ds, scope);
    hide Apply, Extended, Turn, TurnOf, Solved, Scoped, TotalSize, Unbound, Then, Reporting, Run;
    if cs == [] {
      NothingFirst(s, ds, scope);
      assert cs + ds == ds;
    } else {
      HeadInScope(s, cs, scope);
      RunStep(s, cs, scope);
      ScopedConcat(cs[1..], ds, scope);
      if TurnOf(s, cs[0]).Descend? { ScopedConcat(TurnOf(s, cs[0]).members + cs[1..], ds, scope); }
      StepBefore(s, cs, ds, scope);
      var action := TurnOf(s, cs[0]);
      if action.Descend? {
        RunInOrder(s, action.members + cs[1..], ds, scope);
      } else if action.Bind? {
        RunInOrder(Extended(s, action.id, action.ty), cs[1..], ds, scope);
      } else {
        RunInOrder(s, cs[1..], ds, scope);
        ThenReporting(action.diagnostic, Run(s, cs[1..], scope), ds, scope);
      }
    }
  }

  lemma StepBefore(s: Bindings, cs: seq<Constraint>, ds: seq<Constraint>, scope: set<nat>)
    requires Solved(s, scope) && Scoped(cs + ds, scope) && cs != [] && Stays(s, TurnOf(s, cs[0]), cs, scope) && Scoped(cs[1..] + ds, scope)
    requires TurnOf(s, cs[0]).Descend? ==> Scoped((TurnOf(s, cs[0]).members + cs[1..]) + ds, scope)
    ensures var action := TurnOf(s, cs[0]);
            && (action.Descend? ==> Run(s, cs + ds, scope) == Run(s, (action.members + cs[1..]) + ds, scope))
            && (action.Bind? ==> Run(s, cs + ds, scope) == Run(Extended(s, action.id, action.ty), cs[1..] + ds, scope))
            && (action.Report? ==> Run(s, cs + ds, scope) == Reporting(action.diagnostic, Run(s, cs[1..] + ds, scope)))
  {
    hide Apply, Extended, Turn, TurnOf, Solved, Scoped, TotalSize, Unbound, Reporting, Run;
    assert (cs + ds)[0] == cs[0] && (cs + ds)[1..] == cs[1..] + ds;
    HeadInScope(s, cs + ds, scope);
    RunStep(s, cs + ds, scope);
    if TurnOf(s, cs[0]).Descend? {
      var members := TurnOf(s, cs[0]).members;
      assert (members + cs[1..]) + ds == members + (cs[1..] + ds);
    }
  }

  lemma ScopedConcat(cs: seq<Constraint>, ds: seq<Constraint>, scope: set<nat>)
    requires Scoped(cs, scope) && Scoped(ds, scope)
    ensures Scoped(cs + ds, scope)
  {
  }

  lemma NothingFirst(s: Bindings, ds: seq<Constraint>, scope: set<nat>)
    requires Solved(s, scope) && Scoped(ds, scope)
    ensures Scoped([], scope) && Solved(Run(s, [], scope).subst, scope) && Run(s, ds, scope) == Then(Run(s, [], scope), ds, scope)
  {
    assert Run(s, [], scope) == Outcome(s, []);
    assert [] + Run(s, ds, scope).errors == Run(s, ds, scope).errors;
  }

  lemma RunStep(s: Bindings, cs: seq<Constraint>, scope: set<nat>)
    requires Solved(s, scope) && Scoped(cs, scope) && cs != [] && Stays(s, TurnOf(s, cs[0]), cs, scope) && Scoped(cs[1..], scope)
    ensures var action := TurnOf(s, cs[0]);
            && (action.Descend? ==> Run(s, cs, scope) == Run(s, action.members + cs[1..], scope))
            && (action.Bind? ==> Run(s, cs, scope) == Run(Extended(s, action.id, action.ty), cs[1..], scope))
            && (action.Report? ==> Run(s, cs, scope) == Reporting(action.diagnostic, Run(s, cs[1..], scope)))
  {
    hide Apply, Extended, Turn, Solved, Scoped, TotalSize, Unbound;
  }

  /** Wherever a constraint stands, if its left side has come to a variable by then, that one
      is bound, unless it occurs in the right side; the right side's only otherwise. */
  lemma LeftIsBound(before: seq<Constraint>, c: Constraint, after: seq<Constraint>, scope: set<nat>)
    requires Scoped(before, scope) && Scoped([c] + after, scope)
    ensures Scoped(before + ([c] + after), scope)
    ensures var s, s' := Run(map[], before, scope).subst, Run(map[], before + ([c] + after), scope).subst;
            var a, b := Apply(s, c.lhs), Apply(s, c.rhs);
            && (a.Var? && a.id !in Vars(b) ==> a.id in s')
            && (!a.Var? && b.Var? && b.id !in Vars(a) ==> b.id in s')
  {
    RunInOrder(map[], before, [c] + after, scope);
    RunSolved(Run(map[], before, scope).subst, [c] + after, scope);
  }

  // ----- what the diagnostics say about the result -----

  /** The diagnostic is the one due to two types that have come to `x` and `y` under `f`: their
      heads differ, in number of members or otherwise, or one is a variable of the other. */
  ghost predicate Names(f: Bindings, d: Diagnostic, x: Type, y: Type) {
    match d
    case RecursiveUnification(t) => exists n :: n in Vars(t) && t != Var(n) && Sides(f, n, t, x, y)
    case ParamCountMismatch(e, g) => x.Fun? && y.Fun? && |y.params| == e != g == |x.params|
    case TupleSizeMismatch(e, g) => x.Tuple? && y.Tuple? && |y.elements| == e != g == |x.elements|
    case TypeMismatch(e, g) => Apply(f, g) == x && Apply(f, e) == y && !SameHead(x, y) && !(x.Fun? && y.Fun?) && !(x.Tuple? && y.Tuple?)
  }

  ghost predicate Sides(f: Bindings, n: nat, t: Type, x: Type, y: Type) {
    (x == Apply(f, Var(n)) && y == Apply(f, t)) || (y == Apply(f, Var(n)) && x == Apply(f, t))
  }

  /** The diagnostics account for two types: none, and they are equal; one that is due to them;
      or those that account for their members, where their heads agree. */
  ghost predicate Explained(f: Bindings, x: Type, y: Type, ds: seq<Diagnostic>)
    decreases x, 1, 0
  {
    || (ds == [] && x == y)
    || (|ds| == 1 && Names(f, ds[0], x, y))
    || (SameHead(x, y) && ExplainedAll(f, x, Kids(x), Kids(y), ds))
  }

  /** Two lists of members, one pair after the other. */
  ghost predicate ExplainedAll(f: Bindings, parent: Type, xs: seq<Type>, ys: seq<Type>, ds: seq<Diagnostic>)
    requires forall x :: x in xs ==> x in Kids(parent)
    decreases parent, 0, |xs|
  {
    if xs == [] || ys == [] then xs == [] && ys == [] && ds == []
    else
      KidSmaller(parent, xs[0]);
      exists k :: 0 <= k <= |ds| && Explained(f, xs[0], ys[0], ds[..k]) && ExplainedAll(f, parent, xs[1..], ys[1..], ds[k..])
  }

  /** The diagnostics account for the constraints under `f`, one after the other. */
  ghost predicate Accounted(f: Bindings, cs: seq<Constraint>, ds: seq<Diagnostic>) {
    if cs == [] then ds == []
    else exists k :: 0 <= k <= |ds| && ExplainedBy(f, cs[0], ds, k) && Accounted(f, cs[1..], ds[k..])
  }

  ghost predicate ExplainedBy(f: Bindings, c: Constraint, ds: seq<Diagnostic>, k: nat)
    requires k <= |ds|
  {
    Explained(f, Apply(f, c.lhs), Apply(f, c.rhs), ds[..k])
  }

  /** A solved substitution resolves in one go. */
  lemma ResolvesOnce(s: Bindings, scope: set<nat>, t: Type)
    requires Solved(s, scope) && Vars(t) <= scope
    ensures Apply(s, Apply(s, t)) == Apply(s, t)
  {
    ResolvedVars(s, scope, t);
    ApplyFixed(s, Apply(s, t));
  }

  /** The final substitution sees no difference between a type and what it had come to. */
  lemma {:induction false} RunRefines(s: Bindings, cs: seq<Constraint>, scope: set<nat>, t: Type)
    requires Solved(s, scope) && Scoped(cs, scope) && Vars(t) <= scope
    ensures Apply(Run(s, cs, scope).subst, Apply(s, t)) == Apply(Run(s, cs, scope).subst, t)
    decreases Unbound(s, scope), TotalSize(s, cs), |cs|
  {
    ResolvesOnce(s, scope, t);
    ResolvedVars(s, scope, t);
    hide Apply, Extended, Turn, TurnOf, Solved, Scoped, TotalSize, Unbound, Vars, Run;
    if cs == [] {
      RunNone(s, scope);
    } else {
      HeadInScope(s, cs, scope);
      RunStep(s, cs, scope);
      var action := TurnOf(s, cs[0]);
      if action.Descend? {
        RunRefines(s, action.members + cs[1..], scope, t);
      } else if action.Bind? {
        var s' := Extended(s, action.id, action.ty);
        ExtendedComposes(s, action.id, action.ty, t);
        ExtendedComposes(s, action.id, action.ty, Apply(s, t));
        RunRefines(s', cs[1..], scope, t);
        RunRefines(s', cs[1..], scope, Apply(s, t));
      } else {
        RunRefines(s, cs[1..], scope, t);
      }
    }
  }

  lemma RunNone(s: Bindings, scope: set<nat>)
    requires Solved(s, scope) && Scoped([], scope)
    ensures Run(s, [], scope) == Outcome(s, [])
  {
  }

  lemma {:induction false} MembersAccounted(f: Bindings, a: Type, xs: seq<Type>, ys: seq<Type>, rest: seq<Constraint>, ds: seq<Diagnostic>) returns (k: nat)
    requires |xs| == |ys| && forall x :: x in ApplyAll(f, xs) ==> x in Kids(a)
    requires Accounted(f, Pairs(xs, ys) + rest, ds)
    ensures k <= |ds| && ExplainedAll(f, a, ApplyAll(f, xs), ApplyAll(f, ys), ds[..k]) && Accounted(f, rest, ds[k..])
    decreases |xs|
  {
    hide Explained, Names, Kids, Apply;
    var cs := Pairs(xs, ys) + rest;
    if xs == [] {
      assert cs == rest && ds[0..] == ds;
      k := 0;
    } else {
      assert cs[0] == Eq(xs[0], ys[0]) && cs[1..] == Pairs(xs[1..], ys[1..]) + rest;
      var j :| 0 <= j <= |ds| && ExplainedBy(f, cs[0], ds, j) && Accounted(f, cs[1..], ds[j..]);
      assert ApplyAll(f, xs)[1..] == ApplyAll(f, xs[1..]) && ApplyAll(f, ys)[1..] == ApplyAll(f, ys[1..]);
      var i := MembersAccounted(f, a, xs[1..], ys[1..], rest, ds[j..]);
      k := j + i;
      assert ds[j..][i..] == ds[k..] && ds[j..][..i] == ds[..k][j..] && ds[..k][..j] == ds[..j];
    }
  }

  lemma SameHeadKept(f: Bindings, a: Type, b: Type)
    requires !a.Var? && !b.Var?
    ensures SameHead(Apply(f, a), Apply(f, b)) <==> SameHead(a, b)
    ensures Kids(Apply(f, a)) == ApplyAll(f, Kids(a)) && Kids(Apply(f, b)) == ApplyAll(f, Kids(b))
  {
    ApplyKids(f, a);
    ApplyKids(f, b);
  }

  lemma MismatchNamed(f: Bindings, a: Type, b: Type)
    requires !a.Var? && !b.Var? && !SameHead(a, b)
    ensures Names(f, Mismatch(a, b), Apply(f, a), Apply(f, b))
  {
    SameHeadKept(f, a, b);
    ApplyKids(f, a);
    ApplyKids(f, b);
  }

  lemma RecursionNamed(f: Bindings, n: nat, u: Type, x: Type, y: Type)
    requires n in Vars(u) && u != Var(n) && Sides(f, n, u, x, y)
    ensures Names(f, RecursiveUnification(u), x, y)
  {
  }

  /** What one turn calls for accounts for its pair, once what follows is accounted for. */
  lemma ReportExplains(f: Bindings, a: Type, b: Type)
    requires Turn(a, b).Report?
    ensures Names(f, Turn(a, b).diagnostic, Apply(f, a), Apply(f, b))
  {
    hide Apply, Names, Vars, SameHead;
    if a.Var? {
      RecursionNamed(f, a.id, b, Apply(f, a), Apply(f, b));
    } else if b.Var? {
      RecursionNamed(f, b.id, a, Apply(f, a), Apply(f, b));
    } else {
      MismatchNamed(f, a, b);
    }
  }

  lemma FirstAccounted(f: Bindings, cs: seq<Constraint>, ds: seq<Diagnostic>, k: nat)
    requires cs != [] && k <= |ds| && ExplainedBy(f, cs[0], ds, k) && Accounted(f, cs[1..], ds[k..])
    ensures Accounted(f, cs, ds)
  {
  }

  /** The diagnostics of a run account for its constraints under the substitution it returns:
      exactly, and in order. */
  lemma {:induction false} RunAccounted(s: Bindings, cs: seq<Constraint>, scope: set<nat>)
    requires Solved(s, scope) && Scoped(cs, scope)
    ensures Accounted(Run(s, cs, scope).subst, cs, Run(s, cs, scope).errors)
    decreases Unbound(s, scope), TotalSize(s, cs), |cs|
  {
    hide Apply, Extended, Turn, Solved, Scoped, TotalSize, Unbound, Vars, Run, Accounted, ExplainedAll, Names, SameHead, Kids;
    if cs == [] {
      RunNone(s, scope);
      assert Accounted(Run(s, cs, scope).subst, cs, []) by { NothingAccounted(Run(s, cs, scope).subst, cs); }
    } else {
      HeadInScope(s, cs, scope);
      RunStep(s, cs, scope);
      var f, ds, c, a, b := Run(s, cs, scope).subst, Run(s, cs, scope).errors, cs[0], Apply(s, cs[0].lhs), Apply(s, cs[0].rhs);
      InScope(cs, scope);
      RunRefines(s, cs, scope, c.lhs);
      RunRefines(s, cs, scope, c.rhs);
      var action := TurnOf(s, c);
      if action.Descend? {
        RunAccounted(s, action.members + cs[1..], scope);
        DescendAccounted(f, cs, a, b, ds);
      } else if action.Bind? {
        RunAccounted(Extended(s, action.id, action.ty), cs[1..], scope);
        BoundAlike(s, cs, scope);
        assert ds[0..] == ds && ds[..0] == [];
        FirstAccounted(f, cs, ds, 0);
      } else {
        RunAccounted(s, cs[1..], scope);
        ReportExplains(f, a, b);
        assert ds[1..] == Run(s, cs[1..], scope).errors && ds[..1] == [action.diagnostic];
        FirstAccounted(f, cs, ds, 1);
      }
    }
  }

  lemma NothingAccounted(f: Bindings, cs: seq<Constraint>)
    requires cs == []
    ensures Accounted(f, cs, [])
  {
  }

  lemma InScope(cs: seq<Constraint>, scope: set<nat>)
    requires Scoped(cs, scope) && cs != []
    ensures Vars(cs[0].lhs) <= scope && Vars(cs[0].rhs) <= scope
  {
    assert cs[0] in cs;
  }

  /** After a binding the two sides come to the same type. */
  lemma BoundAlike(s: Bindings, cs: seq<Constraint>, scope: set<nat>)
    requires Solved(s, scope) && Scoped(cs, scope) && cs != [] && TurnOf(s, cs[0]).Bind?
    ensures var f := Run(s, cs, scope).subst; Apply(f, Apply(s, cs[0].lhs)) == Apply(f, Apply(s, cs[0].rhs))
  {
    HeadInScope(s, cs, scope);
    RunStep(s, cs, scope);
    InScope(cs, scope);
    ResolvedVars(s, scope, cs[0].lhs);
    ResolvedVars(s, scope, cs[0].rhs);
    var n, u := TurnOf(s, cs[0]).id, TurnOf(s, cs[0]).ty;
    var s' := Extended(s, n, u);
    BoundMeets(s, n, u, Apply(s, cs[0].lhs), Apply(s, cs[0].rhs));
    hide Run;
    RunRefines(s', cs[1..], scope, Apply(s, cs[0].lhs));
    RunRefines(s', cs[1..], scope, Apply(s, cs[0].rhs));
  }

  lemma BoundMeets(s: Bindings, n: nat, u: Type, a: Type, b: Type)
    requires Turn(a, b) == Bind(n, u) && n !in s && Vars(u) !! s.Keys
    ensures Apply(Extended(s, n, u), a) == Apply(Extended(s, n, u), b)
  {
    ExtendedComposes(s, n, u, u);
    ApplyFixed(s, u);
    ApplyFixed(map[n := u], u);
  }

  lemma DescendAccounted(f: Bindings, cs: seq<Constraint>, a: Type, b: Type, ds: seq<Diagnostic>)
    requires cs != [] && Turn(a, b).Descend? && Accounted(f, Turn(a, b).members + cs[1..], ds)
    requires Apply(f, a) == Apply(f, cs[0].lhs) && Apply(f, b) == Apply(f, cs[0].rhs)
    ensures Accounted(f, cs, ds)
  {
    hide Accounted, Apply;
    if a.Var? {
      assert [] + cs[1..] == cs[1..] && ds[0..] == ds && ds[..0] == [];
      FirstAccounted(f, cs, ds, 0);
    } else {
      SameHeadKept(f, a, b);
      var k := MembersAccounted(f, Apply(f, a), Kids(a), Kids(b), cs[1..], ds);
      FirstAccounted(f, cs, ds, k);
    }
  }
}
