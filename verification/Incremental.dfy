/** The module loader and its persistent cache of clean analyses. */
module Incremental {
  import opened Wrappers

  type Name = string

  datatype Analysis<+E, +D> = Analysis(exports: E, diagnostics: seq<D>)

  /** The parts of the compiler the loader calls. `imports` are a module's `use`s in
      order, `rejects` the structural import rules, `autos` the modules bound without a
      `use`; `analyze` sees a module's name and source and its dependencies' exports. */
  datatype Frontend<!S, !E, !D> = Frontend(
    imports: S -> seq<Name>, rejects: (Name, Name) -> bool, autos: (Name, S) -> seq<Name>,
    analyze: (Name, S, seq<E>) -> Analysis<E, D>, hash: S -> nat)

  datatype Entry<+E> = Entry(hash: nat, exports: E)

  function Accepted<S, E, D>(fe: Frontend<S, E, D>, m: Name, names: seq<Name>): seq<Name> {
    if names == [] then []
    else (if fe.rejects(m, names[0]) then [] else [names[0]]) + Accepted(fe, m, names[1..])
  }

  /** What a module is analyzed against, in loading order. */
  function Deps<S, E, D>(fe: Frontend<S, E, D>, m: Name, source: S): seq<Name> {
    Accepted(fe, m, fe.imports(source)) + fe.autos(m, source)
  }

  /** Imports are acyclic: every dependency ranks below its importer. */
  ghost predicate Acyclic<S, E, D>(fe: Frontend<S, E, D>, sources: Name -> S, rank: Name -> nat) {
    forall m, d :: d in Deps(fe, m, sources(m)) ==> rank(d) < rank(m)
  }

  // ----- a compile from scratch -----

  /** What analyzing a module afresh gives, its dependencies analyzed afresh before it. */
  ghost function Fresh<S, E, D>(fe: Frontend<S, E, D>, sources: Name -> S, rank: Name -> nat, m: Name): Analysis<E, D>
    requires Acyclic(fe, sources, rank)
    decreases rank(m), 1, 0
  {
    fe.analyze(m, sources(m), FreshAll(fe, sources, rank, Deps(fe, m, sources(m)), m))
  }

  ghost function FreshAll<S, E, D>(fe: Frontend<S, E, D>, sources: Name -> S, rank: Name -> nat, names: seq<Name>, m: Name): (r: seq<E>)
    requires Acyclic(fe, sources, rank)
    requires forall d :: d in names ==> rank(d) < rank(m)
    ensures |r| == |names| && forall i :: 0 <= i < |names| ==> r[i] == Fresh(fe, sources, rank, names[i]).exports
    decreases rank(m), 0, |names|
  {
    if names == [] then []
    else [Fresh(fe, sources, rank, names[0]).exports] + FreshAll(fe, sources, rank, names[1..], m)
  }

  // ----- one pass -----

  /** The loader's state during a pass; `incremental` is `None` for a full compile. */
  datatype Pass<+E, +D> = Pass(exports: map<Name, E>, incremental: Option<map<Name, Entry<E>>>, reanalyzed: set<Name>, diagnostics: seq<D>)

  ghost predicate Known<E, D>(p: Pass<E, D>, names: seq<Name>) { forall d :: d in names ==> d in p.exports }

  function Looked<E>(exports: map<Name, E>, names: seq<Name>): (r: seq<E>)
    requires forall d :: d in names ==> d in exports
    ensures |r| == |names| && forall i :: 0 <= i < |names| ==> r[i] == exports[names[i]]
  {
    if names == [] then [] else [exports[names[0]]] + Looked(exports, names[1..])
  }

  /** The cached exports, when they may stand for a new analysis. */
  function Reusable<S, E, D>(fe: Frontend<S, E, D>, entries: set<Name>, m: Name, source: S, p: Pass<E, D>): Option<E> {
    if m in entries || (exists d :: d in fe.imports(source) && d in p.reanalyzed) || p.incremental == None then None
    else
      var cache := p.incremental.value;
      if m in cache && cache[m].hash == fe.hash(source) then Some(cache[m].exports) else None
  }

  /** The last part of loading a module, its dependencies being loaded. */
  function Finished<S, E, D>(fe: Frontend<S, E, D>, entries: set<Name>, m: Name, source: S, p: Pass<E, D>): Pass<E, D>
    requires Known(p, Deps(fe, m, source))
  {
    match Reusable(fe, entries, m, source, p)
    case Some(e) => p.(exports := p.exports[m := e])
    case None =>
      var a := fe.analyze(m, source, Looked(p.exports, Deps(fe, m, source)));
      var cache := match p.incremental
        case None => None
        case Some(c) => Some(if a.diagnostics == [] then c[m := Entry(fe.hash(source), a.exports)] else c - {m});
      Pass(p.exports[m := a.exports], cache, p.reanalyzed + {m}, p.diagnostics + a.diagnostics)
  }

  ghost function Load<S, E, D>(fe: Frontend<S, E, D>, sources: Name -> S, rank: Name -> nat, entries: set<Name>, m: Name, p: Pass<E, D>): (r: Pass<E, D>)
    requires Acyclic(fe, sources, rank)
    ensures p.exports.Keys <= r.exports.Keys && m in r.exports
    decreases rank(m), 1, 0
  {
    if m in p.exports then p
    else Finished(fe, entries, m, sources(m), LoadAll(fe, sources, rank, entries, Deps(fe, m, sources(m)), rank(m), p))
  }

  /** Load several modules, all ranking below `bound`. */
  ghost function LoadAll<S, E, D>(fe: Frontend<S, E, D>, sources: Name -> S, rank: Name -> nat, entries: set<Name>, names: seq<Name>, bound: nat, p: Pass<E, D>): (r: Pass<E, D>)
    requires Acyclic(fe, sources, rank)
    requires forall d :: d in names ==> rank(d) < bound
    ensures p.exports.Keys <= r.exports.Keys && Known(r, names)
    decreases bound, 0, |names|
  {
    if names == [] then p
    else LoadAll(fe, sources, rank, entries, names[1..], bound, Load(fe, sources, rank, entries, names[0], p))
  }

  lemma LoadStep<S, E, D>(fe: Frontend<S, E, D>, sources: Name -> S, rank: Name -> nat, entries: set<Name>, names: seq<Name>, i: nat, bound: nat, p: Pass<E, D>)
    requires Acyclic(fe, sources, rank) && i < |names| && forall d :: d in names ==> rank(d) < bound
    ensures LoadAll(fe, sources, rank, entries, names[i..], bound, p)
         == LoadAll(fe, sources, rank, entries, names[i + 1..], bound, Load(fe, sources, rank, entries, names[i], p))
  {
    hide Load;
    assert names[i..][1..] == names[i + 1..] && names[i..][0] == names[i];
  }

  lemma LoadNone<S, E, D>(fe: Frontend<S, E, D>, sources: Name -> S, rank: Name -> nat, entries: set<Name>, names: seq<Name>, bound: nat, p: Pass<E, D>)
    requires Acyclic(fe, sources, rank) && names == []
    ensures LoadAll(fe, sources, rank, entries, names, bound, p) == p
  {
  }

  // ----- the loader -----

  class Compiler<S(==), E, D(==)> {
    const fe: Frontend<S, E, D>
    const sources: Name -> S
    const entries: set<Name>
    var exportsCache: map<Name, E>
    var incremental: Option<map<Name, Entry<E>>>
    var reanalyzed: set<Name>
    var diagnostics: seq<D>

    ghost function State(): Pass<E, D>
      reads this
    {
      Pass(exportsCache, incremental, reanalyzed, diagnostics)
    }

    constructor (fe: Frontend<S, E, D>, sources: Name -> S, entries: set<Name>, cache: Option<map<Name, Entry<E>>>)
      ensures this.fe == fe && this.sources == sources && this.entries == entries && State() == Pass(map[], cache, {}, [])
    {
      this.fe, this.sources, this.entries := fe, sources, entries;
      exportsCache, incremental, reanalyzed, diagnostics := map[], cache, {}, [];
    }

    method LoadModule(m: Name, ghost rank: Name -> nat)
      requires Acyclic(fe, sources, rank)
      modifies this
      ensures State() == Load(fe, sources, rank, entries, m, old(State()))
      decreases rank(m)
    {
      if m in exportsCache { return; }
      var source := sources(m);
      var imports := fe.imports(source);
      ghost var deps, before := Deps(fe, m, source), State();
      assert forall d :: d in deps ==> rank(d) < rank(m);
      var accepted := LoadImports(m, imports, fe.autos(m, source), rank);
      var reusable := CachedExports(m, source, imports);
      if reusable.Some? {
        exportsCache := exportsCache[m := reusable.value];
        return;
      }
      var analysis := fe.analyze(m, source, Looked(exportsCache, accepted));
      reanalyzed := reanalyzed + {m};
      diagnostics := diagnostics + analysis.diagnostics;
      exportsCache := exportsCache[m := analysis.exports];
      if incremental.Some? {
        if analysis.diagnostics == [] {
          incremental := Some(incremental.value[m := Entry(fe.hash(source), analysis.exports)]);
        } else {
          incremental := Some(incremental.value - {m});
        }
      }
    }

    /** Load each import that is not rejected, then the automatic ones. */
    method LoadImports(m: Name, imports: seq<Name>, autos: seq<Name>, ghost rank: Name -> nat) returns (deps: seq<Name>)
      requires Acyclic(fe, sources, rank)
      requires forall d :: d in Accepted(fe, m, imports) + autos ==> rank(d) < rank(m)
      modifies this
      ensures deps == Accepted(fe, m, imports) + autos
      ensures State() == LoadAll(fe, sources, rank, entries, deps, rank(m), old(State()))
      decreases rank(m), 0
    {
      hide Load, LoadAll, Accepted;
      deps := AcceptImports(m, imports);
      deps := deps + autos;
      assert deps[0..] == deps;
      for i := 0 to |deps|
        invariant LoadAll(fe, sources, rank, entries, deps[i..], rank(m), State()) == LoadAll(fe, sources, rank, entries, deps, rank(m), old(State()))
      {
        assert deps[i] in deps;
        LoadStep(fe, sources, rank, entries, deps, i, rank(m), State());
        LoadModule(deps[i], rank);
      }
      LoadNone(fe, sources, rank, entries, deps[|deps|..], rank(m), State());
    }

    method AcceptImports(m: Name, imports: seq<Name>) returns (deps: seq<Name>)
      ensures deps == Accepted(fe, m, imports)
    {
      deps := [];
      for i := 0 to |imports|
        invariant deps + Accepted(fe, m, imports[i..]) == Accepted(fe, m, imports)
      {
        assert imports[i..][1..] == imports[i + 1..];
        if !fe.rejects(m, imports[i]) { deps := deps + [imports[i]]; }
      }
      assert imports[|imports|..] == [];
    }

    method CachedExports(m: Name, source: S, imports: seq<Name>) returns (r: Option<E>)
      requires imports == fe.imports(source)
      ensures r == Reusable(fe, entries, m, source, State())
    {
      var depsReanalyzed := false;
      for i := 0 to |imports|
        invariant depsReanalyzed <==> exists d :: d in imports[..i] && d in reanalyzed
      {
        assert imports[..i + 1] == imports[..i] + [imports[i]];
        if imports[i] in reanalyzed { depsReanalyzed := true; }
      }
      assert imports[..|imports|] == imports;
      r := None;
      if m !in entries && !depsReanalyzed && incremental.Some? {
        var cache := incremental.value;
        if m in cache && cache[m].hash == fe.hash(source) { r := Some(cache[m].exports); }
      }
    }
  }
}
