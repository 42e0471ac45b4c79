/** Reusing cached analyses agrees with compiling afresh, pass after pass. */
module IncrementalSafety {
  import opened Wrappers
  import opened Incremental

  // ----- what a fresh analysis depends on -----

  /** A closed set of modules whose sources two passes share, holding every automatic
      import. */
  ghost predicate Baked<S(!new), E, D>(fe: Frontend<S, E, D>, baked: set<Name>, was: Name -> S, now: Name -> S) {
    && (forall m :: m in baked ==> was(m) == now(m))
    && (forall m, d :: m in baked && d in Deps(fe, m, now(m)) ==> d in baked)
    && (forall m, s, d :: d in fe.autos(m, s) ==> d in baked)
  }

  /** Two analyses of a module agree when its source and its dependencies' exports do. */
  lemma {:induction false} FreshAgree<S, E, D>(fe: Frontend<S, E, D>, a: Name -> S, ra: Name -> nat, b: Name -> S, rb: Name -> nat, m: Name)
    requires Acyclic(fe, a, ra) && Acyclic(fe, b, rb) && a(m) == b(m)
    requires forall d :: d in Deps(fe, m, b(m)) ==> Fresh(fe, a, ra, d).exports == Fresh(fe, b, rb, d).exports
    ensures Fresh(fe, a, ra, m) == Fresh(fe, b, rb, m)
  {
    var deps := Deps(fe, m, b(m));
    var xs, ys := FreshAll(fe, a, ra, deps, m), FreshAll(fe, b, rb, deps, m);
    forall i | 0 <= i < |deps| ensures xs[i] == ys[i] { assert deps[i] in deps; }
    assert xs == ys;
  }

  /** A baked-in module is analyzed alike in both passes. */
  lemma {:induction false} BakedAgree<S(!new), E, D>(fe: Frontend<S, E, D>, baked: set<Name>, was: Name -> S, r0: Name -> nat, now: Name -> S, r: Name -> nat, m: Name)
    requires Acyclic(fe, was, r0) && Acyclic(fe, now, r) && Baked(fe, baked, was, now) && m in baked
    ensures Fresh(fe, was, r0, m) == Fresh(fe, now, r, m)
    decreases r(m)
  {
    forall d | d in Deps(fe, m, now(m)) ensures Fresh(fe, was, r0, d).exports == Fresh(fe, now, r, d).exports {
      BakedAgree(fe, baked, was, r0, now, r, d);
    }
    FreshAgree(fe, was, r0, now, r, m);
  }

  // ----- the cache and the state of a pass -----

  ghost predicate NoCollision<S(!new), E, D>(fe: Frontend<S, E, D>) {
    forall a, b :: fe.hash(a) == fe.hash(b) ==> a == b
  }

  /** The entry is the clean analysis of the module's source. */
  ghost predicate EntryMatches<S, E, D>(fe: Frontend<S, E, D>, sources: Name -> S, rank: Name -> nat, m: Name, entry: Entry<E>)
    requires Acyclic(fe, sources, rank)
  {
    entry.hash == fe.hash(sources(m)) && Fresh(fe, sources, rank, m) == Analysis(entry.exports, [])
  }

  ghost predicate CacheMatches<S, E, D>(fe: Frontend<S, E, D>, sources: Name -> S, rank: Name -> nat, cache: map<Name, Entry<E>>)
    requires Acyclic(fe, sources, rank)
  {
    forall m :: m in cache ==> EntryMatches(fe, sources, rank, m, cache[m])
  }

  /** The module and everything its analysis depends on come to the same as before. */
  ghost predicate Unchanged<S, E, D>(fe: Frontend<S, E, D>, was: Name -> S, r0: Name -> nat, now: Name -> S, r: Name -> nat, m: Name)
    requires Acyclic(fe, was, r0) && Acyclic(fe, now, r)
  {
    was(m) == now(m) && Fresh(fe, was, r0, m) == Fresh(fe, now, r, m)
  }

  /** No source among the module and its imports, at any depth, has been edited. */
  ghost predicate Unedited<S, E, D>(fe: Frontend<S, E, D>, was: Name -> S, now: Name -> S, r: Name -> nat, m: Name)
    requires Acyclic(fe, now, r)
    decreases r(m)
  {
    was(m) == now(m) && forall d :: d in Deps(fe, m, now(m)) ==> Unedited(fe, was, now, r, d)
  }

  /** That is enough for it to be unchanged. */
  lemma {:induction false} UneditedIsUnchanged<S, E, D>(fe: Frontend<S, E, D>, was: Name -> S, r0: Name -> nat, now: Name -> S, r: Name -> nat, m: Name)
    requires Acyclic(fe, was, r0) && Acyclic(fe, now, r) && Unedited(fe, was, now, r, m)
    ensures Unchanged(fe, was, r0, now, r, m)
    decreases r(m)
  {
    forall d | d in Deps(fe, m, now(m)) ensures Fresh(fe, was, r0, d).exports == Fresh(fe, now, r, d).exports {
      UneditedIsUnchanged(fe, was, r0, now, r, d);
    }
    FreshAgree(fe, was, r0, now, r, m);
  }

  /** An entry that matched the old sources matches the new ones exactly when its module is
      unchanged. */
  lemma EntryStillMatches<S(!new), E, D>(fe: Frontend<S, E, D>, was: Name -> S, r0: Name -> nat, now: Name -> S, r: Name -> nat, m: Name, entry: Entry<E>)
    requires Acyclic(fe, was, r0) && Acyclic(fe, now, r) && NoCollision(fe) && EntryMatches(fe, was, r0, m, entry)
    ensures EntryMatches(fe, now, r, m, entry) <==> Unchanged(fe, was, r0, now, r, m)
  {
  }

  /** What a pass over `now` knows: its exports are the fresh ones; a module it did not
      reanalyze is as the sources `was` gave it; a cached module is one it analyzed, or
      one it has not come to yet, and those are all still cached. */
  ghost predicate PassInv<S, E, D>(fe: Frontend<S, E, D>, was: Name -> S, r0: Name -> nat, cache0: map<Name, Entry<E>>, now: Name -> S, r: Name -> nat, p: Pass<E, D>)
    requires Acyclic(fe, was, r0) && Acyclic(fe, now, r)
  {
    && (forall m :: m in p.exports ==> p.exports[m] == Fresh(fe, now, r, m).exports)
    && (forall m :: m in p.exports && m !in p.reanalyzed ==> Fresh(fe, now, r, m) == Fresh(fe, was, r0, m))
    && p.incremental.Some?
    && (forall m :: m in p.incremental.value ==>
          if m in p.exports then EntryMatches(fe, now, r, m, p.incremental.value[m])
          else m in cache0 && p.incremental.value[m] == cache0[m])
    && (forall m :: m in cache0 && m !in p.exports ==> m in p.incremental.value)
    && (forall m :: m in p.exports && Fresh(fe, now, r, m).diagnostics == [] ==> m in p.incremental.value)
  }

  /** Loading below a rank brings in nothing at or above it. */
  lemma {:induction false} LoadStaysBelow<S, E, D>(fe: Frontend<S, E, D>, sources: Name -> S, rank: Name -> nat, entries: set<Name>, m: Name, p: Pass<E, D>, x: Name)
    requires Acyclic(fe, sources, rank) && x in Load(fe, sources, rank, entries, m, p).exports && x !in p.exports
    ensures rank(x) <= rank(m)
    decreases rank(m), 1, 0
  {
    var deps := Deps(fe, m, sources(m));
    if x in LoadAll(fe, sources, rank, entries, deps, rank(m), p).exports {
      LoadAllStaysBelow(fe, sources, rank, entries, deps, rank(m), p, x);
    }
  }

  lemma {:induction false} LoadAllStaysBelow<S, E, D>(fe: Frontend<S, E, D>, sources: Name -> S, rank: Name -> nat, entries: set<Name>, names: seq<Name>, bound: nat, p: Pass<E, D>, x: Name)
    requires Acyclic(fe, sources, rank) && forall d :: d in names ==> rank(d) < bound
    requires x in LoadAll(fe, sources, rank, entries, names, bound, p).exports && x !in p.exports
    ensures rank(x) < bound
    decreases bound, 0, |names|
  {
    var p' := Load(fe, sources, rank, entries, names[0], p);
    if x in p'.exports {
      LoadStaysBelow(fe, sources, rank, entries, names[0], p, x);
    } else {
      LoadAllStaysBelow(fe, sources, rank, entries, names[1..], bound, p', x);
    }
  }

  lemma LookedIsFresh<S, E, D>(fe: Frontend<S, E, D>, sources: Name -> S, rank: Name -> nat, m: Name, exports: map<Name, E>)
    requires Acyclic(fe, sources, rank)
    requires forall d :: d in Deps(fe, m, sources(m)) ==> d in exports && exports[d] == Fresh(fe, sources, rank, d).exports
    ensures fe.analyze(m, sources(m), Looked(exports, Deps(fe, m, sources(m)))) == Fresh(fe, sources, rank, m)
  {
    var deps := Deps(fe, m, sources(m));
    var xs, ys := Looked(exports, deps), FreshAll(fe, sources, rank, deps, m);
    forall i | 0 <= i < |deps| ensures xs[i] == ys[i] { assert deps[i] in deps; }
    assert xs == ys;
  }

  /** A module may be reused only if a new analysis would change nothing. */
  lemma ReuseIsFresh<S(!new), E, D>(fe: Frontend<S, E, D>, baked: set<Name>, was: Name -> S, r0: Name -> nat, cache0: map<Name, Entry<E>>, now: Name -> S, r: Name -> nat,
                                    entries: set<Name>, m: Name, p: Pass<E, D>)
    requires Acyclic(fe, was, r0) && Acyclic(fe, now, r) && NoCollision(fe) && Baked(fe, baked, was, now) && CacheMatches(fe, was, r0, cache0)
    requires PassInv(fe, was, r0, cache0, now, r, p) && m !in p.exports && Known(p, Deps(fe, m, now(m)))
    requires Reusable(fe, entries, m, now(m), p).Some?
    ensures Fresh(fe, now, r, m) == Fresh(fe, was, r0, m) == Analysis(Reusable(fe, entries, m, now(m), p).value, [])
    ensures p.incremental.value[m].hash == fe.hash(now(m))
  {
    assert cache0[m].hash == fe.hash(was(m)) == fe.hash(now(m));
    forall d | d in Deps(fe, m, now(m)) ensures Fresh(fe, was, r0, d).exports == Fresh(fe, now, r, d).exports {
      if d in fe.autos(m, now(m)) {
        BakedAgree(fe, baked, was, r0, now, r, d);
      } else {
        AcceptedImported(fe, m, fe.imports(now(m)), d);
      }
    }
    FreshAgree(fe, was, r0, now, r, m);
  }

  lemma {:induction false} AcceptedImported<S, E, D>(fe: Frontend<S, E, D>, m: Name, names: seq<Name>, d: Name)
    requires d in Accepted(fe, m, names)
    ensures d in names
  {
    if d != names[0] || fe.rejects(m, names[0]) { AcceptedImported(fe, m, names[1..], d); }
  }

  // ----- one pass agrees with a full compile -----

  /** An incremental pass and a full compile that have loaded the same modules alike. */
  ghost predicate InStep<S, E, D>(fe: Frontend<S, E, D>, was: Name -> S, r0: Name -> nat, cache0: map<Name, Entry<E>>, now: Name -> S, r: Name -> nat, p: Pass<E, D>, q: Pass<E, D>)
    requires Acyclic(fe, was, r0) && Acyclic(fe, now, r)
  {
    PassInv(fe, was, r0, cache0, now, r, p) && q.incremental == None && p.exports == q.exports && p.diagnostics == q.diagnostics
  }

  lemma FinishedInStep<S(!new), E, D>(fe: Frontend<S, E, D>, baked: set<Name>, was: Name -> S, r0: Name -> nat, cache0: map<Name, Entry<E>>, now: Name -> S, r: Name -> nat,
                                      entries: set<Name>, m: Name, p: Pass<E, D>, q: Pass<E, D>)
    requires Acyclic(fe, was, r0) && Acyclic(fe, now, r) && NoCollision(fe) && Baked(fe, baked, was, now) && CacheMatches(fe, was, r0, cache0)
    requires InStep(fe, was, r0, cache0, now, r, p, q) && m !in p.exports && Known(p, Deps(fe, m, now(m)))
    ensures InStep(fe, was, r0, cache0, now, r, Finished(fe, entries, m, now(m), p), Finished(fe, entries, m, now(m), q))
  {
    hide Fresh, Acyclic, Baked, NoCollision, CacheMatches, Deps;
    LookedIsFresh(fe, now, r, m, p.exports);
    if Reusable(fe, entries, m, now(m), p).Some? { ReuseIsFresh(fe, baked, was, r0, cache0, now, r, entries, m, p); }
  }

  lemma {:induction false} LoadInStep<S(!new), E, D>(fe: Frontend<S, E, D>, baked: set<Name>, was: Name -> S, r0: Name -> nat, cache0: map<Name, Entry<E>>, now: Name -> S, r: Name -> nat,
                                  entries: set<Name>, m: Name, p: Pass<E, D>, q: Pass<E, D>)
    requires Acyclic(fe, was, r0) && Acyclic(fe, now, r) && NoCollision(fe) && Baked(fe, baked, was, now) && CacheMatches(fe, was, r0, cache0)
    requires InStep(fe, was, r0, cache0, now, r, p, q)
    ensures InStep(fe, was, r0, cache0, now, r, Load(fe, now, r, entries, m, p), Load(fe, now, r, entries, m, q))
    decreases r(m), 1, 0
  {
    if m !in p.exports {
      var deps := Deps(fe, m, now(m));
      LoadAllInStep(fe, baked, was, r0, cache0, now, r, entries, deps, r(m), p, q);
      var p' := LoadAll(fe, now, r, entries, deps, r(m), p);
      if m in p'.exports { LoadAllStaysBelow(fe, now, r, entries, deps, r(m), p, m); }
      FinishedInStep(fe, baked, was, r0, cache0, now, r, entries, m, p', LoadAll(fe, now, r, entries, deps, r(m), q));
    }
  }

  lemma {:induction false} LoadAllInStep<S(!new), E, D>(fe: Frontend<S, E, D>, baked: set<Name>, was: Name -> S, r0: Name -> nat, cache0: map<Name, Entry<E>>, now: Name -> S, r: Name -> nat,
                                     entries: set<Name>, names: seq<Name>, bound: nat, p: Pass<E, D>, q: Pass<E, D>)
    requires Acyclic(fe, was, r0) && Acyclic(fe, now, r) && NoCollision(fe) && Baked(fe, baked, was, now) && CacheMatches(fe, was, r0, cache0)
    requires InStep(fe, was, r0, cache0, now, r, p, q) && forall d :: d in names ==> r(d) < bound
    ensures InStep(fe, was, r0, cache0, now, r, LoadAll(fe, now, r, entries, names, bound, p), LoadAll(fe, now, r, entries, names, bound, q))
    decreases bound, 0, |names|
  {
    if names != [] {
      LoadInStep(fe, baked, was, r0, cache0, now, r, entries, names[0], p, q);
      LoadAllInStep(fe, baked, was, r0, cache0, now, r, entries, names[1..], bound, Load(fe, now, r, entries, names[0], p), Load(fe, now, r, entries, names[0], q));
    }
  }

  // ----- passes in a row -----

  ghost function LoadEntries<S, E, D>(fe: Frontend<S, E, D>, sources: Name -> S, rank: Name -> nat, entries: seq<Name>, all: set<Name>, p: Pass<E, D>): Pass<E, D>
    requires Acyclic(fe, sources, rank)
    decreases |entries|
  {
    if entries == [] then p else LoadEntries(fe, sources, rank, entries[1..], all, Load(fe, sources, rank, all, entries[0], p))
  }

  /** A whole pass over some sources, from the entry modules and a cache, or none. */
  ghost function Check<S, E, D>(fe: Frontend<S, E, D>, sources: Name -> S, rank: Name -> nat, entries: seq<Name>, cache: Option<map<Name, Entry<E>>>): Pass<E, D>
    requires Acyclic(fe, sources, rank)
  {
    LoadEntries(fe, sources, rank, entries, (set e | e in entries), Pass(map[], cache, {}, []))
  }

  lemma {:induction false} EntriesInStep<S(!new), E, D>(fe: Frontend<S, E, D>, baked: set<Name>, was: Name -> S, r0: Name -> nat, cache0: map<Name, Entry<E>>, now: Name -> S, r: Name -> nat,
                                     entries: seq<Name>, all: set<Name>, p: Pass<E, D>, q: Pass<E, D>)
    requires Acyclic(fe, was, r0) && Acyclic(fe, now, r) && NoCollision(fe) && Baked(fe, baked, was, now) && CacheMatches(fe, was, r0, cache0)
    requires InStep(fe, was, r0, cache0, now, r, p, q)
    ensures InStep(fe, was, r0, cache0, now, r, LoadEntries(fe, now, r, entries, all, p), LoadEntries(fe, now, r, entries, all, q))
    decreases |entries|
  {
    if entries != [] {
      LoadInStep(fe, baked, was, r0, cache0, now, r, all, entries[0], p, q);
      EntriesInStep(fe, baked, was, r0, cache0, now, r, entries[1..], all, Load(fe, now, r, all, entries[0], p), Load(fe, now, r, all, entries[0], q));
    }
  }

  /** One pass from a cache that matches the sources before it: its exports and diagnostics
      are those of a full compile; a module it did not reanalyze exports what it did; of
      the modules it loaded it caches exactly the clean ones; and its cache matches the new sources exactly when every cached module it did not load is
      unchanged. */
  lemma PassAgrees<S(!new), E, D>(fe: Frontend<S, E, D>, baked: set<Name>, was: Name -> S, r0: Name -> nat, cache0: map<Name, Entry<E>>, now: Name -> S, r: Name -> nat, entries: seq<Name>)
    requires Acyclic(fe, was, r0) && Acyclic(fe, now, r) && NoCollision(fe) && Baked(fe, baked, was, now) && CacheMatches(fe, was, r0, cache0)
    ensures var inc, full := Check(fe, now, r, entries, Some(cache0)), Check(fe, now, r, entries, None);
            && inc.exports == full.exports && inc.diagnostics == full.diagnostics && inc.incremental.Some?
            && (forall m :: m in inc.exports && m !in inc.reanalyzed ==> inc.exports[m] == Fresh(fe, was, r0, m).exports)
            && (forall m :: m in inc.exports ==> (m in inc.incremental.value <==> Fresh(fe, now, r, m).diagnostics == []))
            && (CacheMatches(fe, now, r, inc.incremental.value) <==>
                forall m :: m in cache0 && m !in inc.exports ==> Unchanged(fe, was, r0, now, r, m))
  {
    hide Check, Unchanged, EntryMatches, Fresh, NoCollision, Acyclic, Baked;
    var inc := Check(fe, now, r, entries, Some(cache0));
    assert PassInv(fe, was, r0, cache0, now, r, Pass(map[], Some(cache0), {}, []));
    EntriesPass(fe, baked, was, r0, cache0, now, r, entries);
    forall m | m in inc.exports && m in inc.incremental.value ensures Fresh(fe, now, r, m).diagnostics == [] {
      MatchIsClean(fe, now, r, m, inc.incremental.value[m]);
    }
    forall m | m in cache0 && m !in inc.exports
      ensures m in inc.incremental.value && inc.incremental.value[m] == cache0[m]
      ensures EntryMatches(fe, now, r, m, cache0[m]) <==> Unchanged(fe, was, r0, now, r, m)
    {
      EntryStillMatches(fe, was, r0, now, r, m, cache0[m]);
    }
  }

  lemma MatchIsClean<S, E, D>(fe: Frontend<S, E, D>, sources: Name -> S, rank: Name -> nat, m: Name, entry: Entry<E>)
    requires Acyclic(fe, sources, rank) && EntryMatches(fe, sources, rank, m, entry)
    ensures Fresh(fe, sources, rank, m).diagnostics == []
  {
  }

  lemma EntriesPass<S(!new), E, D>(fe: Frontend<S, E, D>, baked: set<Name>, was: Name -> S, r0: Name -> nat, cache0: map<Name, Entry<E>>, now: Name -> S, r: Name -> nat, entries: seq<Name>)
    requires Acyclic(fe, was, r0) && Acyclic(fe, now, r) && NoCollision(fe) && Baked(fe, baked, was, now) && CacheMatches(fe, was, r0, cache0)
    ensures InStep(fe, was, r0, cache0, now, r, Check(fe, now, r, entries, Some(cache0)), Check(fe, now, r, entries, None))
  {
    EntriesInStep(fe, baked, was, r0, cache0, now, r, entries, (set e | e in entries), Pass(map[], Some(cache0), {}, []), Pass(map[], None, {}, []));
  }

  /** A pass of a long-lived caller: the sources, a witness that imports are acyclic, the
      entry modules, and the cache it starts from. */
  datatype Round<!S, !E> = Round(sources: Name -> S, rank: Name -> nat, entries: seq<Name>, cache: map<Name, Entry<E>>)

  ghost predicate Acyclics<S, E, D>(fe: Frontend<S, E, D>, rounds: seq<Round<S, E>>) {
    forall i :: 0 <= i < |rounds| ==> Acyclic(fe, rounds[i].sources, rounds[i].rank)
  }

  ghost function Result<S, E, D>(fe: Frontend<S, E, D>, round: Round<S, E>): Pass<E, D>
    requires Acyclic(fe, round.sources, round.rank)
  {
    Check(fe, round.sources, round.rank, round.entries, Some(round.cache))
  }

  /** The first pass starts empty and each one hands its cache on, having loaded every
      module it found cached or left it alone because nothing about it had changed. */
  ghost predicate Chained<S(!new), E, D>(fe: Frontend<S, E, D>, baked: set<Name>, rounds: seq<Round<S, E>>)
    requires Acyclics(fe, rounds)
  {
    && (|rounds| > 0 ==> rounds[0].cache == map[])
    && (forall i :: 0 <= i < |rounds| ==> Baked(fe, baked, rounds[0].sources, rounds[i].sources))
    && (forall i :: 0 <= i < |rounds| - 1 ==> Result(fe, rounds[i]).incremental == Some(rounds[i + 1].cache) && KeepsUp(fe, rounds, i))
  }

  /** Every cached module is loaded in round `i` or unchanged since the round before. */
  ghost predicate KeepsUp<S, E, D>(fe: Frontend<S, E, D>, rounds: seq<Round<S, E>>, i: nat)
    requires Acyclics(fe, rounds) && i < |rounds|
  {
    var last := Before(rounds, i);
    forall m :: m in rounds[i].cache && m !in Result(fe, rounds[i]).exports ==>
      Unchanged(fe, last.sources, last.rank, rounds[i].sources, rounds[i].rank, m)
  }

  /** The sources before round `i`; the first round starts from its own and an empty cache. */
  ghost function Before<S, E>(rounds: seq<Round<S, E>>, i: nat): Round<S, E>
    requires i < |rounds|
  {
    if i == 0 then rounds[0] else rounds[i - 1]
  }

  lemma {:induction false} CacheAlwaysMatches<S(!new), E, D>(fe: Frontend<S, E, D>, baked: set<Name>, rounds: seq<Round<S, E>>, i: nat)
    requires NoCollision(fe) && Acyclics(fe, rounds) && Chained(fe, baked, rounds) && i < |rounds|
    ensures CacheMatches(fe, Before(rounds, i).sources, Before(rounds, i).rank, rounds[i].cache)
    ensures Baked(fe, baked, Before(rounds, i).sources, rounds[i].sources)
  {
    hide CacheMatches, Check;
    var now := rounds[i];
    assert Baked(fe, baked, rounds[0].sources, now.sources);
    if i == 0 {
      assert CacheMatches(fe, now.sources, now.rank, map[]) by { EmptyMatches(fe, now.sources, now.rank); }
    } else {
      assert Baked(fe, baked, rounds[0].sources, rounds[i - 1].sources);
      CacheAlwaysMatches(fe, baked, rounds, i - 1);
      var was, last := Before(rounds, i - 1), rounds[i - 1];
      assert KeepsUp(fe, rounds, i - 1) && Result(fe, last).incremental == Some(rounds[i - 1 + 1].cache);
      PassAgrees(fe, baked, was.sources, was.rank, last.cache, last.sources, last.rank, last.entries);
    }
  }

  lemma EmptyMatches<S, E, D>(fe: Frontend<S, E, D>, sources: Name -> S, rank: Name -> nat)
    requires Acyclic(fe, sources, rank)
    ensures CacheMatches(fe, sources, rank, map[])
  {
  }

  /** Whatever is edited between passes, each one reports what a full compile would, and a
      module it did not reanalyze exports what it exported before. */
  lemma EveryPassAgrees<S(!new), E, D>(fe: Frontend<S, E, D>, baked: set<Name>, rounds: seq<Round<S, E>>, i: nat)
    requires NoCollision(fe) && Acyclics(fe, rounds) && Chained(fe, baked, rounds) && i < |rounds|
    ensures var inc, full := Result(fe, rounds[i]), Check(fe, rounds[i].sources, rounds[i].rank, rounds[i].entries, None);
            && inc.exports == full.exports && inc.diagnostics == full.diagnostics
            && forall m :: m in inc.exports && m !in inc.reanalyzed ==>
                 inc.exports[m] == Fresh(fe, Before(rounds, i).sources, Before(rounds, i).rank, m).exports
  {
    hide CacheMatches, Check;
    CacheAlwaysMatches(fe, baked, rounds, i);
    var was, now := Before(rounds, i), rounds[i];
    PassAgrees(fe, baked, was.sources, was.rank, now.cache, now.sources, now.rank, now.entries);
  }

  // ----- a cached module left out of a pass -----

  /** The frontend of the counterexample: `app` uses `mid`, which uses `lib`; a module
      exports what its import does, or its own source. */
  function Chain(): Frontend<nat, int, int> {
    Frontend(
      (s: nat) => if s == 10 then ["lib"] else if s == 20 then ["mid"] else [],
      (m: Name, d: Name) => false, (m: Name, s: nat) => [],
      (m: Name, s: nat, es: seq<int>) => Analysis(if es == [] then s else es[0], []),
      (s: nat) => s)
  }

  function ChainSources(lib: nat): Name -> nat {
    (m: Name) => if m == "app" then 20 else if m == "mid" then 10 else lib
  }

  function ChainRank(): Name -> nat {
    (m: Name) => if m == "app" then 2 else if m == "mid" then 1 else 0
  }

  lemma ChainDeps(lib: nat)
    requires lib < 10
    ensures Acyclic(Chain(), ChainSources(lib), ChainRank()) && NoCollision(Chain())
    ensures Deps(Chain(), "app", 20) == ["mid"] && Deps(Chain(), "mid", 10) == ["lib"] && Deps(Chain(), "lib", lib) == []
    ensures Chain().imports(20) == ["mid"] && Chain().imports(10) == ["lib"] && Chain().imports(lib) == []
  {
    var fe := Chain();
    assert forall m: Name, names: seq<Name> :: |names| == 1 ==> Accepted(fe, m, names) == names by {
      forall m: Name, names: seq<Name> | |names| == 1 ensures Accepted(fe, m, names) == names { assert names[1..] == []; }
    }
    forall m, d | d in Deps(fe, m, ChainSources(lib)(m)) ensures ChainRank()(d) < ChainRank()(m) {}
  }

  lemma LoadLeaf<S, E, D>(fe: Frontend<S, E, D>, sources: Name -> S, rank: Name -> nat, entries: set<Name>, m: Name, p: Pass<E, D>)
    requires Acyclic(fe, sources, rank) && m !in p.exports && Deps(fe, m, sources(m)) == []
    ensures Load(fe, sources, rank, entries, m, p) == Finished(fe, entries, m, sources(m), p)
  {
  }

  lemma LoadOver<S, E, D>(fe: Frontend<S, E, D>, sources: Name -> S, rank: Name -> nat, entries: set<Name>, m: Name, d: Name, p: Pass<E, D>)
    requires Acyclic(fe, sources, rank) && m !in p.exports && Deps(fe, m, sources(m)) == [d]
    ensures Known(Load(fe, sources, rank, entries, d, p), Deps(fe, m, sources(m)))
    ensures Load(fe, sources, rank, entries, m, p) == Finished(fe, entries, m, sources(m), Load(fe, sources, rank, entries, d, p))
  {
    hide Finished, Deps;
    assert d in [d] && rank(d) < rank(m);
    LoadSingle(fe, sources, rank, entries, d, rank(m), p);
  }

  lemma LoadSingle<S, E, D>(fe: Frontend<S, E, D>, sources: Name -> S, rank: Name -> nat, entries: set<Name>, d: Name, bound: nat, p: Pass<E, D>)
    requires Acyclic(fe, sources, rank) && rank(d) < bound
    ensures LoadAll(fe, sources, rank, entries, [d], bound, p) == Load(fe, sources, rank, entries, d, p)
  {
    hide Load;
    assert [d][1..] == [];
  }

  lemma CheckOne<S, E, D>(fe: Frontend<S, E, D>, sources: Name -> S, rank: Name -> nat, m: Name, cache: Option<map<Name, Entry<E>>>)
    requires Acyclic(fe, sources, rank)
    ensures Check(fe, sources, rank, [m], cache) == Load(fe, sources, rank, {m}, m, Pass(map[], cache, {}, []))
  {
    hide Load;
    var one, all, p := [m], {m}, Pass(map[], cache, {}, []);
    assert (set e | e in one) == all && one[1..] == [];
    assert LoadEntries(fe, sources, rank, one, all, p) == LoadEntries(fe, sources, rank, one[1..], all, Load(fe, sources, rank, all, m, p));
  }

  /** A check of `app` loads `lib`, then `mid`, then `app`; `reused` is what the cache still
      holds for `mid`, if its source matches. */
  lemma ChainCheck(lib: nat, cache: Option<map<Name, Entry<int>>>)
    requires lib < 10 && Acyclic(Chain(), ChainSources(lib), ChainRank())
    ensures var app := Check(Chain(), ChainSources(lib), ChainRank(), ["app"], cache);
            && "app" in app.exports
            && (cache == None ==> app.exports["app"] == lib)
            && (cache == Some(map[]) ==>
                  app.incremental == Some(map["lib" := Entry(lib, lib), "mid" := Entry(10, lib), "app" := Entry(20, lib)]))
            && (cache.Some? && "lib" in cache.value && cache.value["lib"] == Entry(lib, lib) && "mid" in cache.value && cache.value["mid"].hash == 10 ==>
                  app.exports["app"] == cache.value["mid"].exports)
  {
    hide Load, Check, Acyclic, ChainSources, ChainRank, Chain;
    var fe, s, r, p := Chain(), ChainSources(lib), ChainRank(), Pass(map[], cache, {}, []);
    ChainDeps(lib);
    ChainParts(lib);
    CheckOne(fe, s, r, "app", cache);
    LoadLeaf(fe, s, r, {"app"}, "lib", p);
    LoadOver(fe, s, r, {"app"}, "mid", "lib", p);
    LoadOver(fe, s, r, {"app"}, "app", "mid", p);
  }

  lemma ChainParts(lib: nat)
    requires lib < 10
    ensures var s := ChainSources(lib); s("app") == 20 && s("mid") == 10 && s("lib") == lib
    ensures var fe := Chain();
            && (forall m, x, es :: fe.analyze(m, x, es) == Analysis(if es == [] then x else es[0], []))
            && (forall x :: fe.hash(x) == x)
  {
  }

  /** `lib` changes while only `lib` is checked; when `app` is checked next, `mid` is reused
      although what it was analyzed against is gone, and `app` still sees the old `lib`. */
  lemma UnloadedModuleGoesStale()
    ensures NoCollision(Chain()) && Acyclic(Chain(), ChainSources(1), ChainRank()) && Acyclic(Chain(), ChainSources(2), ChainRank())
    ensures var fe, r := Chain(), ChainRank();
            var first := Check(fe, ChainSources(1), r, ["app"], Some(map[]));
            var second := Check(fe, ChainSources(2), r, ["lib"], first.incremental);
            var third, full := Check(fe, ChainSources(2), r, ["app"], second.incremental), Check(fe, ChainSources(2), r, ["app"], None);
            && "app" in third.exports && "app" in full.exports
            && third.exports["app"] == 1 && full.exports["app"] == 2
  {
    hide Check, Acyclic, Chain, ChainSources, ChainRank, Load;
    var fe, r := Chain(), ChainRank();
    ChainDeps(1);
    ChainDeps(2);
    ChainCheck(1, Some(map[]));
    var first := Check(fe, ChainSources(1), r, ["app"], Some(map[]));
    ChainParts(2);
    CheckOne(fe, ChainSources(2), r, "lib", first.incremental);
    LoadLeaf(fe, ChainSources(2), r, {"lib"}, "lib", Pass(map[], first.incremental, {}, []));
    var second := Check(fe, ChainSources(2), r, ["lib"], first.incremental);
    assert second.incremental.value["lib"] == Entry(2, 2) && second.incremental.value["mid"] == Entry(10, 1);
    ChainCheck(2, second.incremental);
    ChainCheck(2, None);
  }
}
