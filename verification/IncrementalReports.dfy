/** What a pass reports and what it redoes: the diagnostics of the fresh analyses of the
    modules it loads, each once, and a new analysis exactly where one is due. */
module IncrementalReports {
  import opened Wrappers
  import opened Incremental
  import opened IncrementalSafety

  /** The diagnostics of fresh analyses, module by module. */
  ghost function Reports<S, E, D>(fe: Frontend<S, E, D>, sources: Name -> S, rank: Name -> nat, order: seq<Name>): seq<D>
    requires Acyclic(fe, sources, rank)
  {
    if order == [] then []
    else Reports(fe, sources, rank, order[..|order| - 1]) + Fresh(fe, sources, rank, order[|order| - 1]).diagnostics
  }

  /** Each module once, and behind everything it depends on. */
  ghost predicate Sorted<S, E, D>(fe: Frontend<S, E, D>, sources: Name -> S, order: seq<Name>) {
    && (forall i, j :: 0 <= i < j < |order| ==> order[i] != order[j])
    && forall i, d :: 0 <= i < |order| && d in Deps(fe, order[i], sources(order[i])) ==> d in order[..i]
  }

  /** Each module from `start` on is asked for: by `names`, or as a dependency of a later one. */
  ghost predicate Needed<S, E, D>(fe: Frontend<S, E, D>, sources: Name -> S, order: seq<Name>, start: nat, names: seq<Name>) {
    forall i :: start <= i < |order| ==> order[i] in names || NeededLater(fe, sources, order, i)
  }

  ghost predicate NeededLater<S, E, D>(fe: Frontend<S, E, D>, sources: Name -> S, order: seq<Name>, i: nat)
    requires i < |order|
  {
    exists j :: i < j < |order| && order[i] in Deps(fe, order[j], sources(order[j]))
  }

  /** A full compile that has loaded the modules of `order`, in this order. */
  ghost predicate Loaded<S, E, D>(fe: Frontend<S, E, D>, sources: Name -> S, rank: Name -> nat, p: Pass<E, D>, order: seq<Name>)
    requires Acyclic(fe, sources, rank)
  {
    && Sorted(fe, sources, order)
    && (forall m :: m in p.exports <==> m in order)
    && (forall m :: m in p.exports ==> p.exports[m] == Fresh(fe, sources, rank, m).exports)
    && p.incremental == None && p.diagnostics == Reports(fe, sources, rank, order)
  }

  lemma {:induction false} LoadReports<S, E, D>(fe: Frontend<S, E, D>, sources: Name -> S, rank: Name -> nat, all: set<Name>, m: Name, p: Pass<E, D>, order: seq<Name>)
    returns (order': seq<Name>)
    requires Acyclic(fe, sources, rank) && Loaded(fe, sources, rank, p, order)
    ensures Loaded(fe, sources, rank, Load(fe, sources, rank, all, m, p), order')
    ensures order <= order' && m in order' && Needed(fe, sources, order', |order|, [m])
    decreases rank(m), 1, 0
  {
    hide Fresh, Sorted, Reports;
    if m in p.exports {
      order' := order;
    } else {
      var deps := Deps(fe, m, sources(m));
      var q := LoadAll(fe, sources, rank, all, deps, rank(m), p);
      var before := LoadAllReports(fe, sources, rank, all, deps, rank(m), p, order);
      if m in q.exports { LoadAllStaysBelow(fe, sources, rank, all, deps, rank(m), p, m); }
      LookedIsFresh(fe, sources, rank, m, q.exports);
      order' := before + [m];
      FinishReports(fe, sources, rank, all, m, q, before);
      NeededByLast(fe, sources, before, m, |order|);
    }
  }

  lemma FinishReports<S, E, D>(fe: Frontend<S, E, D>, sources: Name -> S, rank: Name -> nat, all: set<Name>, m: Name, q: Pass<E, D>, before: seq<Name>)
    requires Acyclic(fe, sources, rank) && Loaded(fe, sources, rank, q, before)
    requires m !in before && Known(q, Deps(fe, m, sources(m)))
    ensures Loaded(fe, sources, rank, Finished(fe, all, m, sources(m), q), before + [m])
  {
    hide Fresh;
    LookedIsFresh(fe, sources, rank, m, q.exports);
    var order' := before + [m];
    assert order'[..|order'| - 1] == before;
    assert forall i :: 0 <= i <= |before| ==> order'[..i] == before[..i];
  }

  lemma NeededByLast<S, E, D>(fe: Frontend<S, E, D>, sources: Name -> S, before: seq<Name>, m: Name, start: nat)
    requires Needed(fe, sources, before, start, Deps(fe, m, sources(m)))
    ensures Needed(fe, sources, before + [m], start, [m])
  {
    var order' := before + [m];
    forall i | start <= i < |order'| ensures order'[i] in [m] || NeededLater(fe, sources, order', i) {
      if i < |before| {
        if before[i] in Deps(fe, m, sources(m)) {
          assert order'[|before|] == m;
        } else {
          var j :| i < j < |before| && before[i] in Deps(fe, before[j], sources(before[j]));
          assert order'[j] == before[j];
        }
      }
    }
  }

  lemma {:induction false} LoadAllReports<S, E, D>(fe: Frontend<S, E, D>, sources: Name -> S, rank: Name -> nat, all: set<Name>, names: seq<Name>, bound: nat, p: Pass<E, D>, order: seq<Name>)
    returns (order': seq<Name>)
    requires Acyclic(fe, sources, rank) && Loaded(fe, sources, rank, p, order) && forall d :: d in names ==> rank(d) < bound
    ensures Loaded(fe, sources, rank, LoadAll(fe, sources, rank, all, names, bound, p), order')
    ensures order <= order' && (forall d :: d in names ==> d in order') && Needed(fe, sources, order', |order|, names)
    decreases bound, 0, |names|
  {
    hide Fresh, Sorted, Load;
    if names == [] {
      order' := order;
    } else {
      var first := LoadReports(fe, sources, rank, all, names[0], p, order);
      order' := LoadAllReports(fe, sources, rank, all, names[1..], bound, Load(fe, sources, rank, all, names[0], p), first);
      NeededOn(fe, sources, first, order', |order|, names);
    }
  }

  lemma NeededOn<S, E, D>(fe: Frontend<S, E, D>, sources: Name -> S, first: seq<Name>, order': seq<Name>, start: nat, names: seq<Name>)
    requires names != [] && first <= order' && start <= |first|
    requires Needed(fe, sources, first, start, [names[0]]) && Needed(fe, sources, order', |first|, names[1..])
    ensures Needed(fe, sources, order', start, names)
  {
    forall i | start <= i < |order'| ensures order'[i] in names || NeededLater(fe, sources, order', i) {
      if i < |first| && first[i] !in [names[0]] {
        var j :| i < j < |first| && first[i] in Deps(fe, first[j], sources(first[j]));
        assert order'[j] == first[j];
      }
    }
  }

  lemma {:induction false} EntriesReport<S, E, D>(fe: Frontend<S, E, D>, sources: Name -> S, rank: Name -> nat, entries: seq<Name>, all: set<Name>, p: Pass<E, D>, order: seq<Name>)
    returns (order': seq<Name>)
    requires Acyclic(fe, sources, rank) && Loaded(fe, sources, rank, p, order)
    ensures Loaded(fe, sources, rank, LoadEntries(fe, sources, rank, entries, all, p), order')
    ensures order <= order' && (forall d :: d in entries ==> d in order') && Needed(fe, sources, order', |order|, entries)
    decreases |entries|
  {
    hide Fresh, Sorted, Load;
    if entries == [] {
      order' := order;
    } else {
      var first := LoadReports(fe, sources, rank, all, entries[0], p, order);
      order' := EntriesReport(fe, sources, rank, entries[1..], all, Load(fe, sources, rank, all, entries[0], p), first);
      NeededOn(fe, sources, first, order', |order|, entries);
    }
  }

  /** A full compile loads the entries and what they depend on, nothing else; it reports the
      diagnostics of their fresh analyses, each module's once, dependencies first. */
  lemma FullCompileReports<S, E, D>(fe: Frontend<S, E, D>, sources: Name -> S, rank: Name -> nat, entries: seq<Name>)
    returns (order: seq<Name>)
    requires Acyclic(fe, sources, rank)
    ensures var full := Check(fe, sources, rank, entries, None);
            && full.diagnostics == Reports(fe, sources, rank, order)
            && (forall m :: m in full.exports <==> m in order)
            && (forall m :: m in full.exports ==> full.exports[m] == Fresh(fe, sources, rank, m).exports)
    ensures Sorted(fe, sources, order) && (forall e :: e in entries ==> e in order) && Needed(fe, sources, order, 0, entries)
  {
    order := EntriesReport(fe, sources, rank, entries, (set e | e in entries), Pass(map[], None, {}, []), []);
  }

  /** So does every pass of a chain, whatever it reuses. */
  lemma EveryPassReports<S(!new), E, D>(fe: Frontend<S, E, D>, baked: set<Name>, rounds: seq<Round<S, E>>, i: nat)
    returns (order: seq<Name>)
    requires NoCollision(fe) && Acyclics(fe, rounds) && Chained(fe, baked, rounds) && i < |rounds|
    ensures var inc, s, r := Result(fe, rounds[i]), rounds[i].sources, rounds[i].rank;
            && inc.diagnostics == Reports(fe, s, r, order)
            && (forall m :: m in inc.exports <==> m in order)
            && Sorted(fe, s, order) && Needed(fe, s, order, 0, rounds[i].entries)
  {
    hide Check, Sorted, Needed, Reports;
    EveryPassAgrees(fe, baked, rounds, i);
    order := FullCompileReports(fe, rounds[i].sources, rounds[i].rank, rounds[i].entries);
  }

  // ----- what is loaded -----

  /** An import is loaded exactly if the module may import it, as often as it is imported, and
      in the order of the imports; the automatic ones come behind. */
  lemma {:induction false} AcceptedExactly<S, E, D>(fe: Frontend<S, E, D>, m: Name, names: seq<Name>, d: Name)
    ensures multiset(Accepted(fe, m, names))[d] == if fe.rejects(m, d) then 0 else multiset(names)[d]
    decreases |names|
  {
    if names != [] {
      var first, rest := names[0], Accepted(fe, m, names[1..]);
      AcceptedExactly(fe, m, names[1..], d);
      assert names == [first] + names[1..];
      if fe.rejects(m, first) { assert [] + rest == rest; }
    }
  }

  lemma {:induction false} AcceptedInOrder<S, E, D>(fe: Frontend<S, E, D>, m: Name, names: seq<Name>, more: seq<Name>)
    ensures Accepted(fe, m, names + more) == Accepted(fe, m, names) + Accepted(fe, m, more)
    decreases |names|
  {
    if names == [] {
      assert names + more == more;
    } else {
      AcceptedInOrder(fe, m, names[1..], more);
      assert (names + more)[0] == names[0] && (names + more)[1..] == names[1..] + more;
    }
  }

  // ----- what is analyzed again -----

  /** A new analysis is due: for an entry, after one of an import in `names`, or without a
      cached analysis of this very source. */
  ghost predicate Due<S, E, D>(fe: Frontend<S, E, D>, all: set<Name>, source: S, names: seq<Name>, cache: map<Name, Entry<E>>, redone: set<Name>, m: Name) {
    m in all || (exists d :: d in names && d in redone) || m !in cache || cache[m].hash != fe.hash(source)
  }

  /** What is loaded was analyzed anew if that was due, and only then. (An import that is
      rejected is not loaded first, so it may be redone too late to count.) */
  ghost predicate RedoneWhenDue<S, E, D>(fe: Frontend<S, E, D>, all: set<Name>, sources: Name -> S, cache: map<Name, Entry<E>>, p: Pass<E, D>) {
    && p.incremental.Some? && p.reanalyzed <= p.exports.Keys
    && (forall m :: m !in p.exports ==> CachedAlike(cache, p.incremental.value, m))
    && (forall m :: m in p.exports ==> Known(p, Accepted(fe, m, fe.imports(sources(m)))))
    && (forall m :: m in p.exports && m in p.reanalyzed ==> Due(fe, all, sources(m), fe.imports(sources(m)), cache, p.reanalyzed, m))
    && (forall m :: m in p.exports && Due(fe, all, sources(m), Accepted(fe, m, fe.imports(sources(m))), cache, p.reanalyzed, m) ==> m in p.reanalyzed)
  }

  ghost predicate CachedAlike<E>(cache: map<Name, Entry<E>>, cache': map<Name, Entry<E>>, m: Name) {
    (m in cache <==> m in cache') && (m in cache ==> cache[m] == cache'[m])
  }

  lemma FinishedWhenDue<S, E, D>(fe: Frontend<S, E, D>, all: set<Name>, sources: Name -> S, cache: map<Name, Entry<E>>, m: Name, p: Pass<E, D>)
    requires RedoneWhenDue(fe, all, sources, cache, p) && m !in p.exports && Known(p, Deps(fe, m, sources(m)))
    ensures RedoneWhenDue(fe, all, sources, cache, Finished(fe, all, m, sources(m), p))
  {
    var imports := fe.imports(sources(m));
    var accepted := Accepted(fe, m, imports);
    var p' := Finished(fe, all, m, sources(m), p);
    assert CachedAlike(cache, p.incremental.value, m);
    forall d | d in accepted ensures d in p.exports && d in imports {
      assert d in Deps(fe, m, sources(m));
      AcceptedImported(fe, m, imports, d);
    }
    forall x | x !in p'.exports ensures CachedAlike(cache, p'.incremental.value, x) { assert CachedAlike(cache, p.incremental.value, x); }
  }

  lemma {:induction false} LoadWhenDue<S, E, D>(fe: Frontend<S, E, D>, all: set<Name>, sources: Name -> S, rank: Name -> nat, cache: map<Name, Entry<E>>, m: Name, p: Pass<E, D>)
    requires Acyclic(fe, sources, rank) && RedoneWhenDue(fe, all, sources, cache, p)
    ensures RedoneWhenDue(fe, all, sources, cache, Load(fe, sources, rank, all, m, p))
    decreases rank(m), 1, 0
  {
    hide RedoneWhenDue;
    if m !in p.exports {
      var deps := Deps(fe, m, sources(m));
      LoadAllWhenDue(fe, all, sources, rank, cache, deps, rank(m), p);
      var q := LoadAll(fe, sources, rank, all, deps, rank(m), p);
      if m in q.exports { LoadAllStaysBelow(fe, sources, rank, all, deps, rank(m), p, m); }
      FinishedWhenDue(fe, all, sources, cache, m, q);
    }
  }

  lemma {:induction false} LoadAllWhenDue<S, E, D>(fe: Frontend<S, E, D>, all: set<Name>, sources: Name -> S, rank: Name -> nat, cache: map<Name, Entry<E>>, names: seq<Name>, bound: nat, p: Pass<E, D>)
    requires Acyclic(fe, sources, rank) && RedoneWhenDue(fe, all, sources, cache, p) && forall d :: d in names ==> rank(d) < bound
    ensures RedoneWhenDue(fe, all, sources, cache, LoadAll(fe, sources, rank, all, names, bound, p))
    decreases bound, 0, |names|
  {
    hide RedoneWhenDue, Load;
    if names != [] {
      LoadWhenDue(fe, all, sources, rank, cache, names[0], p);
      LoadAllWhenDue(fe, all, sources, rank, cache, names[1..], bound, Load(fe, sources, rank, all, names[0], p));
    }
  }

  lemma {:induction false} EntriesWhenDue<S, E, D>(fe: Frontend<S, E, D>, all: set<Name>, sources: Name -> S, rank: Name -> nat, cache: map<Name, Entry<E>>, entries: seq<Name>, p: Pass<E, D>)
    requires Acyclic(fe, sources, rank) && RedoneWhenDue(fe, all, sources, cache, p)
    ensures RedoneWhenDue(fe, all, sources, cache, LoadEntries(fe, sources, rank, entries, all, p))
    decreases |entries|
  {
    hide RedoneWhenDue, Load;
    if entries != [] {
      LoadWhenDue(fe, all, sources, rank, cache, entries[0], p);
      EntriesWhenDue(fe, all, sources, rank, cache, entries[1..], Load(fe, sources, rank, all, entries[0], p));
    }
  }

  /** A pass from a cache analyzes a module anew if that is due, and only then; so, with no
      import rejected, exactly then. */
  lemma ReanalyzedWhenDue<S, E, D>(fe: Frontend<S, E, D>, sources: Name -> S, rank: Name -> nat, entries: seq<Name>, cache: map<Name, Entry<E>>, m: Name)
    requires Acyclic(fe, sources, rank) && m in Check(fe, sources, rank, entries, Some(cache)).exports
    ensures var redone, imports, all := Check(fe, sources, rank, entries, Some(cache)).reanalyzed, fe.imports(sources(m)), (set e | e in entries);
            && (m in redone ==> Due(fe, all, sources(m), imports, cache, redone, m))
            && (Due(fe, all, sources(m), Accepted(fe, m, imports), cache, redone, m) ==> m in redone)
            && (Accepted(fe, m, imports) == imports ==> (m in redone <==> Due(fe, all, sources(m), imports, cache, redone, m)))
  {
    var all := set e | e in entries;
    assert RedoneWhenDue(fe, all, sources, cache, Pass(map[], Some(cache), {}, []));
    EntriesWhenDue(fe, all, sources, rank, cache, entries, Pass(map[], Some(cache), {}, []));
  }

  /** Nothing to do for a module and its imports, at any depth: none is an entry, imports a
      module it may not, or has another source than its cached analysis. */
  ghost predicate Idle<S, E, D>(fe: Frontend<S, E, D>, all: set<Name>, sources: Name -> S, rank: Name -> nat, cache: map<Name, Entry<E>>, m: Name)
    requires Acyclic(fe, sources, rank)
    decreases rank(m)
  {
    && m !in all && m in cache && cache[m].hash == fe.hash(sources(m)) && Accepted(fe, m, fe.imports(sources(m))) == fe.imports(sources(m))
    && forall d :: d in Deps(fe, m, sources(m)) ==> Idle(fe, all, sources, rank, cache, d)
  }

  /** Such a module is reused. */
  lemma {:induction false} IdleIsReused<S, E, D>(fe: Frontend<S, E, D>, sources: Name -> S, rank: Name -> nat, entries: seq<Name>, cache: map<Name, Entry<E>>, m: Name)
    requires Acyclic(fe, sources, rank) && Idle(fe, (set e | e in entries), sources, rank, cache, m)
    ensures m !in Check(fe, sources, rank, entries, Some(cache)).reanalyzed
    decreases rank(m)
  {
    hide Check;
    var redone, all := Check(fe, sources, rank, entries, Some(cache)).reanalyzed, (set e | e in entries);
    forall d | d in fe.imports(sources(m)) ensures d !in redone {
      assert d in Deps(fe, m, sources(m));
      IdleIsReused(fe, sources, rank, entries, cache, d);
    }
    RedoneIsLoaded(fe, sources, rank, entries, cache);
    if m in redone { ReanalyzedWhenDue(fe, sources, rank, entries, cache, m); }
  }

  lemma RedoneIsLoaded<S, E, D>(fe: Frontend<S, E, D>, sources: Name -> S, rank: Name -> nat, entries: seq<Name>, cache: map<Name, Entry<E>>)
    requires Acyclic(fe, sources, rank)
    ensures var p := Check(fe, sources, rank, entries, Some(cache)); p.reanalyzed <= p.exports.Keys
  {
    var all := set e | e in entries;
    assert RedoneWhenDue(fe, all, sources, cache, Pass(map[], Some(cache), {}, []));
    EntriesWhenDue(fe, all, sources, rank, cache, entries, Pass(map[], Some(cache), {}, []));
  }
}
