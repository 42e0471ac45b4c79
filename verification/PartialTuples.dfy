/** The partial tuples of a whole run of the solver: what element accesses, merges and closing
    against a concrete tuple make of them. */
module PartialTuples {
  import opened Wrappers
  import opened RowMerge

  type Rows<T> = map<nat, Row<nat, T>>

  /** The partial tuples in the program's types, the row solutions recorded so far, and the
      next row variable. */
  datatype Run<T> = Run(partials: seq<Row<nat, T>>, rows: Rows<T>, next: nat)

  /** A solution's own tail is a later variable than the one it solves. */
  ghost predicate Ascending<T>(rows: Rows<T>, next: nat) {
    forall r :: r in rows ==> r < next && (rows[r].tail.Some? ==> r < rows[r].tail.value < next)
  }

  /** A partial tuple with its tail chased through the recorded solutions. */
  ghost function Chased<T>(p: Row<nat, T>, rows: Rows<T>, next: nat): Row<nat, T>
    requires Ascending(rows, next)
    decreases if p.tail.Some? && p.tail.value < next then next - p.tail.value else 0
  {
    if p.tail.Some? && p.tail.value in rows then
      var row := rows[p.tail.value];
      Chased(Row(p.fields + row.fields, row.tail), rows, next)
    else p
  }

  ghost predicate SameLabels<T>(fs: Fields<nat, T>, gs: Fields<nat, T>) {
    forall l: nat :: HasLabel(fs, l) <==> HasLabel(gs, l)
  }

  /** The labels are the indices of a tuple of `n` elements. */
  ghost predicate Indices<T>(fs: Fields<nat, T>, n: nat) {
    forall l: nat :: HasLabel(fs, l) <==> l < n
  }

  /** Resolved, a partial tuple that is closed and leaves no gap is a concrete tuple again. */
  ghost predicate Collapses<T>(p: Row<nat, T>) {
    p.tail == None && p.fields != [] && exists n: nat :: Indices(p.fields, n)
  }

  /** Partial tuples with the same unsolved tail know the same indices, and a closed one
      leaves no gap. */
  ghost predicate Sound<T(!new)>(s: Run<T>) {
    && Ascending(s.rows, s.next)
    && (forall p :: p in s.partials ==> SoundPartial(s, p))
    && (forall p, q :: p in s.partials && q in s.partials ==> Alike(Chased(p, s.rows, s.next), Chased(q, s.rows, s.next)))
  }

  ghost predicate SoundPartial<T>(s: Run<T>, p: Row<nat, T>)
    requires Ascending(s.rows, s.next)
  {
    var c := Chased(p, s.rows, s.next);
    p.fields != [] && (p.tail.Some? ==> p.tail.value < s.next) && Distinct(c.fields) && (c.tail == None ==> Collapses(c))
  }

  ghost predicate Alike<T>(c: Row<nat, T>, d: Row<nat, T>) {
    c.tail.Some? && c.tail == d.tail ==> SameLabels(c.fields, d.fields)
  }

  // ----- steps -----

  /** An element access `e.i` asks for a tuple with index `i` and a fresh tail. */
  ghost predicate Accesses<T>(s: Run<T>, s': Run<T>, i: nat, t: T) {
    s' == Run(s.partials + [Row([(i, t)], Some(s.next))], s.rows, s.next + 1)
  }

  /** A type read back from the solver carries the resolved partial tuple. */
  ghost predicate Resolves<T>(s: Run<T>, s': Run<T>, p: Row<nat, T>)
    requires Ascending(s.rows, s.next)
  {
    p in s.partials && s' == s.(partials := s.partials + [Chased(p, s.rows, s.next)])
  }

  /** An instantiated scheme shares one fresh tail among the partial tuples that shared one. */
  ghost predicate Instantiates<T>(s: Run<T>, s': Run<T>, ps: seq<Row<nat, T>>, tail: nat)
    requires Ascending(s.rows, s.next)
  {
    && (forall p :: p in ps ==> p in s.partials && Chased(p, s.rows, s.next).tail == Some(tail))
    && s' == Run(s.partials + Renewed(ps, s.rows, s.next), s.rows, s.next + 1)
  }

  ghost function Renewed<T>(ps: seq<Row<nat, T>>, rows: Rows<T>, next: nat): (r: seq<Row<nat, T>>)
    requires Ascending(rows, next)
    ensures forall q :: q in r ==> exists p :: p in ps && q == Row(Chased(p, rows, next).fields, Some(next))
  {
    if ps == [] then [] else
      assert ps[0] in ps && forall p :: p in ps[1..] ==> p in ps;
      [Row(Chased(ps[0], rows, next).fields, Some(next))] + Renewed(ps[1..], rows, next)
  }

  /** Two open partial tuples are merged (the effect of `UnifyTuples`). */
  ghost predicate Merges<T>(s: Run<T>, s': Run<T>, p: Row<nat, T>, q: Row<nat, T>)
    requires Ascending(s.rows, s.next)
  {
    var c, d := Chased(p, s.rows, s.next), Chased(q, s.rows, s.next);
    && p in s.partials && q in s.partials && c.tail.Some? && d.tail.Some? && c.tail != d.tail
    && s' == Run(s.partials, s.rows + MergeOf(c, d, s.next).rows, s.next + 1)
  }

  /** An open one is closed against a concrete tuple (the effect of `UnifyTupleWithPartial`);
      a partial tuple that collapsed counts as concrete. */
  ghost predicate Closes<T>(s: Run<T>, s': Run<T>, p: Row<nat, T>, es: seq<T>)
    requires Ascending(s.rows, s.next)
  {
    var c := Chased(p, s.rows, s.next);
    && p in s.partials && c.tail.Some? && InBounds(es, c)
    && s' == s.(rows := s.rows[c.tail.value := Row(Only(Indexed(es).fields, c.fields), None)])
  }

  ghost predicate Step<T(!new)>(s: Run<T>, s': Run<T>) {
    Ascending(s.rows, s.next) &&
    (|| s' == s
     || (exists i, t :: Accesses(s, s', i, t))
     || (exists p :: Resolves(s, s', p))
     || (exists ps, tail :: Instantiates(s, s', ps, tail))
     || (exists p, q :: Merges(s, s', p, q))
     || (exists p, es :: Closes(s, s', p, es)))
  }

  // ----- chasing through more solutions -----

  /** Chasing ends at a tail without a solution. */
  lemma {:induction false} ChasedEnds<T>(p: Row<nat, T>, rows: Rows<T>, next: nat)
    requires Ascending(rows, next) && (p.tail.Some? ==> p.tail.value < next)
    ensures var c := Chased(p, rows, next);
            && (c.tail.Some? ==> c.tail.value !in rows && c.tail.value < next)
            && Chased(c, rows, next) == c
            && (p.fields != [] ==> c.fields != [])
    decreases if p.tail.Some? && p.tail.value < next then next - p.tail.value else 0
  {
    if p.tail.Some? && p.tail.value in rows {
      var row := rows[p.tail.value];
      ChasedEnds(Row(p.fields + row.fields, row.tail), rows, next);
    }
  }

  /** New solutions extend a chased partial tuple at most once more. */
  lemma {:induction false} ChasedFurther<T>(p: Row<nat, T>, rows: Rows<T>, next: nat, rows': Rows<T>, next': nat)
    requires Ascending(rows, next) && Ascending(rows', next') && next <= next'
    requires forall r :: r in rows ==> r in rows' && rows'[r] == rows[r]
    requires forall r :: r in rows' && r !in rows ==> rows'[r].tail.Some? ==> rows'[r].tail.value !in rows'
    requires p.tail.Some? ==> p.tail.value < next
    ensures var c := Chased(p, rows, next);
            Chased(p, rows', next') == if c.tail.Some? && c.tail.value in rows'
                                       then Row(c.fields + rows'[c.tail.value].fields, rows'[c.tail.value].tail) else c
    decreases if p.tail.Some? && p.tail.value < next then next - p.tail.value else 0
  {
    if p.tail.Some? && p.tail.value in rows {
      var row := rows[p.tail.value];
      ChasedFurther(Row(p.fields + row.fields, row.tail), rows, next, rows', next');
    }
  }

  // ----- the invariant -----

  lemma AddedKeeps<T(!new)>(s: Run<T>, s': Run<T>, more: seq<Row<nat, T>>)
    requires Sound(s) && s.next <= s'.next && s' == Run(s.partials + more, s.rows, s'.next)
    requires forall p :: p in more ==> SoundPartial(s', p)
    requires forall p, q :: p in more && q in s'.partials ==> Alike(Chased(p, s'.rows, s'.next), Chased(q, s'.rows, s'.next))
    ensures Sound(s')
  {
    hide SameLabels, Distinct, Collapses;
    forall p | p in s'.partials ensures SoundPartial(s', p) {
      if p in s.partials { assert SoundPartial(s, p); ChasedFurther(p, s.rows, s.next, s'.rows, s'.next); ChasedEnds(p, s.rows, s.next); }
    }
    forall p, q | p in s'.partials && q in s'.partials ensures Alike(Chased(p, s'.rows, s'.next), Chased(q, s'.rows, s'.next)) {
      if p in s.partials && q in s.partials {
        assert SoundPartial(s, p) && SoundPartial(s, q);
        ChasedFurther(p, s.rows, s.next, s'.rows, s'.next);
        ChasedFurther(q, s.rows, s.next, s'.rows, s'.next);
        ChasedEnds(p, s.rows, s.next);
        ChasedEnds(q, s.rows, s.next);
      } else if p in s.partials {
        assert Alike(Chased(q, s'.rows, s'.next), Chased(p, s'.rows, s'.next));
        AlikeSymmetric(Chased(q, s'.rows, s'.next), Chased(p, s'.rows, s'.next));
      }
    }
  }

  lemma AlikeSymmetric<T>(c: Row<nat, T>, d: Row<nat, T>)
    requires Alike(c, d)
    ensures Alike(d, c)
  {
  }

  lemma AccessKeeps<T(!new)>(s: Run<T>, s': Run<T>, i: nat, t: T)
    requires Sound(s) && Accesses(s, s', i, t)
    ensures Sound(s')
  {
    var p := Row([(i, t)], Some(s.next));
    assert Chased(p, s'.rows, s'.next) == p;
    forall q | q in s'.partials ensures Alike(p, Chased(q, s'.rows, s'.next)) {
      if q in s.partials {
        assert SoundPartial(s, q);
        ChasedFurther(q, s.rows, s.next, s'.rows, s'.next);
        ChasedEnds(q, s.rows, s.next);
      } else {
        assert q == p;
      }
    }
    AddedKeeps(s, s', [p]);
  }

  lemma ResolveKeeps<T(!new)>(s: Run<T>, s': Run<T>, p: Row<nat, T>)
    requires Sound(s) && Resolves(s, s', p)
    ensures Sound(s')
  {
    assert SoundPartial(s, p);
    ChasedEnds(p, s.rows, s.next);
    var c := Chased(p, s.rows, s.next);
    forall q | q in s'.partials ensures Alike(c, Chased(q, s.rows, s.next)) {
      if q in s.partials { assert Alike(Chased(p, s.rows, s.next), Chased(q, s.rows, s.next)); }
    }
    AddedKeeps(s, s', [c]);
  }

  lemma InstantiateKeeps<T(!new)>(s: Run<T>, s': Run<T>, ps: seq<Row<nat, T>>, tail: nat)
    requires Sound(s) && Instantiates(s, s', ps, tail)
    ensures Sound(s')
  {
    var more := Renewed(ps, s.rows, s.next);
    forall q | q in more ensures SoundPartial(s', q) && Chased(q, s'.rows, s'.next) == q {
      var p :| p in ps && q == Row(Chased(p, s.rows, s.next).fields, Some(s.next));
      assert SoundPartial(s, p);
      ChasedEnds(p, s.rows, s.next);
    }
    forall q, o | q in more && o in s'.partials ensures Alike(Chased(q, s'.rows, s'.next), Chased(o, s'.rows, s'.next)) {
      var p :| p in ps && q == Row(Chased(p, s.rows, s.next).fields, Some(s.next));
      if o in s.partials {
        assert SoundPartial(s, o);
        ChasedFurther(o, s.rows, s.next, s'.rows, s'.next);
        ChasedEnds(o, s.rows, s.next);
      } else {
        assert o in more;
        var r :| r in ps && o == Row(Chased(r, s.rows, s.next).fields, Some(s.next));
        assert Alike(Chased(p, s.rows, s.next), Chased(r, s.rows, s.next));
      }
    }
    AddedKeeps(s, s', more);
  }

  /** What is left out of `fs`, put behind it, completes the labels. */
  lemma Completed<T>(fs: Fields<nat, T>, gs: Fields<nat, T>, hs: Fields<nat, T>)
    requires Distinct(fs) && Distinct(hs) && SameLabels(fs, gs)
    ensures Distinct(fs + Only(hs, gs))
    ensures forall l: nat :: HasLabel(fs + Only(hs, gs), l) <==> HasLabel(fs, l) || HasLabel(hs, l)
  {
    OnlyLabels(hs, gs);
    ConcatLabels(fs, Only(hs, gs));
  }

  lemma MergeKeeps<T(!new)>(s: Run<T>, s': Run<T>, p: Row<nat, T>, q: Row<nat, T>)
    requires Sound(s) && Merges(s, s', p, q)
    ensures Sound(s')
  {
    hide SameLabels, Distinct, Collapses, Only, HasLabel;
    var c, d := Chased(p, s.rows, s.next), Chased(q, s.rows, s.next);
    var a, b := c.tail.value, d.tail.value;
    assert SoundPartial(s, p) && SoundPartial(s, q);
    ChasedEnds(p, s.rows, s.next);
    ChasedEnds(q, s.rows, s.next);
    assert s'.rows == s.rows[a := Row(Only(d.fields, c.fields), Some(s.next))][b := Row(Only(c.fields, d.fields), Some(s.next))];
    assert Ascending(s'.rows, s'.next);
    forall o | o in s'.partials ensures SoundPartial(s', o) && Merged(s', o, c, d, Chased(o, s.rows, s.next)) {
      MergedOne(s, s', c, d, p, q, o);
    }
    forall o, r | o in s'.partials && r in s'.partials ensures Alike(Chased(o, s'.rows, s'.next), Chased(r, s'.rows, s'.next)) {
      assert SoundPartial(s, o) && SoundPartial(s, r);
      ChasedEnds(o, s.rows, s.next);
      ChasedEnds(r, s.rows, s.next);
      MergedAlike(s', o, r, c, d, Chased(o, s.rows, s.next), Chased(r, s.rows, s.next));
    }
  }

  lemma MergedAlike<T>(s': Run<T>, o: Row<nat, T>, r: Row<nat, T>, c: Row<nat, T>, d: Row<nat, T>, before: Row<nat, T>, before': Row<nat, T>)
    requires Ascending(s'.rows, s'.next) && Alike(before, before')
    requires before.tail.Some? ==> before.tail.value + 1 < s'.next
    requires before'.tail.Some? ==> before'.tail.value + 1 < s'.next
    requires Merged(s', o, c, d, before) && Merged(s', r, c, d, before')
    ensures Alike(Chased(o, s'.rows, s'.next), Chased(r, s'.rows, s'.next))
  {
    hide SameLabels, IsUnion, Chased;
    var after, after' := Chased(o, s'.rows, s'.next), Chased(r, s'.rows, s'.next);
    if after.tail.Some? && after.tail == after'.tail && after.tail.value + 1 == s'.next {
      UnionsAlike(after.fields, after'.fields, c.fields, d.fields);
    }
  }

  /** After a merge, what ended in either tail knows the indices of both sides. */
  ghost predicate Merged<T>(s': Run<T>, o: Row<nat, T>, c: Row<nat, T>, d: Row<nat, T>, before: Row<nat, T>)
    requires Ascending(s'.rows, s'.next)
  {
    var after := Chased(o, s'.rows, s'.next);
    if before.tail.Some? && (before.tail == c.tail || before.tail == d.tail)
    then after.tail.Some? && after.tail.value + 1 == s'.next && IsUnion(after.fields, c.fields, d.fields)
    else after == before
  }

  ghost predicate IsUnion<T>(fs: Fields<nat, T>, gs: Fields<nat, T>, hs: Fields<nat, T>) {
    forall l: nat :: HasLabel(fs, l) <==> HasLabel(gs, l) || HasLabel(hs, l)
  }

  lemma UnionsAlike<T>(fs: Fields<nat, T>, fs': Fields<nat, T>, gs: Fields<nat, T>, hs: Fields<nat, T>)
    requires IsUnion(fs, gs, hs) && IsUnion(fs', gs, hs)
    ensures SameLabels(fs, fs')
  {
  }

  lemma MergedOne<T(!new)>(s: Run<T>, s': Run<T>, c: Row<nat, T>, d: Row<nat, T>, p: Row<nat, T>, q: Row<nat, T>, o: Row<nat, T>)
    requires Sound(s) && Merges(s, s', p, q) && o in s.partials && Ascending(s'.rows, s'.next)
    requires c == Chased(p, s.rows, s.next) && d == Chased(q, s.rows, s.next)
    ensures SoundPartial(s', o) && Merged(s', o, c, d, Chased(o, s.rows, s.next))
  {
    hide SameLabels, Distinct, Only, IsUnion, Collapses;
    var before := Chased(o, s.rows, s.next);
    assert SoundPartial(s, o) && SoundPartial(s, p) && SoundPartial(s, q) && Alike(before, c) && Alike(before, d);
    ChasedEnds(o, s.rows, s.next);
    ChasedEnds(p, s.rows, s.next);
    ChasedEnds(q, s.rows, s.next);
    ChasedFurther(o, s.rows, s.next, s'.rows, s'.next);
    ChasedEnds(o, s'.rows, s'.next);
    hide Sound, Chased;
    if before.tail.Some? && before.tail == c.tail {
      Completed(before.fields, c.fields, d.fields);
      UnionOf(before.fields, c.fields, d.fields);
    } else if before.tail.Some? && before.tail == d.tail {
      Completed(before.fields, d.fields, c.fields);
      UnionOf(before.fields, d.fields, c.fields);
    }
  }

  lemma UnionOf<T>(fs: Fields<nat, T>, gs: Fields<nat, T>, hs: Fields<nat, T>)
    requires SameLabels(fs, gs) && forall l: nat :: HasLabel(fs + Only(hs, gs), l) <==> HasLabel(fs, l) || HasLabel(hs, l)
    ensures IsUnion(fs + Only(hs, gs), gs, hs) && IsUnion(fs + Only(hs, gs), hs, gs)
  {
    hide Only;
  }

  lemma CloseKeeps<T(!new)>(s: Run<T>, s': Run<T>, p: Row<nat, T>, es: seq<T>)
    requires Sound(s) && Closes(s, s', p, es)
    ensures Sound(s')
  {
    hide SameLabels, Distinct, Only, HasLabel, InBounds, Collapses;
    var c := Chased(p, s.rows, s.next);
    assert SoundPartial(s, p);
    ChasedEnds(p, s.rows, s.next);
    assert Ascending(s'.rows, s'.next);
    forall o | o in s'.partials
      ensures SoundPartial(s', o)
      ensures Chased(o, s'.rows, s'.next).tail.Some? ==> Chased(o, s'.rows, s'.next) == Chased(o, s.rows, s.next)
    {
      ClosedOne(s, s', c, p, es, o);
    }
  }

  lemma ClosedOne<T(!new)>(s: Run<T>, s': Run<T>, c: Row<nat, T>, p: Row<nat, T>, es: seq<T>, o: Row<nat, T>)
    requires Sound(s) && Closes(s, s', p, es) && o in s.partials && Ascending(s'.rows, s'.next) && c == Chased(p, s.rows, s.next)
    ensures SoundPartial(s', o)
    ensures Chased(o, s'.rows, s'.next).tail.Some? ==> Chased(o, s'.rows, s'.next) == Chased(o, s.rows, s.next)
  {
    var before := Chased(o, s.rows, s.next);
    assert SoundPartial(s, o) && SoundPartial(s, p);
    ChasedEnds(o, s.rows, s.next);
    ChasedEnds(p, s.rows, s.next);
    ChasedFurther(o, s.rows, s.next, s'.rows, s'.next);
    if before.tail == c.tail {
      assert Alike(before, c);
      IndexedLabels(es);
      Completed(before.fields, c.fields, Indexed(es).fields);
      assert SameLabels(before.fields, c.fields);
      forall l: nat | HasLabel(before.fields, l) ensures l < |es| {
        assert HasLabel(c.fields, l);
        var i :| 0 <= i < |c.fields| && c.fields[i].0 == l;
      }
      var after := Chased(o, s'.rows, s'.next);
      assert after.fields == before.fields + Only(Indexed(es).fields, c.fields);
      forall l: nat ensures HasLabel(after.fields, l) <==> l < |es| { assert HasLabel(Indexed(es).fields, l) <==> l < |es|; }
      assert Indices(after.fields, |es|);
    }
  }

  /** Every step keeps it. */
  lemma StepKeeps<T(!new)>(s: Run<T>, s': Run<T>)
    requires Sound(s) && Step(s, s')
    ensures Sound(s')
  {
    hide Sound;
    if s' == s {
    } else if i, t :| Accesses(s, s', i, t) {
      AccessKeeps(s, s', i, t);
    } else if p :| Resolves(s, s', p) {
      ResolveKeeps(s, s', p);
    } else if ps, tail :| Instantiates(s, s', ps, tail) {
      InstantiateKeeps(s, s', ps, tail);
    } else if p, q :| Merges(s, s', p, q) {
      MergeKeeps(s, s', p, q);
    } else {
      var p, es :| Closes(s, s', p, es);
      CloseKeeps(s, s', p, es);
    }
  }

  /** A run from a program without partial tuples. */
  ghost predicate IsRun<T(!new)>(run: seq<Run<T>>) {
    && run != [] && run[0].partials == [] && run[0].rows == map[]
    && forall i :: 0 <= i < |run| - 1 ==> Step(run[i], run[i + 1])
  }

  lemma {:induction false} RunKeeps<T(!new)>(run: seq<Run<T>>, k: nat)
    requires IsRun(run) && k < |run|
    ensures Sound(run[k])
  {
    if k > 0 {
      RunKeeps(run, k - 1);
      assert Step(run[k - 1], run[k - 1 + 1]);
      StepKeeps(run[k - 1], run[k]);
    }
  }

  /** So the tuple arm is exact in every run: a partial tuple it is handed, one that did not
      collapse, is open, no index is left out behind a closed tail, and the pairs it reports
      are exactly those that can never be equal. */
  lemma TupleArmIsExact<T(!new)>(run: seq<Run<T>>, k: nat, p: Row<nat, T>, es: seq<T>)
    requires IsRun(run) && k < |run| && p in run[k].partials
    requires Ascending(run[k].rows, run[k].next) && !Collapses(Chased(p, run[k].rows, run[k].next))
    ensures var c := Chased(p, run[k].rows, run[k].next);
            c.tail.Some? && !ClosedGap(es, c) && (Incompatible(Indexed(es), c) <==> !InBounds(es, c))
  {
    RunKeeps(run, k);
    assert SoundPartial(run[k], p);
    TuplePartialExact(es, Chased(p, run[k].rows, run[k].next));
  }

  /** Two open partial tuples with one tail know the same indices, so merging them never
      reports a mismatch: the tuple merge never fails in a run. */
  lemma OpenMergeNeverFails<T(!new)>(run: seq<Run<T>>, k: nat, p: Row<nat, T>, q: Row<nat, T>)
    requires IsRun(run) && k < |run| && p in run[k].partials && q in run[k].partials
    requires Ascending(run[k].rows, run[k].next)
    requires !Collapses(Chased(p, run[k].rows, run[k].next)) && !Collapses(Chased(q, run[k].rows, run[k].next))
    ensures !Incompatible(Chased(p, run[k].rows, run[k].next), Chased(q, run[k].rows, run[k].next))
  {
    RunKeeps(run, k);
    var c, d := Chased(p, run[k].rows, run[k].next), Chased(q, run[k].rows, run[k].next);
    assert SoundPartial(run[k], p) && SoundPartial(run[k], q) && Alike(c, d);
    OnlyLabels(c.fields, d.fields);
    OnlyLabels(d.fields, c.fields);
    if c.tail == d.tail {
      NoLabels(Only(c.fields, d.fields));
      NoLabels(Only(d.fields, c.fields));
    }
  }

  lemma NoLabels<T>(fs: Fields<nat, T>)
    requires forall l :: !HasLabel(fs, l)
    ensures fs == []
  {
    if fs != [] { assert HasLabel(fs, fs[0].0); }
  }
}
