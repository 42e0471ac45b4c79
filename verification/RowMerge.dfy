/** Row unification for open records and partial tuples. Both keep a list of labelled
    types and an optional row variable for the labels not yet known; the labels are
    field names for records and indices for tuples. */
module RowMerge {

  import opened Wrappers

  type Fields<L, T> = seq<(L, T)>

  /** What a row variable stands for: extra fields, then either nothing or another row. */
  datatype Row<L, T> = Row(fields: Fields<L, T>, tail: Option<nat>)

  datatype RowError<L, T> =
    | FieldNotPresent(missing: L, closed: Fields<L, T>)
    | RowMismatch(expected: Row<L, T>, found: Row<L, T>)
    | IndexNotPresent(index: L, elements: seq<T>)

  predicate HasLabel<L(==), T>(fs: Fields<L, T>, l: L) {
    exists i :: 0 <= i < |fs| && fs[i].0 == l
  }

  ghost predicate Distinct<L, T>(fs: Fields<L, T>) {
    forall i, j :: 0 <= i < j < |fs| ==> fs[i].0 != fs[j].0
  }

  /** The fields of `fs` whose label `gs` lacks, in order. */
  function Only<L(==), T>(fs: Fields<L, T>, gs: Fields<L, T>): Fields<L, T> {
    if fs == [] then []
    else if HasLabel(gs, fs[0].0) then Only(fs[1..], gs)
    else [fs[0]] + Only(fs[1..], gs)
  }

  function Lookup<L(==), T>(fs: Fields<L, T>, l: L): (t: T)
    requires HasLabel(fs, l)
    ensures exists i :: 0 <= i < |fs| && fs[i] == (l, t)
  {
    if fs[0].0 == l then assert fs[0] == (l, fs[0].1); fs[0].1
    else
      assert HasLabel(fs[1..], l) by { var i :| 0 <= i < |fs| && fs[i].0 == l; assert fs[1..][i - 1].0 == l; }
      Lookup(fs[1..], l)
  }

  /** The types both sides give a shared label. */
  function Shared<L(==), T>(fs: Fields<L, T>, gs: Fields<L, T>): seq<(T, T)> {
    if fs == [] then []
    else if HasLabel(gs, fs[0].0) then [(fs[0].1, Lookup(gs, fs[0].0))] + Shared(fs[1..], gs)
    else Shared(fs[1..], gs)
  }

  // ----- what rows denote -----

  /** The field map a list of labelled types denotes under an interpretation of types. */
  ghost function FieldMap<L(!new), T, G>(fs: Fields<L, T>, ev: T -> G): (m: map<L, G>)
    ensures forall l :: l in m <==> HasLabel(fs, l)
  {
    if fs == [] then map[] else
      assert forall l :: HasLabel(fs, l) <==> fs[0].0 == l || HasLabel(fs[1..], l) by { HeadLabel(fs); }
      FieldMap(fs[1..], ev)[fs[0].0 := ev(fs[0].1)]
  }

  lemma HeadLabel<L(!new), T>(fs: Fields<L, T>)
    requires fs != []
    ensures forall l :: HasLabel(fs, l) <==> fs[0].0 == l || HasLabel(fs[1..], l)
  {
    forall l | HasLabel(fs, l) && fs[0].0 != l ensures HasLabel(fs[1..], l) {
      var i :| 0 <= i < |fs| && fs[i].0 == l;
      assert fs[1..][i - 1].0 == l;
    }
    forall l | HasLabel(fs[1..], l) ensures HasLabel(fs, l) {
      var i :| 0 <= i < |fs[1..]| && fs[1..][i].0 == l;
      assert fs[i + 1].0 == l;
    }
  }

  ghost function TailMap<L, G>(tail: Option<nat>, rv: nat -> map<L, G>): map<L, G> {
    match tail case None => map[] case Some(r) => rv(r)
  }

  ghost function Denote<L(!new), T, G>(r: Row<L, T>, ev: T -> G, rv: nat -> map<L, G>): map<L, G> {
    FieldMap(r.fields, ev) + TailMap(r.tail, rv)
  }

  /** A row's tail supplies only labels the row does not list itself. */
  ghost predicate Apart<L(!new), T, G>(r: Row<L, T>, rv: nat -> map<L, G>) {
    forall l :: l in TailMap(r.tail, rv) ==> !HasLabel(r.fields, l)
  }

  ghost predicate PairsHold<T, G>(pairs: seq<(T, T)>, ev: T -> G) {
    forall p :: p in pairs ==> ev(p.0) == ev(p.1)
  }

  /** The row variable's solution is an equation that holds, with a well-formed row. */
  ghost predicate RowsHold<L(!new), T, G>(rows: map<nat, Row<L, T>>, ev: T -> G, rv: nat -> map<L, G>) {
    forall r :: r in rows ==> RowHolds(rows[r], r, ev, rv)
  }

  ghost predicate RowHolds<L(!new), T, G>(row: Row<L, T>, r: nat, ev: T -> G, rv: nat -> map<L, G>) {
    Apart(row, rv) && rv(r) == Denote(row, ev, rv)
  }

  ghost function With<L, G>(rv: nat -> map<L, G>, r: nat, x: map<L, G>): nat -> map<L, G> {
    (n: nat) => if n == r then x else rv(n)
  }

  // ----- field maps of the pieces -----

  ghost predicate Agree<L(!new), G>(m1: map<L, G>, m2: map<L, G>) {
    forall l :: l in m1 && l in m2 ==> m1[l] == m2[l]
  }

  lemma DistinctTail<L(!new), T>(fs: Fields<L, T>)
    requires Distinct(fs) && fs != []
    ensures Distinct(fs[1..]) && !HasLabel(fs[1..], fs[0].0)
  {
    forall i | 0 <= i < |fs[1..]| ensures fs[1..][i].0 != fs[0].0 { assert fs[1..][i] == fs[i + 1]; }
  }

  lemma DistinctCons<L(!new), T>(f: (L, T), fs: Fields<L, T>)
    requires Distinct(fs) && !HasLabel(fs, f.0)
    ensures Distinct([f] + fs)
  {
  }

  lemma {:induction false} OnlyMap<L(!new), T, G>(fs: Fields<L, T>, gs: Fields<L, T>, ev: T -> G)
    requires Distinct(fs)
    ensures FieldMap(Only(fs, gs), ev) == FieldMap(fs, ev) - FieldMap(gs, ev).Keys
    ensures Distinct(Only(fs, gs))
  {
    if fs != [] {
      DistinctTail(fs);
      OnlyMap(fs[1..], gs, ev);
      OnlyMapCons(fs, gs, ev);
    }
  }

  lemma OnlyMapCons<L(!new), T, G>(fs: Fields<L, T>, gs: Fields<L, T>, ev: T -> G)
    requires fs != [] && !HasLabel(fs[1..], fs[0].0)
    requires var rest := Only(fs[1..], gs);
             Distinct(rest) && FieldMap(rest, ev) == FieldMap(fs[1..], ev) - FieldMap(gs, ev).Keys
    ensures FieldMap(Only(fs, gs), ev) == FieldMap(fs, ev) - FieldMap(gs, ev).Keys
    ensures Distinct(Only(fs, gs))
  {
    var rest := Only(fs[1..], gs);
    var m, n, l, v := FieldMap(fs[1..], ev), FieldMap(gs, ev), fs[0].0, ev(fs[0].1);
    assert FieldMap(fs, ev) == m[l := v] && (l in n <==> HasLabel(gs, l)) && l !in m;
    UpdateMinus(m, l, v, n.Keys);
    if !HasLabel(gs, l) {
      assert Only(fs, gs) == [fs[0]] + rest;
      hide Only, FieldMap;
      FieldMapCons(fs[0], rest, ev);
      assert !HasLabel(rest, l) by { assert l !in FieldMap(rest, ev); }
      DistinctCons(fs[0], rest);
    }
  }

  lemma UpdateMinus<L, G>(m: map<L, G>, l: L, v: G, ks: set<L>)
    requires l !in m
    ensures m[l := v] - ks == if l in ks then m - ks else (m - ks)[l := v]
  {
  }

  lemma FieldMapCons<L(!new), T, G>(f: (L, T), fs: Fields<L, T>, ev: T -> G)
    ensures FieldMap([f] + fs, ev) == FieldMap(fs, ev)[f.0 := ev(f.1)]
  {
    assert ([f] + fs)[1..] == fs;
  }

  lemma {:induction false} FieldMapAt<L(!new), T, G>(fs: Fields<L, T>, ev: T -> G, i: nat)
    requires Distinct(fs) && i < |fs|
    ensures HasLabel(fs, fs[i].0) && FieldMap(fs, ev)[fs[i].0] == ev(fs[i].1)
  {
    assert HasLabel(fs, fs[i].0);
    if i > 0 {
      FieldMapAt(fs[1..], ev, i - 1);
    }
  }

  lemma LookupMap<L(!new), T, G>(fs: Fields<L, T>, ev: T -> G, l: L)
    requires Distinct(fs) && HasLabel(fs, l)
    ensures FieldMap(fs, ev)[l] == ev(Lookup(fs, l))
  {
    var i :| 0 <= i < |fs| && fs[i] == (l, Lookup(fs, l));
    FieldMapAt(fs, ev, i);
  }

  lemma {:induction false} SharedAgree<L(!new), T, G>(fs: Fields<L, T>, gs: Fields<L, T>, ev: T -> G)
    requires Distinct(fs) && Distinct(gs)
    ensures PairsHold(Shared(fs, gs), ev) <==> Agree(FieldMap(fs, ev), FieldMap(gs, ev))
  {
    if fs != [] {
      DistinctTail(fs);
      SharedAgree(fs[1..], gs, ev);
      var l := fs[0].0;
      var m, m', n := FieldMap(fs, ev), FieldMap(fs[1..], ev), FieldMap(gs, ev);
      assert m == m'[l := ev(fs[0].1)];
      assert Agree(m, n) <==> Agree(m', n) && (l in n ==> m[l] == n[l]) by {
        if Agree(m, n) { forall k | k in m' && k in n ensures m'[k] == n[k] { assert m[k] == m'[k]; } }
      }
      if HasLabel(gs, l) {
        LookupMap(gs, ev, l);
        var p := (fs[0].1, Lookup(gs, l));
        assert Shared(fs, gs) == [p] + Shared(fs[1..], gs);
        assert PairsHold(Shared(fs, gs), ev) <==> ev(p.0) == ev(p.1) && PairsHold(Shared(fs[1..], gs), ev) by {
          assert p in Shared(fs, gs);
          assert forall q :: q in Shared(fs[1..], gs) ==> q in Shared(fs, gs);
        }
      }
    }
  }

  lemma OnlyEmpty<L(!new), T, G>(fs: Fields<L, T>, gs: Fields<L, T>, ev: T -> G)
    requires Distinct(fs)
    ensures Only(fs, gs) == [] <==> FieldMap(fs, ev).Keys <= FieldMap(gs, ev).Keys
  {
    OnlyMap(fs, gs, ev);
    if Only(fs, gs) != [] {
      assert HasLabel(Only(fs, gs), Only(fs, gs)[0].0);
      assert Only(fs, gs)[0].0 in FieldMap(Only(fs, gs), ev);
    }
  }

  // ----- the four tail cases -----

  /** The merge a pair of rows is owed: the pairs to unify and the row solutions to record. */
  datatype Merge<L, T> = Merge(pairs: seq<(T, T)>, rows: map<nat, Row<L, T>>)

  /** When the two rows can never denote the same field map, whatever their tails. */
  ghost predicate Incompatible<L(!new), T>(r1: Row<L, T>, r2: Row<L, T>) {
    || (r1.tail == None && Only(r2.fields, r1.fields) != [])
    || (r2.tail == None && Only(r1.fields, r2.fields) != [])
    || (r1.tail == r2.tail && (Only(r1.fields, r2.fields) != [] || Only(r2.fields, r1.fields) != []))
  }

  /** The exact meaning of a merge: for every reading of the types and of the row
      variables that keeps both rows well formed, the two rows denote the same field
      map exactly when the pairs hold and the recorded rows hold for some value of
      the fresh row variable. */
  ghost predicate MergeExact<L(!new), T, G(!new)>(r1: Row<L, T>, r2: Row<L, T>, m: Merge<L, T>, newVar: nat,
                                                 ev: T -> G, rv: nat -> map<L, G>) {
    Apart(r1, rv) && Apart(r2, rv) ==>
      (Denote(r1, ev, rv) == Denote(r2, ev, rv) <==>
       PairsHold(m.pairs, ev) && exists x: map<L, G> :: RowsHold(m.rows, ev, With(rv, newVar, x)))
  }

  /** The rows are as the caller passes them: distinct labels, and tails already resolved,
      so neither tail is the newVar variable. */
  ghost predicate Ready<L(!new), T>(r1: Row<L, T>, r2: Row<L, T>, newVar: nat) {
    Distinct(r1.fields) && Distinct(r2.fields) && r1.tail != Some(newVar) && r2.tail != Some(newVar)
  }

  /** The merge by tail case, for rows that are not incompatible. */
  function MergeOf<L(==), T>(r1: Row<L, T>, r2: Row<L, T>, newVar: nat): Merge<L, T> {
    var only1, only2 := Only(r1.fields, r2.fields), Only(r2.fields, r1.fields);
    var pairs := Shared(r1.fields, r2.fields);
    match (r1.tail, r2.tail)
    case (None, None) => Merge(pairs, map[])
    case (None, Some(b)) => Merge(pairs, map[b := Row(only1, None)])
    case (Some(a), None) => Merge(pairs, map[a := Row(only2, None)])
    case (Some(a), Some(b)) =>
      if a == b then Merge(pairs, map[])
      else Merge(pairs, map[a := Row(only2, Some(newVar)), b := Row(only1, Some(newVar))])
  }

  lemma IncompatibleNeverEqual<L(!new), T, G>(r1: Row<L, T>, r2: Row<L, T>, ev: T -> G, rv: nat -> map<L, G>)
    requires Distinct(r1.fields) && Distinct(r2.fields)
    requires Incompatible(r1, r2) && Apart(r1, rv) && Apart(r2, rv)
    ensures Denote(r1, ev, rv) != Denote(r2, ev, rv)
  {
    OnlyEmpty(r1.fields, r2.fields, ev);
    OnlyEmpty(r2.fields, r1.fields, ev);
    var m1, m2 := FieldMap(r1.fields, ev), FieldMap(r2.fields, ev);
    if Only(r1.fields, r2.fields) != [] && (r2.tail == None || r1.tail == r2.tail) {
      var l :| l in m1 && l !in m2;
      assert l in Denote(r1, ev, rv) && l !in Denote(r2, ev, rv);
    } else {
      var l :| l in m2 && l !in m1;
      assert l in Denote(r2, ev, rv) && l !in Denote(r1, ev, rv);
    }
  }

  /** What equal denotations say about two maps with disjoint extensions. */
  lemma ExtendedEqual<L(!new), G>(m1: map<L, G>, t1: map<L, G>, m2: map<L, G>, t2: map<L, G>)
    requires m1.Keys !! t1.Keys && m2.Keys !! t2.Keys
    ensures m1 + t1 == m2 + t2 <==>
            && Agree(m1, m2)
            && (forall l :: l in m1 && l !in m2 ==> l in t2 && t2[l] == m1[l])
            && (forall l :: l in m2 && l !in m1 ==> l in t1 && t1[l] == m2[l])
            && (forall l :: l !in m1 && l !in m2 ==> (l in t1 <==> l in t2) && (l in t1 ==> t1[l] == t2[l]))
  {
    var a, b := m1 + t1, m2 + t2;
    if a == b {
      forall l | l in m1 && l in m2 ensures m1[l] == m2[l] { assert a[l] == m1[l] && b[l] == m2[l]; }
      forall l | l in m1 && l !in m2 ensures l in t2 && t2[l] == m1[l] { assert l in a; assert a[l] == m1[l]; }
      forall l | l in m2 && l !in m1 ensures l in t1 && t1[l] == m2[l] { assert l in b; assert b[l] == m2[l]; }
      forall l | l !in m1 && l !in m2 ensures (l in t1 <==> l in t2) && (l in t1 ==> t1[l] == t2[l]) {
        assert l in a <==> l in t1;
        assert l in b <==> l in t2;
        if l in t1 { assert a[l] == t1[l] && b[l] == t2[l]; }
      }
    }
  }

  /** Two maps extended apart from themselves agree exactly when the extensions are the
      other map's extra entries and one common remainder. */
  lemma CommonRemainder<L(!new), G(!new)>(m1: map<L, G>, t1: map<L, G>, m2: map<L, G>, t2: map<L, G>)
    requires m1.Keys !! t1.Keys && m2.Keys !! t2.Keys && Agree(m1, m2)
    ensures m1 + t1 == m2 + t2 <==>
            exists x: map<L, G> :: IsRemainder(m1, t1, m2, t2, x)
  {
    ExtendedEqual(m1, t1, m2, t2);
    if m1 + t1 == m2 + t2 {
      var x := map l | l in t1 && l !in m2 :: t1[l];
      assert t1 == (m2 - m1.Keys) + x;
      assert t2 == (m1 - m2.Keys) + x;
      assert IsRemainder(m1, t1, m2, t2, x);
    }
  }

  ghost predicate IsRemainder<L, G>(m1: map<L, G>, t1: map<L, G>, m2: map<L, G>, t2: map<L, G>, x: map<L, G>) {
    && x.Keys !! (m1.Keys - m2.Keys) && x.Keys !! (m2.Keys - m1.Keys)
    && t1 == (m2 - m1.Keys) + x && t2 == (m1 - m2.Keys) + x
  }

  /** The merge of two distinct open rows. */
  lemma OpenOpen<L(!new), T, G(!new)>(r1: Row<L, T>, r2: Row<L, T>, newVar: nat, ev: T -> G, rv: nat -> map<L, G>)
    requires Ready(r1, r2, newVar) && r1.tail.Some? && r2.tail.Some? && r1.tail != r2.tail
    requires Apart(r1, rv) && Apart(r2, rv) && Agree(FieldMap(r1.fields, ev), FieldMap(r2.fields, ev))
    ensures Denote(r1, ev, rv) == Denote(r2, ev, rv) <==>
            exists x: map<L, G> :: RowsHold(MergeOf(r1, r2, newVar).rows, ev, With(rv, newVar, x))
  {
    var m1, m2 := FieldMap(r1.fields, ev), FieldMap(r2.fields, ev);
    var t1, t2 := rv(r1.tail.value), rv(r2.tail.value);
    CommonRemainder(m1, t1, m2, t2);
    forall x: map<L, G>
      ensures RowsHold(MergeOf(r1, r2, newVar).rows, ev, With(rv, newVar, x)) <==> IsRemainder(m1, t1, m2, t2, x)
    {
      OpenOpenRows(r1, r2, newVar, ev, rv, x);
    }
  }

  lemma OpenOpenRows<L(!new), T, G(!new)>(r1: Row<L, T>, r2: Row<L, T>, newVar: nat, ev: T -> G, rv: nat -> map<L, G>, x: map<L, G>)
    requires Ready(r1, r2, newVar) && r1.tail.Some? && r2.tail.Some? && r1.tail != r2.tail
    ensures RowsHold(MergeOf(r1, r2, newVar).rows, ev, With(rv, newVar, x)) <==>
            IsRemainder(FieldMap(r1.fields, ev), rv(r1.tail.value), FieldMap(r2.fields, ev), rv(r2.tail.value), x)
  {
    var a, b := r1.tail.value, r2.tail.value;
    var rows, rv' := MergeOf(r1, r2, newVar).rows, With(rv, newVar, x);
    var rowA, rowB := Row(Only(r2.fields, r1.fields), Some(newVar)), Row(Only(r1.fields, r2.fields), Some(newVar));
    assert rows == map[a := rowA, b := rowB];
    assert RowsHold(rows, ev, rv') <==> RowHolds(rowA, a, ev, rv') && RowHolds(rowB, b, ev, rv') by {
      assert a in rows && b in rows;
    }
    OnlyMap(r1.fields, r2.fields, ev);
    OnlyMap(r2.fields, r1.fields, ev);
    var o1, o2 := FieldMap(rowB.fields, ev), FieldMap(rowA.fields, ev);
    assert Apart(rowA, rv') <==> x.Keys !! o2.Keys;
    assert Apart(rowB, rv') <==> x.Keys !! o1.Keys;
  }

  /** The merge of a closed row with an open one: the open tail is exactly what it lacks. */
  lemma ClosedOpen<L(!new), T, G(!new)>(closed: Row<L, T>, open: Row<L, T>, r: nat, ev: T -> G, rv: nat -> map<L, G>)
    requires Distinct(closed.fields) && Distinct(open.fields)
    requires closed.tail == None && open.tail == Some(r) && Only(open.fields, closed.fields) == []
    requires Apart(open, rv) && Agree(FieldMap(closed.fields, ev), FieldMap(open.fields, ev))
    ensures Denote(closed, ev, rv) == Denote(open, ev, rv) <==>
            RowHolds(Row(Only(closed.fields, open.fields), None), r, ev, rv)
  {
    hide FieldMap, Only, HasLabel;
    var m1, m2, t := FieldMap(closed.fields, ev), FieldMap(open.fields, ev), rv(r);
    OnlyMap(closed.fields, open.fields, ev);
    OnlyEmpty(open.fields, closed.fields, ev);
    ClosedRemainder(m1, m2, t);
    var row := Row(Only(closed.fields, open.fields), None);
    ClosedDenotes(row, ev, rv);
    ClosedDenotes(closed, ev, rv);
  }

  lemma ClosedDenotes<L(!new), T, G>(row: Row<L, T>, ev: T -> G, rv: nat -> map<L, G>)
    requires row.tail == None
    ensures Denote(row, ev, rv) == FieldMap(row.fields, ev) && Apart(row, rv)
  {
  }

  lemma ClosedRemainder<L(!new), G>(m1: map<L, G>, m2: map<L, G>, t: map<L, G>)
    requires m2.Keys !! t.Keys && Agree(m1, m2) && m2.Keys <= m1.Keys
    ensures m1 == m2 + t <==> t == m1 - m2.Keys
  {
    if m1 == m2 + t {
      assert m1.Keys == m2.Keys + t.Keys;
      forall l | l in t ensures t[l] == m1[l] { assert (m2 + t)[l] == t[l]; }
      assert t == m1 - m2.Keys;
    }
  }

  lemma OneRow<L(!new), T, G(!new)>(r: nat, row: Row<L, T>, newVar: nat, ev: T -> G, rv: nat -> map<L, G>)
    requires row.tail == None && r != newVar
    ensures RowHolds(row, r, ev, rv) <==> exists x: map<L, G> :: RowsHold(map[r := row], ev, With(rv, newVar, x))
  {
    forall x: map<L, G> ensures RowsHold(map[r := row], ev, With(rv, newVar, x)) <==> RowHolds(row, r, ev, rv) {
      assert r in map[r := row];
      assert RowHolds(row, r, ev, With(rv, newVar, x)) <==> RowHolds(row, r, ev, rv);
    }
    assert RowsHold(map[r := row], ev, With(rv, newVar, map[])) <==> RowHolds(row, r, ev, rv);
  }

  lemma MergeIsExact<L(!new), T, G(!new)>(r1: Row<L, T>, r2: Row<L, T>, newVar: nat, ev: T -> G, rv: nat -> map<L, G>)
    requires Ready(r1, r2, newVar) && !Incompatible(r1, r2)
    ensures MergeExact(r1, r2, MergeOf(r1, r2, newVar), newVar, ev, rv)
  {
    if Apart(r1, rv) && Apart(r2, rv) {
      var m1, m2 := FieldMap(r1.fields, ev), FieldMap(r2.fields, ev);
      ExtendedEqual(m1, TailMap(r1.tail, rv), m2, TailMap(r2.tail, rv));
      SharedAgree(r1.fields, r2.fields, ev);
      if Agree(m1, m2) {
        if r1.tail == r2.tail {
          OnlyEmpty(r1.fields, r2.fields, ev);
          OnlyEmpty(r2.fields, r1.fields, ev);
          assert RowsHold(MergeOf(r1, r2, newVar).rows, ev, With(rv, newVar, map[]));
        } else if r1.tail.Some? && r2.tail.Some? {
          OpenOpen(r1, r2, newVar, ev, rv);
        } else if r1.tail == None {
          ClosedOpen(r1, r2, r2.tail.value, ev, rv);
          OneRow(r2.tail.value, Row(Only(r1.fields, r2.fields), None), newVar, ev, rv);
        } else {
          AgreeSymmetric(m1, m2);
          ClosedOpen(r2, r1, r1.tail.value, ev, rv);
          OneRow(r1.tail.value, Row(Only(r2.fields, r1.fields), None), newVar, ev, rv);
        }
      }
    }
  }

  lemma AgreeSymmetric<L(!new), G>(m1: map<L, G>, m2: map<L, G>)
    requires Agree(m1, m2)
    ensures Agree(m2, m1)
  {
  }

  // ----- both sides resolve to one shape -----

  /** Chase a resolved row's tail one step through the recorded solutions. */
  function Chase<L, T>(r: Row<L, T>, rows: map<nat, Row<L, T>>): Row<L, T> {
    if r.tail.Some? && r.tail.value in rows then
      Row(r.fields + rows[r.tail.value].fields, rows[r.tail.value].tail)
    else r
  }

  /** After the merge both rows chase to the same labels and the same tail, itself unsolved;
      and once the pushed pairs hold, to the same types at those labels. */
  lemma MergeSameShape<L(!new), T, G(!new)>(r1: Row<L, T>, r2: Row<L, T>, newVar: nat, ev: T -> G)
    requires Ready(r1, r2, newVar) && !Incompatible(r1, r2)
    ensures var rows := MergeOf(r1, r2, newVar).rows;
            && Chase(r1, rows).tail == Chase(r2, rows).tail
            && Chase(Chase(r1, rows), rows) == Chase(r1, rows)
            && Chase(Chase(r2, rows), rows) == Chase(r2, rows)
            && (forall l :: HasLabel(Chase(r1, rows).fields, l) <==> HasLabel(Chase(r2, rows).fields, l))
            && Distinct(Chase(r1, rows).fields) && Distinct(Chase(r2, rows).fields)
    ensures var rows := MergeOf(r1, r2, newVar).rows;
            PairsHold(MergeOf(r1, r2, newVar).pairs, ev) ==> FieldMap(Chase(r1, rows).fields, ev) == FieldMap(Chase(r2, rows).fields, ev)
  {
    MergeSameLabels(r1, r2, newVar);
    hide FieldMap, Only, HasLabel, Distinct, Shared, Incompatible, Chase;
    if PairsHold(MergeOf(r1, r2, newVar).pairs, ev) { MergeSameFields(r1, r2, newVar, ev); }
  }

  lemma MergeSameLabels<L(!new), T>(r1: Row<L, T>, r2: Row<L, T>, newVar: nat)
    requires Ready(r1, r2, newVar) && !Incompatible(r1, r2)
    ensures var rows := MergeOf(r1, r2, newVar).rows;
            && Chase(r1, rows).tail == Chase(r2, rows).tail
            && Chase(Chase(r1, rows), rows) == Chase(r1, rows)
            && Chase(Chase(r2, rows), rows) == Chase(r2, rows)
            && (forall l :: HasLabel(Chase(r1, rows).fields, l) <==> HasLabel(Chase(r2, rows).fields, l))
            && Distinct(Chase(r1, rows).fields) && Distinct(Chase(r2, rows).fields)
  {
    var rows := MergeOf(r1, r2, newVar).rows;
    var only1, only2 := Only(r1.fields, r2.fields), Only(r2.fields, r1.fields);
    OnlyLabels(r1.fields, r2.fields);
    OnlyLabels(r2.fields, r1.fields);
    ConcatLabels(r1.fields, only2);
    ConcatLabels(r2.fields, only1);
    assert only1 == [] ==> forall l :: HasLabel(r1.fields, l) ==> HasLabel(r2.fields, l);
    assert only2 == [] ==> forall l :: HasLabel(r2.fields, l) ==> HasLabel(r1.fields, l);
  }

  lemma MergeSameFields<L(!new), T, G(!new)>(r1: Row<L, T>, r2: Row<L, T>, newVar: nat, ev: T -> G)
    requires Ready(r1, r2, newVar) && !Incompatible(r1, r2) && PairsHold(MergeOf(r1, r2, newVar).pairs, ev)
    ensures var rows := MergeOf(r1, r2, newVar).rows; FieldMap(Chase(r1, rows).fields, ev) == FieldMap(Chase(r2, rows).fields, ev)
  {
    hide FieldMap, Only, HasLabel, Distinct, Shared;
    var m1, m2 := FieldMap(r1.fields, ev), FieldMap(r2.fields, ev);
    SharedAgree(r1.fields, r2.fields, ev);
    Filled(r1.fields, r2.fields, ev);
    Filled(r2.fields, r1.fields, ev);
    assert (m2 - m1.Keys) + m1 == (m1 - m2.Keys) + m2;
  }

  /** A row filled with what the other has over it; left as it is when that is nothing. */
  lemma Filled<L(!new), T, G(!new)>(fs: Fields<L, T>, gs: Fields<L, T>, ev: T -> G)
    requires Distinct(fs) && Distinct(gs)
    ensures var m1, m2 := FieldMap(fs, ev), FieldMap(gs, ev);
            && FieldMap(fs + Only(gs, fs), ev) == (m2 - m1.Keys) + m1
            && (Only(gs, fs) == [] ==> (m2 - m1.Keys) + m1 == m1)
  {
    hide FieldMap, Only, HasLabel, Distinct;
    FieldMapConcat(fs, Only(gs, fs), ev);
    OnlyMap(gs, fs, ev);
    OnlyEmpty(gs, fs, ev);
  }

  lemma {:induction false} FieldMapConcat<L(!new), T, G>(fs: Fields<L, T>, gs: Fields<L, T>, ev: T -> G)
    ensures FieldMap(fs + gs, ev) == FieldMap(gs, ev) + FieldMap(fs, ev)
  {
    if fs == [] {
      assert fs + gs == gs;
    } else {
      var f, rest := fs[0], fs[1..];
      FieldMapConcat(rest, gs, ev);
      hide FieldMap, HasLabel;
      assert fs + gs == [f] + (rest + gs) && fs == [f] + rest;
      FieldMapCons(f, rest + gs, ev);
      FieldMapCons(f, rest, ev);
      UpdatePlus(FieldMap(gs, ev), FieldMap(rest, ev), f.0, ev(f.1));
    }
  }

  lemma UpdatePlus<L, G>(n: map<L, G>, m: map<L, G>, l: L, v: G)
    ensures (n + m)[l := v] == n + m[l := v]
  {
  }

  lemma OnlyLabels<L(!new), T>(fs: Fields<L, T>, gs: Fields<L, T>)
    requires Distinct(fs)
    ensures Distinct(Only(fs, gs))
    ensures forall l :: HasLabel(Only(fs, gs), l) <==> HasLabel(fs, l) && !HasLabel(gs, l)
  {
    var ev := (t: T) => 0;
    OnlyMap(fs, gs, ev);
    forall l ensures HasLabel(Only(fs, gs), l) <==> HasLabel(fs, l) && !HasLabel(gs, l) {
      assert l in FieldMap(Only(fs, gs), ev) <==> HasLabel(Only(fs, gs), l);
    }
  }

  lemma ConcatLabels<L(!new), T>(fs: Fields<L, T>, gs: Fields<L, T>)
    ensures forall l :: HasLabel(fs + gs, l) <==> HasLabel(fs, l) || HasLabel(gs, l)
    ensures Distinct(fs) && Distinct(gs) && (forall l :: HasLabel(gs, l) ==> !HasLabel(fs, l)) ==> Distinct(fs + gs)
  {
    forall l | HasLabel(fs, l) || HasLabel(gs, l) ensures HasLabel(fs + gs, l) {
      if HasLabel(fs, l) {
        var i :| 0 <= i < |fs| && fs[i].0 == l;
        assert (fs + gs)[i].0 == l;
      } else {
        var i :| 0 <= i < |gs| && gs[i].0 == l;
        assert (fs + gs)[|fs| + i].0 == l;
      }
    }
    if Distinct(fs) && Distinct(gs) && (forall l :: HasLabel(gs, l) ==> !HasLabel(fs, l)) {
      forall i, j | 0 <= i < j < |fs + gs| ensures (fs + gs)[i].0 != (fs + gs)[j].0 {
        if i < |fs| <= j { assert HasLabel(gs, gs[j - |fs|].0); assert HasLabel(fs, fs[i].0); }
      }
    }
  }

  // ----- the merge steps -----

  /** Collect the pairs of types that two field lists give their shared labels. */
  method SharedPairs<L(==), T>(fs: Fields<L, T>, gs: Fields<L, T>) returns (pairs: seq<(T, T)>)
    ensures pairs == Shared(fs, gs)
  {
    pairs := [];
    for i := 0 to |fs|
      invariant pairs + Shared(fs[i..], gs) == Shared(fs, gs)
    {
      assert fs[i..][0] == fs[i] && fs[i..][1..] == fs[i + 1..];
      if HasLabel(gs, fs[i].0) { pairs := pairs + [(fs[i].1, Lookup(gs, fs[i].0))]; }
    }
  }

  /** One missing-field report per label of `extra`, against the closed side. */
  ghost function Missing<L, T>(extra: Fields<L, T>, closed: Fields<L, T>): (r: seq<RowError<L, T>>)
    ensures |r| == |extra| && forall i :: 0 <= i < |extra| ==> r[i] == FieldNotPresent(extra[i].0, closed)
  {
    seq(|extra|, i requires 0 <= i < |extra| => FieldNotPresent(extra[i].0, closed))
  }

  method ReportMissing<L, T>(extra: Fields<L, T>, closed: Fields<L, T>) returns (errors: seq<RowError<L, T>>)
    ensures errors == Missing(extra, closed)
  {
    errors := [];
    for i := 0 to |extra|
      invariant |errors| == i
      invariant forall j :: 0 <= j < i ==> errors[j] == FieldNotPresent(extra[j].0, closed)
    {
      errors := errors + [FieldNotPresent(extra[i].0, closed)];
    }
  }

  /** What two incompatible records are owed: one report for each field that the other, closed,
      has not, the first record's before the second's; one mismatch if they share their tail. */
  ghost function RecordReports<L(!new), T>(r1: Row<L, T>, r2: Row<L, T>): seq<RowError<L, T>> {
    var only1, only2 := Only(r1.fields, r2.fields), Only(r2.fields, r1.fields);
    if r1.tail.Some? && r1.tail == r2.tail then (if only1 == [] && only2 == [] then [] else [RowMismatch(r2, r1)])
    else (if r2.tail == None then Missing(only1, r2.fields) else []) + (if r1.tail == None then Missing(only2, r1.fields) else [])
  }

  /** The reports name exactly the labels that one record has and the other cannot have. */
  lemma ReportedLabels<L(!new), T>(r1: Row<L, T>, r2: Row<L, T>, l: L)
    requires Distinct(r1.fields) && Distinct(r2.fields) && (r1.tail != r2.tail || r1.tail == None)
    ensures FieldNotPresent(l, r2.fields) in RecordReports(r1, r2) <==> r2.tail == None && HasLabel(r1.fields, l) && !HasLabel(r2.fields, l)
    ensures FieldNotPresent(l, r1.fields) in RecordReports(r1, r2) <==> r1.tail == None && HasLabel(r2.fields, l) && !HasLabel(r1.fields, l)
    ensures forall i, j :: 0 <= i < j < |RecordReports(r1, r2)| ==> RecordReports(r1, r2)[i] != RecordReports(r1, r2)[j]
  {
    OnlyLabels(r1.fields, r2.fields);
    OnlyLabels(r2.fields, r1.fields);
    MissingLabel(Only(r1.fields, r2.fields), r2.fields, l);
    MissingLabel(Only(r2.fields, r1.fields), r1.fields, l);
    if r1.fields == r2.fields {
      var only := Only(r1.fields, r2.fields);
      if only != [] { assert HasLabel(only, only[0].0); }
    }
  }

  lemma MissingLabel<L(!new), T>(extra: Fields<L, T>, closed: Fields<L, T>, l: L)
    ensures FieldNotPresent(l, closed) in Missing(extra, closed) <==> HasLabel(extra, l)
  {
    if HasLabel(extra, l) {
      var i :| 0 <= i < |extra| && extra[i].0 == l;
      assert Missing(extra, closed)[i] == FieldNotPresent(l, closed);
    }
  }

  /** Merge two resolved records, by the case of their tails. */
  method UnifyRecords<L(==,!new), T>(r1: Row<L, T>, r2: Row<L, T>, work: seq<(T, T)>, rows: map<nat, Row<L, T>>, nextRow: nat)
    returns (work': seq<(T, T)>, rows': map<nat, Row<L, T>>, nextRow': nat, errors: seq<RowError<L, T>>)
    ensures errors == RecordReports(r1, r2) && (errors == [] <==> !Incompatible(r1, r2))
    ensures errors == [] ==> work' == work + MergeOf(r1, r2, nextRow).pairs && rows' == rows + MergeOf(r1, r2, nextRow).rows
    ensures errors != [] ==> work' == work && rows' == rows
    ensures nextRow' == if r1.tail.Some? && r2.tail.Some? && r1.tail != r2.tail then nextRow + 1 else nextRow
  {
    hide Only, Shared, HasLabel, Missing, Lookup;
    work', rows', nextRow', errors := work, rows, nextRow, [];
    var shared := SharedPairs(r1.fields, r2.fields);
    var only1, only2 := Only(r1.fields, r2.fields), Only(r2.fields, r1.fields);
    match (r1.tail, r2.tail) {
      case (None, None) =>
        var e1 := ReportMissing(only1, r2.fields);
        var e2 := ReportMissing(only2, r1.fields);
        errors := e1 + e2;
        if errors == [] { work' := work + shared; }
      case (None, Some(b)) =>
        errors := ReportMissing(only2, r1.fields);
        if errors == [] { work', rows' := work + shared, rows[b := Row(only1, None)]; }
      case (Some(a), None) =>
        errors := ReportMissing(only1, r2.fields);
        if errors == [] { work', rows' := work + shared, rows[a := Row(only2, None)]; }
      case (Some(a), Some(b)) =>
        if a == b {
          if only1 != [] || only2 != [] {
            errors := [RowMismatch(r2, r1)];
          } else {
            work' := work + shared;
          }
        } else {
          work', nextRow' := work + shared, nextRow + 1;
          rows' := rows[a := Row(only2, Some(nextRow))];
          rows' := rows'[b := Row(only1, Some(nextRow))];
        }
    }
  }

  /** Merge two resolved partial tuples: the same four cases keyed by index, with one
      mismatch report in place of one report per label. */
  method UnifyTuples<T>(r1: Row<nat, T>, r2: Row<nat, T>, work: seq<(T, T)>, rows: map<nat, Row<nat, T>>, nextRow: nat)
    returns (work': seq<(T, T)>, rows': map<nat, Row<nat, T>>, nextRow': nat, errors: seq<RowError<nat, T>>)
    ensures errors == if Incompatible(r1, r2) then [RowMismatch(r2, r1)] else []
    ensures errors == [] ==> work' == work + MergeOf(r1, r2, nextRow).pairs && rows' == rows + MergeOf(r1, r2, nextRow).rows
    ensures errors != [] ==> work' == work && rows' == rows
    ensures nextRow' == if r1.tail.Some? && r2.tail.Some? && r1.tail != r2.tail then nextRow + 1 else nextRow
  {
    work', rows', nextRow', errors := work, rows, nextRow, [];
    var shared := SharedPairs(r1.fields, r2.fields);
    var only1, only2 := Only(r1.fields, r2.fields), Only(r2.fields, r1.fields);
    match (r1.tail, r2.tail) {
      case (None, None) =>
        if only1 != [] || only2 != [] { errors := [RowMismatch(r2, r1)]; } else { work' := work + shared; }
      case (None, Some(b)) =>
        if only2 != [] { errors := [RowMismatch(r2, r1)]; }
        else { work', rows' := work + shared, rows[b := Row(only1, None)]; }
      case (Some(a), None) =>
        if only1 != [] { errors := [RowMismatch(r2, r1)]; }
        else { work', rows' := work + shared, rows[a := Row(only2, None)]; }
      case (Some(a), Some(b)) =>
        if a == b {
          if only1 != [] || only2 != [] { errors := [RowMismatch(r2, r1)]; } else { work' := work + shared; }
        } else {
          work', nextRow' := work + shared, nextRow + 1;
          rows' := rows[a := Row(only2, Some(nextRow))];
          rows' := rows'[b := Row(only1, Some(nextRow))];
        }
    }
  }

  // ----- a concrete tuple against a partial one -----

  /** A concrete tuple as a closed row keyed by index. */
  function Indexed<T>(es: seq<T>): Row<nat, T> {
    Row(seq(|es|, i requires 0 <= i < |es| => (i, es[i])), None)
  }

  /** Every known index of the partial tuple exists in the concrete one. */
  ghost predicate InBounds<T>(es: seq<T>, p: Row<nat, T>) {
    forall i :: 0 <= i < |p.fields| ==> p.fields[i].0 < |es|
  }

  /** The element-wise pairs of a concrete tuple and a partial one. */
  ghost function ArmPairs<T>(es: seq<T>, p: Row<nat, T>): seq<(T, T)>
    requires InBounds(es, p)
  {
    seq(|p.fields|, i requires 0 <= i < |p.fields| => (es[p.fields[i].0], p.fields[i].1))
  }

  /** The pairs of the known indices the concrete tuple has, and the reports of the others. */
  ghost function ElementPairs<T>(es: seq<T>, fs: Fields<nat, T>): seq<(T, T)> {
    if fs == [] then [] else (if fs[0].0 < |es| then [(es[fs[0].0], fs[0].1)] else []) + ElementPairs(es, fs[1..])
  }

  ghost function BoundReports<T>(es: seq<T>, fs: Fields<nat, T>): seq<RowError<nat, T>> {
    if fs == [] then [] else (if fs[0].0 < |es| then [] else [IndexNotPresent(fs[0].0, es)]) + BoundReports(es, fs[1..])
  }

  /** Every known index has its pair, or its report if it is out of bounds, in order. */
  lemma {:induction false} IndexDecides<T>(es: seq<T>, fs: Fields<nat, T>)
    ensures |ElementPairs(es, fs)| + |BoundReports(es, fs)| == |fs|
    ensures BoundReports(es, fs) == [] <==> forall k :: 0 <= k < |fs| ==> fs[k].0 < |es|
    ensures forall i :: IndexNotPresent(i, es) in BoundReports(es, fs) <==> i >= |es| && HasLabel(fs, i)
    ensures BoundReports(es, fs) == [] ==> |ElementPairs(es, fs)| == |fs| && forall k :: 0 <= k < |fs| ==> fs[k].0 < |es| && ElementPairs(es, fs)[k] == (es[fs[k].0], fs[k].1)
  {
    if fs != [] {
      IndexDecides(es, fs[1..]);
      HeadLabel(fs);
      assert (forall k :: 0 <= k < |fs| ==> fs[k].0 < |es|) <==> fs[0].0 < |es| && forall k :: 0 <= k < |fs[1..]| ==> fs[1..][k].0 < |es| by {
        if forall k :: 0 <= k < |fs| ==> fs[k].0 < |es| { forall k | 0 <= k < |fs[1..]| ensures fs[1..][k].0 < |es| { assert fs[1..][k] == fs[k + 1]; } }
        if fs[0].0 < |es| && forall k :: 0 <= k < |fs[1..]| ==> fs[1..][k].0 < |es| { forall k | 0 <= k < |fs| ensures fs[k].0 < |es| { if k > 0 { assert fs[k] == fs[1..][k - 1]; } } }
      }
    }
  }

  lemma PairsOfArm<T>(es: seq<T>, p: Row<nat, T>)
    ensures BoundReports(es, p.fields) == [] <==> InBounds(es, p)
    ensures InBounds(es, p) ==> ElementPairs(es, p.fields) == ArmPairs(es, p)
  {
    IndexDecides(es, p.fields);
  }

  /** Check each known index against a concrete tuple, unify element-wise, and close the
      partial tuple's tail with the indices it lacks. */
  method UnifyTupleWithPartial<T>(es: seq<T>, p: Row<nat, T>, work: seq<(T, T)>, rows: map<nat, Row<nat, T>>)
    returns (work': seq<(T, T)>, rows': map<nat, Row<nat, T>>, errors: seq<RowError<nat, T>>)
    ensures errors == BoundReports(es, p.fields) && (errors == [] <==> InBounds(es, p))
    ensures work' == work + ElementPairs(es, p.fields) && (errors == [] ==> work' == work + ArmPairs(es, p))
    ensures rows' == if errors == [] && p.tail.Some? then rows[p.tail.value := Row(Only(Indexed(es).fields, p.fields), None)] else rows
  {
    hide Only, Indexed, HasLabel, ArmPairs, InBounds;
    work', rows', errors := work, rows, [];
    assert p.fields[0..] == p.fields;
    for i := 0 to |p.fields|
      invariant errors + BoundReports(es, p.fields[i..]) == BoundReports(es, p.fields)
      invariant work' + ElementPairs(es, p.fields[i..]) == work + ElementPairs(es, p.fields)
    {
      assert p.fields[i..][1..] == p.fields[i + 1..] && p.fields[i..][0] == p.fields[i];
      if p.fields[i].0 >= |es| {
        errors := errors + [IndexNotPresent(p.fields[i].0, es)];
      } else {
        work' := work' + [(es[p.fields[i].0], p.fields[i].1)];
      }
    }
    PairsOfArm(es, p);
    if p.tail.Some? && errors == [] {
      rows' := rows[p.tail.value := Row(Only(Indexed(es).fields, p.fields), None)];
    }
  }

  /** A closed partial tuple that leaves out an index of the concrete one. */
  ghost predicate ClosedGap<T>(es: seq<T>, p: Row<nat, T>) {
    p.tail == None && exists i: nat :: i < |es| && !HasLabel(p.fields, i)
  }

  lemma IndexedLabels<T>(es: seq<T>)
    ensures Distinct(Indexed(es).fields)
    ensures forall i: nat :: HasLabel(Indexed(es).fields, i) <==> i < |es|
  {
    forall i: nat | i < |es| ensures HasLabel(Indexed(es).fields, i) { assert Indexed(es).fields[i].0 == i; }
  }

  lemma InBoundsMeansNoExtra<T>(es: seq<T>, p: Row<nat, T>)
    requires Distinct(p.fields)
    ensures InBounds(es, p) <==> Only(p.fields, Indexed(es).fields) == []
  {
    IndexedLabels(es);
    OnlyLabels(p.fields, Indexed(es).fields);
    var extra := Only(p.fields, Indexed(es).fields);
    if extra != [] {
      assert HasLabel(extra, extra[0].0);
      var i :| 0 <= i < |p.fields| && p.fields[i].0 == extra[0].0;
    } else {
      forall i | 0 <= i < |p.fields| ensures p.fields[i].0 < |es| { assert HasLabel(p.fields, p.fields[i].0); }
    }
  }

  /** The arm reports exactly the incompatible pairs, except that it lets a closed
      partial tuple with a gap through. */
  lemma TuplePartialExact<T>(es: seq<T>, p: Row<nat, T>)
    requires Distinct(p.fields)
    ensures Incompatible(Indexed(es), p) <==> !InBounds(es, p) || ClosedGap(es, p)
  {
    InBoundsMeansNoExtra(es, p);
    IndexedLabels(es);
    OnlyLabels(Indexed(es).fields, p.fields);
    var fs := Indexed(es).fields;
    var only := Only(fs, p.fields);
    if only != [] {
      var i: nat := only[0].0;
      assert only[0] == (i, only[0].1) && HasLabel(only, i);
      assert HasLabel(fs, i) && !HasLabel(p.fields, i);
    } else {
      forall i: nat | i < |es| ensures HasLabel(p.fields, i) {
        assert fs[i].0 == i;
        assert HasLabel(fs, i) && !HasLabel(only, i);
      }
    }
  }

  /** The pairs the arm pushes hold exactly when the merge's own pairs do. */
  lemma ArmPairsMeaning<T, G>(es: seq<T>, p: Row<nat, T>, ev: T -> G)
    requires Distinct(p.fields) && InBounds(es, p)
    ensures PairsHold(ArmPairs(es, p), ev) <==> PairsHold(Shared(Indexed(es).fields, p.fields), ev)
  {
    IndexedLabels(es);
    var fs := Indexed(es).fields;
    SharedAgree(fs, p.fields, ev);
    var m1, m2 := FieldMap(fs, ev), FieldMap(p.fields, ev);
    forall i | 0 <= i < |p.fields|
      ensures p.fields[i].0 in m1 && p.fields[i].0 in m2
      ensures m1[p.fields[i].0] == ev(ArmPairs(es, p)[i].0) && m2[p.fields[i].0] == ev(ArmPairs(es, p)[i].1)
    {
      FieldMapAt(p.fields, ev, i);
      FieldMapAt(fs, ev, p.fields[i].0);
    }
    if PairsHold(ArmPairs(es, p), ev) {
      forall l | l in m1 && l in m2 ensures m1[l] == m2[l] {
        var i :| 0 <= i < |p.fields| && p.fields[i].0 == l;
        assert ArmPairs(es, p)[i] in ArmPairs(es, p);
      }
    }
    if Agree(m1, m2) {
      forall q | q in ArmPairs(es, p) ensures ev(q.0) == ev(q.1) {
        var i :| 0 <= i < |p.fields| && ArmPairs(es, p)[i] == q;
        assert p.fields[i].0 in m1 && p.fields[i].0 in m2;
      }
    }
  }
}
