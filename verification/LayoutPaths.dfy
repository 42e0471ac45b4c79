/** What the layout writes, leaf by leaf: each piece comes from one place in the document,
    in document order, and is what that place is due there. */
module LayoutPaths {
  import opened Wrappers
  import opened PrettyDoc
  import Layout

  /** The way from a document down to one inside it, as child numbers. */
  type Path = seq<nat>

  /** Where a path leads: the document there, the indentation of the `Nest`s around it, whether
      it is inside a group laid out flat, and whether it is such a group itself. */
  datatype Spot = Spot(doc: Doc, levels: nat, flat: bool, marked: bool)

  /** Follow a path; `marks` are the places of the groups laid out flat. Of an `IfFlat` only the
      alternative in force can be entered. */
  ghost function Walk(d: Doc, p: Path, levels: nat, flat: bool, marks: set<Path>, done: Path): Option<Spot>
    decreases |p|
  {
    if p == [] then Some(Spot(d, levels, flat, done in marks))
    else
      match d
      case IfFlat(a, b) => if p[0] == (if flat then 0 else 1) then Walk(if flat then a else b, p[1..], levels, flat, marks, done + [p[0]]) else None
      case Nest(n, b) => if p[0] == 0 then Walk(b, p[1..], levels + n, flat, marks, done + [p[0]]) else None
      case Concat(ps) => if p[0] < |ps| then Walk(ps[p[0]], p[1..], levels, flat, marks, done + [p[0]]) else None
      case Group(b) => if p[0] == 0 then Walk(b, p[1..], levels, flat || done in marks, marks, done + [p[0]]) else None
      case _ => None
  }

  /** What is due there: a text itself, a mandatory newline with its indentation, a line break
      as a space or such a newline, a soft break as nothing or such a newline. */
  ghost function Due(s: Spot): Option<Piece> {
    match s.doc
    case Text(t) => Some(Chunk(t))
    case HardLine => Some(Newline(s.levels))
    case Line => Some(if s.flat then Blank else Newline(s.levels))
    case SoftBreak => if s.flat then None else Some(Newline(s.levels))
    case Group(_) => if s.marked then Some(FlatGroup) else None
    case _ => None
  }

  ghost function DueAt(d: Doc, p: Path, levels: nat, flat: bool, marks: set<Path>, done: Path): Option<Piece> {
    match Walk(d, p, levels, flat, marks, done)
    case None => None
    case Some(s) => Due(s)
  }

  /** Document order: a document before what is inside it, children from left to right. */
  ghost predicate Before(p: Path, q: Path) {
    q != [] && (p == [] || p[0] < q[0] || (p[0] == q[0] && Before(p[1..], q[1..])))
  }

  ghost predicate Ordered(paths: seq<Path>) { forall i, j :: 0 <= i < j < |paths| ==> Before(paths[i], paths[j]) }

  /** The pieces are what is due at the paths. */
  ghost predicate Sound(d: Doc, levels: nat, flat: bool, marks: set<Path>, done: Path, paths: seq<Path>, pieces: seq<Piece>) {
    |paths| == |pieces| && forall i :: 0 <= i < |paths| ==> DueAt(d, paths[i], levels, flat, marks, done) == Some(pieces[i])
  }

  /** Nothing is due anywhere else, in the children from the `k`th on. */
  ghost predicate Full(d: Doc, k: nat, levels: nat, flat: bool, marks: set<Path>, done: Path, paths: seq<Path>) {
    forall p :: (p == [] || p[0] >= k) && DueAt(d, p, levels, flat, marks, done).Some? ==> p in paths
  }

  ghost predicate From(k: nat, paths: seq<Path>) { forall i :: 0 <= i < |paths| ==> paths[i] != [] && paths[i][0] >= k }

  ghost predicate Written(d: Doc, levels: nat, flat: bool, marks: set<Path>, done: Path, paths: seq<Path>, pieces: seq<Piece>) {
    Ordered(paths) && Sound(d, levels, flat, marks, done, paths, pieces) && Full(d, 0, levels, flat, marks, done, paths)
  }

  /** The same for the parts of a concatenation from the `k`th on. */
  ghost predicate WrittenFrom(parts: seq<Doc>, k: nat, levels: nat, flat: bool, marks: set<Path>, done: Path, paths: seq<Path>, pieces: seq<Piece>) {
    Ordered(paths) && From(k, paths) && Sound(Concat(parts), levels, flat, marks, done, paths, pieces) && Full(Concat(parts), k, levels, flat, marks, done, paths)
  }

  ghost predicate Below(done: Path, marks: set<Path>) { forall q :: q in marks ==> done <= q }

  ghost function Lift(k: nat, paths: seq<Path>): (r: seq<Path>)
    ensures |r| == |paths| && forall i :: 0 <= i < |paths| ==> r[i] == [k] + paths[i]
  {
    if paths == [] then [] else [[k] + paths[0]] + Lift(k, paths[1..])
  }

  lemma LiftOrdered(k: nat, paths: seq<Path>)
    requires Ordered(paths)
    ensures Ordered(Lift(k, paths))
  {
    forall i, j | 0 <= i < j < |paths| ensures Before(Lift(k, paths)[i], Lift(k, paths)[j]) {
      assert ([k] + paths[i])[1..] == paths[i] && ([k] + paths[j])[1..] == paths[j];
    }
  }

  /** Only the marks below a document matter for what is due in it. */
  lemma {:induction false} DueLocal(d: Doc, p: Path, levels: nat, flat: bool, marks: set<Path>, marks': set<Path>, done: Path)
    requires forall q :: done <= q ==> (q in marks <==> q in marks')
    ensures Walk(d, p, levels, flat, marks, done) == Walk(d, p, levels, flat, marks', done)
    decreases |p|
  {
    if p != [] {
      forall q | done + [p[0]] <= q ensures q in marks <==> q in marks' { assert done <= q; }
      match d
      case IfFlat(a, b) => DueLocal(if flat then a else b, p[1..], levels, flat, marks, marks', done + [p[0]]);
      case Nest(n, b) => DueLocal(b, p[1..], levels + n, flat, marks, marks', done + [p[0]]);
      case Concat(ps) => if p[0] < |ps| { DueLocal(ps[p[0]], p[1..], levels, flat, marks, marks', done + [p[0]]); }
      case Group(b) => DueLocal(b, p[1..], levels, flat || done in marks, marks, marks', done + [p[0]]);
      case _ =>
    }
  }

  lemma LocalWritten(d: Doc, levels: nat, flat: bool, marks: set<Path>, marks': set<Path>, done: Path, paths: seq<Path>, pieces: seq<Piece>)
    requires Written(d, levels, flat, marks, done, paths, pieces)
    requires forall q :: done <= q ==> (q in marks <==> q in marks')
    ensures Written(d, levels, flat, marks', done, paths, pieces)
  {
    forall p ensures DueAt(d, p, levels, flat, marks, done) == DueAt(d, p, levels, flat, marks', done) {
      DueLocal(d, p, levels, flat, marks, marks', done);
    }
  }

  lemma LiftHolds(k: nat, paths: seq<Path>, p: Path)
    requires p != [] && p[0] == k && p[1..] in paths
    ensures p in Lift(k, paths)
  {
    var i :| 0 <= i < |paths| && paths[i] == p[1..];
    assert Lift(k, paths)[i] == [p[0]] + p[1..] == p;
  }

  lemma FrontOrdered(paths: seq<Path>)
    requires Ordered(paths) && forall i :: 0 <= i < |paths| ==> paths[i] != []
    ensures Ordered([[]] + paths)
  {
    forall i, j | 0 <= i < j < |paths| + 1 ensures Before(([[]] + paths)[i], ([[]] + paths)[j]) {
      if i > 0 { assert ([[]] + paths)[i] == paths[i - 1] && ([[]] + paths)[j] == paths[j - 1]; }
    }
  }

  /** The only way into `d` is its child `c`, the `k`th. */
  ghost predicate Enters(d: Doc, c: Doc, k: nat, levels: nat, levels': nat, flat: bool, flat': bool, marks: set<Path>, done: Path) {
    forall p :: p != [] ==> Walk(d, p, levels, flat, marks, done) == (if p[0] == k then Walk(c, p[1..], levels', flat', marks, done + [k]) else None)
  }

  lemma EntersAt(d: Doc, c: Doc, k: nat, levels: nat, levels': nat, flat: bool, flat': bool, marks: set<Path>, done: Path, p: Path)
    requires Enters(d, c, k, levels, levels', flat, flat', marks, done) && p != []
    ensures DueAt(d, p, levels, flat, marks, done) == if p[0] == k then DueAt(c, p[1..], levels', flat', marks, done + [k]) else None
  {
    hide Walk, Due;
  }

  lemma LiftSound(d: Doc, c: Doc, k: nat, levels: nat, levels': nat, flat: bool, flat': bool, marks: set<Path>, done: Path, paths: seq<Path>, pieces: seq<Piece>)
    requires Enters(d, c, k, levels, levels', flat, flat', marks, done) && Sound(c, levels', flat', marks, done + [k], paths, pieces)
    ensures Sound(d, levels, flat, marks, done, Lift(k, paths), pieces)
  {
    hide Enters, DueAt, Lift;
    forall i | 0 <= i < |paths| ensures DueAt(d, Lift(k, paths)[i], levels, flat, marks, done) == Some(pieces[i]) {
      var p := Lift(k, paths)[i];
      assert p == [k] + paths[i] && p[1..] == paths[i];
      EntersAt(d, c, k, levels, levels', flat, flat', marks, done, p);
    }
  }

  lemma LiftFull(d: Doc, c: Doc, k: nat, levels: nat, levels': nat, flat: bool, flat': bool, marks: set<Path>, done: Path, paths: seq<Path>)
    requires Enters(d, c, k, levels, levels', flat, flat', marks, done) && Full(c, 0, levels', flat', marks, done + [k], paths)
    ensures forall p :: p != [] && DueAt(d, p, levels, flat, marks, done).Some? ==> p in Lift(k, paths)
  {
    hide Enters, DueAt, Lift;
    forall p | p != [] && DueAt(d, p, levels, flat, marks, done).Some? ensures p in Lift(k, paths) {
      EntersAt(d, c, k, levels, levels', flat, flat', marks, done, p);
      LiftHolds(k, paths, p);
    }
  }

  /** From the one child that can be entered to the document, which is due itself or not. */
  lemma OnlyChild(d: Doc, c: Doc, k: nat, levels: nat, levels': nat, flat: bool, flat': bool, marks: set<Path>, done: Path,
                  own: Option<Piece>, paths: seq<Path>, pieces: seq<Piece>) returns (paths': seq<Path>)
    requires Written(c, levels', flat', marks, done + [k], paths, pieces)
    requires Enters(d, c, k, levels, levels', flat, flat', marks, done)
    requires own == DueAt(d, [], levels, flat, marks, done)
    ensures Written(d, levels, flat, marks, done, paths', (match own case None => [] case Some(x) => [x]) + pieces)
  {
    LiftOrdered(k, paths);
    LiftSound(d, c, k, levels, levels', flat, flat', marks, done, paths, pieces);
    LiftFull(d, c, k, levels, levels', flat, flat', marks, done, paths);
    var lifted := Lift(k, paths);
    hide Enters, DueAt, Lift, Ordered, Sound;
    if own == None {
      assert [] + pieces == pieces;
      paths' := lifted;
    } else {
      FrontOrdered(lifted);
      OneSound(d, levels, flat, marks, done, own.value);
      SoundConcat(d, levels, flat, marks, done, [[]], [own.value], lifted, pieces);
      paths' := [[]] + lifted;
    }
  }

  lemma OneSound(d: Doc, levels: nat, flat: bool, marks: set<Path>, done: Path, own: Piece)
    requires DueAt(d, [], levels, flat, marks, done) == Some(own)
    ensures Sound(d, levels, flat, marks, done, [[]], [own])
  {
  }

  lemma SoundConcat(d: Doc, levels: nat, flat: bool, marks: set<Path>, done: Path, a: seq<Path>, x: seq<Piece>, b: seq<Path>, y: seq<Piece>)
    requires Sound(d, levels, flat, marks, done, a, x) && Sound(d, levels, flat, marks, done, b, y)
    ensures Sound(d, levels, flat, marks, done, a + b, x + y)
  {
    hide DueAt;
  }

  /** A document without children. */
  lemma Leaf(d: Doc, levels: nat, flat: bool, marks: set<Path>, done: Path, pieces: seq<Piece>) returns (paths: seq<Path>)
    requires IsLeaf(d) && pieces == match Due(Spot(d, levels, flat, done in marks)) case None => [] case Some(x) => [x]
    ensures Written(d, levels, flat, marks, done, paths, pieces)
  {
    paths := if Due(Spot(d, levels, flat, done in marks)).Some? then [[]] else [];
  }

  lemma ConcatWritten(parts: seq<Doc>, levels: nat, flat: bool, marks: set<Path>, done: Path, paths: seq<Path>, pieces: seq<Piece>)
    requires WrittenFrom(parts, 0, levels, flat, marks, done, paths, pieces)
    ensures Written(Concat(parts), levels, flat, marks, done, paths, pieces)
  {
    assert DueAt(Concat(parts), [], levels, flat, marks, done) == None;
  }

  /** One more part in front. */
  lemma ConsWritten(parts: seq<Doc>, k: nat, levels: nat, flat: bool, marks: set<Path>, done: Path,
                    first: seq<Path>, pieces: seq<Piece>, rest: seq<Path>, more: seq<Piece>)
    requires k < |parts| && Written(parts[k], levels, flat, marks, done + [k], first, pieces)
    requires WrittenFrom(parts, k + 1, levels, flat, marks, done, rest, more)
    ensures WrittenFrom(parts, k, levels, flat, marks, done, Lift(k, first) + rest, pieces + more)
  {
    var lifted := Lift(k, first);
    LiftOrdered(k, first);
    assert forall i :: 0 <= i < |lifted| ==> lifted[i] != [] && lifted[i][0] == k;
    PartSound(parts, k, levels, flat, marks, done, first, pieces);
    PartFull(parts, k, levels, flat, marks, done, first);
    hide DueAt, Lift, Ordered, Sound;
    FromBeside(k, lifted, rest);
    BesideOrdered(k, lifted, rest);
    SoundConcat(Concat(parts), levels, flat, marks, done, lifted, pieces, rest, more);
    forall p | (p == [] || p[0] >= k) && DueAt(Concat(parts), p, levels, flat, marks, done).Some? ensures p in lifted + rest {
      if p != [] && p[0] == k { assert p in lifted; } else { assert p in rest; }
    }
  }

  lemma FromBeside(k: nat, a: seq<Path>, b: seq<Path>)
    requires (forall i :: 0 <= i < |a| ==> a[i] != [] && a[i][0] == k) && From(k + 1, b)
    ensures From(k, a + b)
  {
  }

  lemma PartSound(parts: seq<Doc>, k: nat, levels: nat, flat: bool, marks: set<Path>, done: Path, paths: seq<Path>, pieces: seq<Piece>)
    requires k < |parts| && Sound(parts[k], levels, flat, marks, done + [k], paths, pieces)
    ensures Sound(Concat(parts), levels, flat, marks, done, Lift(k, paths), pieces)
  {
    hide Due, Lift;
    forall i | 0 <= i < |paths| ensures DueAt(Concat(parts), Lift(k, paths)[i], levels, flat, marks, done) == Some(pieces[i]) {
      var p := Lift(k, paths)[i];
      assert p == [k] + paths[i] && p[1..] == paths[i];
    }
  }

  lemma PartFull(parts: seq<Doc>, k: nat, levels: nat, flat: bool, marks: set<Path>, done: Path, paths: seq<Path>)
    requires k < |parts| && Full(parts[k], 0, levels, flat, marks, done + [k], paths)
    ensures forall p :: p != [] && p[0] == k && DueAt(Concat(parts), p, levels, flat, marks, done).Some? ==> p in Lift(k, paths)
  {
    hide Due, Lift;
    forall p | p != [] && p[0] == k && DueAt(Concat(parts), p, levels, flat, marks, done).Some? ensures p in Lift(k, paths) {
      assert DueAt(Concat(parts), p, levels, flat, marks, done) == DueAt(parts[k], p[1..], levels, flat, marks, done + [k]);
      LiftHolds(k, paths, p);
    }
  }

  lemma BesideOrdered(k: nat, a: seq<Path>, b: seq<Path>)
    requires Ordered(a) && Ordered(b)
    requires (forall i :: 0 <= i < |a| ==> a[i] != [] && a[i][0] == k) && From(k + 1, b)
    ensures Ordered(a + b)
  {
    forall i, j | 0 <= i < j < |a + b| ensures Before((a + b)[i], (a + b)[j]) {
      if i >= |a| { assert (a + b)[i] == b[i - |a|] && (a + b)[j] == b[j - |a|]; }
      else if j < |a| { assert (a + b)[i] == a[i] && (a + b)[j] == a[j]; }
      else { assert (a + b)[i] == a[i] && (a + b)[j] == b[j - |a|]; }
    }
  }

  lemma NoParts(parts: seq<Doc>, levels: nat, flat: bool, marks: set<Path>, done: Path)
    ensures WrittenFrom(parts, |parts|, levels, flat, marks, done, [], [])
  {
  }

  lemma LocalWrittenFrom(parts: seq<Doc>, k: nat, levels: nat, flat: bool, marks: set<Path>, marks': set<Path>, done: Path, paths: seq<Path>, pieces: seq<Piece>)
    requires WrittenFrom(parts, k, levels, flat, marks, done, paths, pieces)
    requires forall q :: done < q && q[|done|] >= k ==> (q in marks <==> q in marks')
    ensures WrittenFrom(parts, k, levels, flat, marks', done, paths, pieces)
  {
    forall p | p != [] && p[0] >= k
      ensures DueAt(Concat(parts), p, levels, flat, marks, done) == DueAt(Concat(parts), p, levels, flat, marks', done)
    {
      if p[0] < |parts| {
        forall q | done + [p[0]] <= q ensures q in marks <==> q in marks' { assert done < q && q[|done|] == p[0]; }
        DueLocal(parts[p[0]], p[1..], levels, flat, marks, marks', done + [p[0]]);
      }
    }
  }

  // ----- inside a flat group -----

  lemma {:induction false} FlatByPaths(d: Doc, levels: nat, marks: set<Path>, done: Path) returns (paths: seq<Path>)
    requires FirstLine(d, Flat).end == RunsOn && forall q :: q in marks ==> !(done <= q)
    ensures Written(d, levels, true, marks, done, paths, FlatPieces(d))
    decreases d, 1
  {
    hide Written;
    match d
    case IfFlat(a, _) =>
      assert [] + FlatPieces(a) == FlatPieces(a);
      var inner := FlatByPaths(a, levels, marks, done + [0]);
      paths := OnlyChild(d, a, 0, levels, levels, true, true, marks, done, None, inner, FlatPieces(a));
    case Nest(n, b) =>
      assert [] + FlatPieces(b) == FlatPieces(b);
      var inner := FlatByPaths(b, levels + n, marks, done + [0]);
      paths := OnlyChild(d, b, 0, levels, levels + n, true, true, marks, done, None, inner, FlatPieces(b));
    case Group(b) =>
      assert [] + FlatPieces(b) == FlatPieces(b);
      var inner := FlatByPaths(b, levels, marks, done + [0]);
      assert done !in marks;
      paths := OnlyChild(d, b, 0, levels, levels, true, true, marks, done, None, inner, FlatPieces(b));
    case Concat(ps) =>
      assert ps[0..] == ps;
      paths := FlatPartsByPaths(ps, 0, levels, marks, done);
      ConcatWritten(ps, levels, true, marks, done, paths, FlatPieces(d));
    case _ => paths := Leaf(d, levels, true, marks, done, FlatPieces(d));
  }

  lemma {:induction false} FlatPartsByPaths(parts: seq<Doc>, k: nat, levels: nat, marks: set<Path>, done: Path) returns (paths: seq<Path>)
    requires k <= |parts| && FirstLineAll(parts[k..], Flat).end == RunsOn && forall q :: q in marks ==> !(done <= q)
    ensures WrittenFrom(parts, k, levels, true, marks, done, paths, FlatPiecesAll(parts[k..]))
    decreases parts, 0, |parts| - k
  {
    hide WrittenFrom, Written;
    if k == |parts| {
      NoParts(parts, levels, true, marks, done);
      paths := [];
    } else {
      assert parts[k..][1..] == parts[k + 1..];
      FlatEnds(parts[k]);
      FlatEndsAll(parts[k + 1..]);
      var first := FlatByPaths(parts[k], levels, marks, done + [k]);
      var rest := FlatPartsByPaths(parts, k + 1, levels, marks, done);
      ConsWritten(parts, k, levels, true, marks, done, first, FlatPieces(parts[k]), rest, FlatPiecesAll(parts[k + 1..]));
      paths := Lift(k, first) + rest;
    }
  }

  // ----- outside -----

  lemma {:induction false} LayByPaths(d: Doc, levels: nat, col: nat, after: Lead, width: nat, done: Path)
    returns (paths: seq<Path>, marks: set<Path>)
    ensures Written(d, levels, false, marks, done, paths, Lay(d, levels, col, after, width)) && Below(done, marks)
    decreases d, 1
  {
    hide Written;
    match d
    case IfFlat(_, b) =>
      assert [] + Lay(b, levels, col, after, width) == Lay(b, levels, col, after, width);
      var inner;
      inner, marks := LayByPaths(b, levels, col, after, width, done + [1]);
      paths := OnlyChild(d, b, 1, levels, levels, false, false, marks, done, None, inner, Lay(b, levels, col, after, width));
    case Nest(n, b) =>
      assert [] + Lay(b, levels + n, col, after, width) == Lay(b, levels + n, col, after, width);
      var inner;
      inner, marks := LayByPaths(b, levels + n, col, after, width, done + [0]);
      paths := OnlyChild(d, b, 0, levels, levels + n, false, false, marks, done, None, inner, Lay(b, levels + n, col, after, width));
    case Group(b) =>
      if LeadFits(Then(FirstLine(b, Flat), after), width - col) {
        FlatEnds(b);
        marks := {done};
        var inner := FlatByPaths(b, levels, marks, done + [0]);
        paths := OnlyChild(d, b, 0, levels, levels, false, true, marks, done, Some(FlatGroup), inner, FlatPieces(b));
      } else {
        assert [] + Lay(b, levels, col, after, width) == Lay(b, levels, col, after, width);
        var inner;
        inner, marks := LayByPaths(b, levels, col, after, width, done + [0]);
        assert done !in marks;
        paths := OnlyChild(d, b, 0, levels, levels, false, false, marks, done, None, inner, Lay(b, levels, col, after, width));
      }
    case Concat(ps) =>
      assert ps[0..] == ps;
      paths, marks := LayPartsByPaths(ps, 0, levels, col, after, width, done);
      ConcatWritten(ps, levels, false, marks, done, paths, Lay(d, levels, col, after, width));
    case _ =>
      marks := {};
      paths := Leaf(d, levels, false, marks, done, Lay(d, levels, col, after, width));
  }

  ghost predicate BelowFrom(done: Path, k: nat, marks: set<Path>) { forall q :: q in marks ==> done < q && q[|done|] >= k }

  lemma {:induction false} LayPartsByPaths(parts: seq<Doc>, k: nat, levels: nat, col: nat, after: Lead, width: nat, done: Path)
    returns (paths: seq<Path>, marks: set<Path>)
    requires k <= |parts|
    ensures WrittenFrom(parts, k, levels, false, marks, done, paths, LayAll(parts[k..], levels, col, after, width)) && BelowFrom(done, k, marks)
    decreases parts, 0, |parts| - k
  {
    hide WrittenFrom, Written;
    if k == |parts| {
      marks := {};
      NoParts(parts, levels, false, marks, done);
      paths := [];
    } else {
      assert parts[k..][1..] == parts[k + 1..];
      var lead := Then(FirstLineAll(parts[k + 1..], Break), after);
      var pieces := Lay(parts[k], levels, col, lead, width);
      var first, marks1 := LayByPaths(parts[k], levels, col, lead, width, done + [k]);
      var rest, marks2 := LayPartsByPaths(parts, k + 1, levels, ColumnAfter(col, pieces), after, width, done);
      marks := marks1 + marks2;
      LocalWritten(parts[k], levels, false, marks1, marks, done + [k], first, pieces);
      LocalWrittenFrom(parts, k + 1, levels, false, marks2, marks, done, rest, LayAll(parts[k + 1..], levels, ColumnAfter(col, pieces), after, width));
      ConsWritten(parts, k, levels, false, marks, done, first, pieces, rest, LayAll(parts[k + 1..], levels, ColumnAfter(col, pieces), after, width));
      paths := Lift(k, first) + rest;
    }
  }

  /** A document is written place by place: `marks` being the groups laid out flat, the layout
      is what is due at the places where something is, in document order. In particular the
      indentation of each newline is that of all `Nest`s around its place. */
  lemma WrittenByPlace(d: Doc, indent: nat, col: nat, after: Lead, width: nat) returns (paths: seq<Path>, marks: set<Path>)
    ensures Ordered(paths) && |paths| == |Lay(d, indent, col, after, width)|
    ensures forall i :: 0 <= i < |paths| ==> DueAt(d, paths[i], indent, false, marks, []) == Some(Lay(d, indent, col, after, width)[i])
    ensures forall p :: DueAt(d, p, indent, false, marks, []).Some? ==> p in paths
  {
    paths, marks := LayByPaths(d, indent, col, after, width, []);
  }
}
