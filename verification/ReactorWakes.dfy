/** Reaped fibers over whole runs: which wake-ups still reach them, and why their ids may not
    be recycled before their operation is gone. */
module ReactorWakes {
  import opened Wrappers
  import opened Reactor
  import opened ReactorRuns
  import opened ReactorSafety

  /** A run together with the steps it takes. */
  ghost predicate Trace<V>(ws: seq<World<V>>, steps: seq<Step<V>>) {
    && |ws| == |steps| + 1 && Initial(ws[0])
    && forall i :: 0 <= i < |steps| ==> Enabled(ws[i], steps[i]) && ws[i + 1] == After(ws[i], steps[i])
  }

  lemma TraceIsRun<V(!new)>(ws: seq<World<V>>, steps: seq<Step<V>>)
    requires Trace(ws, steps)
    ensures Run(ws)
  {
    hide Enabled, After, Initial;
    forall i | 0 <= i < |ws| - 1 ensures Steps(ws[i], ws[i + 1]) {
      assert Enabled(ws[i], steps[i]) && ws[i + 1] == After(ws[i], steps[i]);
    }
  }

  /** The step is one at which `poll` returns to the scheduler, with `Woken` as its answer. */
  ghost predicate Returns<V>(w: World<V>, step: Step<V>) {
    step == EndPoll || (step == BeginPoll && !(w.h.ready == [] && (w.h.waits != map[] || w.h.inflight != {})))
  }

  /** It returns a fiber. */
  ghost predicate ReturnsFiber<V>(w: World<V>, step: Step<V>) { Returns(w, step) && w.h.ready != [] }

  /** How many fibers were returned from step `i` up to step `j`. */
  ghost function Count<V>(ws: seq<World<V>>, steps: seq<Step<V>>, i: nat, j: nat): nat
    requires i <= j <= |steps| < |ws|
  {
    if i == j then 0 else Count(ws, steps, i, j - 1) + if ReturnsFiber(ws[j - 1], steps[j - 1]) then 1 else 0
  }

  // ----- the buffer of wake-ups is first in, first out -----

  lemma {:induction false} EventsAppend<V>(h: Host<Ticket, Answer<V>>, events: seq<Fid>, fid: Fid) returns (more: seq<Fid>)
    requires fid !in h.waits
    ensures EventsSeen(h, events).ready == h.ready + more && fid !in more
    decreases |events|
  {
    if events == [] {
      more := [];
    } else {
      var rest := EventsAppend(EventSeen(h, events[0]), events[1..], fid);
      more := (if events[0] in h.waits then [events[0]] else []) + rest;
    }
  }

  /** A step takes a wake-up off the front or adds some at the end, none for a reaped fiber. */
  lemma StepAppends<V>(w: World<V>, step: Step<V>, fid: Fid) returns (more: seq<Fid>)
    requires Inv(w) && Enabled(w, step) && fid in w.retired
    ensures After(w, step).h.ready == (if ReturnsFiber(w, step) then w.h.ready[1..] else w.h.ready) + more && fid !in more
  {
    more := [];
    match step
    case WaitReturns(events) =>
      NotWaiting(w, fid);
      more := EventsAppend(w.h.(notified := false), events, fid);
    case DrainNext =>
      FrontCompletion(w);
      if w.h.completions[0].fid !in w.h.discarded { more := [w.h.completions[0].fid]; }
    case _ =>
  }

  lemma NotWaiting<V>(w: World<V>, fid: Fid)
    requires Inv(w) && fid in w.retired
    ensures fid !in w.h.waits
  {
  }

  /** The wake-ups of a reaped fiber after `n` returns: those buffered at the reaping that
      are not among the first `n`. */
  ghost predicate Buffered(ready: seq<Fid>, before: seq<Fid>, n: nat, fid: Fid) {
    if n <= |before| then exists more :: ready == before[n..] + more && fid !in more else fid !in ready
  }

  lemma BufferedStep(ready: seq<Fid>, before: seq<Fid>, n: nat, fid: Fid, wakes: bool, added: seq<Fid>, ready': seq<Fid>)
    requires Buffered(ready, before, n, fid) && fid !in added && (wakes ==> ready != [])
    requires ready' == (if wakes then ready[1..] else ready) + added
    ensures Buffered(ready', before, if wakes then n + 1 else n, fid)
  {
    if n <= |before| {
      var more :| ready == before[n..] + more && fid !in more;
      if !wakes {
        assert ready' == before[n..] + (more + added);
      } else if n < |before| {
        assert ready' == before[n + 1..] + (more + added);
      } else {
        assert ready' == more[1..] + added;
      }
    }
  }

  lemma TraceStep<V>(ws: seq<World<V>>, steps: seq<Step<V>>, k: nat)
    requires Trace(ws, steps) && k < |steps|
    ensures |ws| == |steps| + 1 && Enabled(ws[k], steps[k]) && ws[k + 1] == After(ws[k], steps[k])
  {
    hide Enabled, After, Initial;
  }

  lemma {:induction false} RunBuffers<V(!new)>(ws: seq<World<V>>, steps: seq<Step<V>>, i: nat, j: nat, fid: Fid)
    requires Trace(ws, steps) && i < j <= |steps| && steps[i] == Cancel(fid)
    requires forall k :: i < k < j ==> steps[k] != Recycle(fid)
    ensures fid in ws[j].retired && Buffered(ws[j].h.ready, ws[i].h.ready, Count(ws, steps, i + 1, j), fid)
    decreases j
  {
    hide Trace, Inv, Enabled, After, Buffered, ReturnsFiber, Run, Steps;
    if j == i + 1 {
      TraceStep(ws, steps, i);
      ReapingKeepsBuffer(ws[i], fid);
    } else {
      RunBuffers(ws, steps, i, j - 1, fid);
      TraceIsRun(ws, steps);
      TraceStep(ws, steps, j - 1);
      RunKeeps(ws, j - 1);
      StepKeepsBuffer(ws[j - 1], steps[j - 1], ws[i].h.ready, Count(ws, steps, i + 1, j - 1), fid);
    }
  }

  lemma StepKeepsBuffer<V>(w: World<V>, step: Step<V>, before: seq<Fid>, n: nat, fid: Fid)
    requires Inv(w) && Enabled(w, step) && fid in w.retired && step != Recycle(fid) && Buffered(w.h.ready, before, n, fid)
    ensures var w' := After(w, step);
            fid in w'.retired && Buffered(w'.h.ready, before, if ReturnsFiber(w, step) then n + 1 else n, fid)
  {
    hide Inv, Enabled, After, Buffered, ReturnsFiber;
    OnlyBufferedWakesSurvive(w, step, fid);
    var added := StepAppends(w, step, fid);
    ReturnsSome(w, step);
    BufferedStep(w.h.ready, before, n, fid, ReturnsFiber(w, step), added, After(w, step).h.ready);
  }

  lemma ReturnsSome<V>(w: World<V>, step: Step<V>)
    ensures ReturnsFiber(w, step) ==> w.h.ready != []
  {
  }

  lemma ReapingKeepsBuffer<V>(w: World<V>, fid: Fid)
    requires Enabled(w, Cancel(fid))
    ensures var w' := After(w, Cancel(fid)); fid in w'.retired && Buffered(w'.h.ready, w.h.ready, 0, fid)
  {
    assert w.h.ready == w.h.ready[0..] + [];
  }

  /** From the reaping of a fiber until its id is recycled, `poll` returns it exactly where
      the buffer at the reaping held it: as its `n`th fiber, if the `n`th buffered wake-up
      was its own. */
  lemma ReapedWakesExactly<V(!new)>(ws: seq<World<V>>, steps: seq<Step<V>>, i: nat, j: nat, fid: Fid)
    requires Trace(ws, steps) && i < j < |steps| && steps[i] == Cancel(fid) && Returns(ws[j], steps[j])
    requires forall k :: i < k < j ==> steps[k] != Recycle(fid)
    ensures var n := Count(ws, steps, i + 1, j);
            Woken(ws[j].h) == fid <==> n < |ws[i].h.ready| && ws[i].h.ready[n] == fid
  {
    RunBuffers(ws, steps, i, j, fid);
    assert Enabled(ws[i], steps[i]) && fid >= 0;
    BufferedFront(ws[j].h.ready, ws[i].h.ready, Count(ws, steps, i + 1, j), fid);
  }

  lemma BufferedFront(ready: seq<Fid>, before: seq<Fid>, n: nat, fid: Fid)
    requires Buffered(ready, before, n, fid)
    ensures ready != [] && ready[0] == fid <==> n < |before| && before[n] == fid
  {
    if n <= |before| {
      var more :| ready == before[n..] + more && fid !in more;
      if n == |before| { assert ready == more; }
    }
  }

  lemma {:induction false} Reached<V>(ws: seq<World<V>>, steps: seq<Step<V>>, i: nat, j: nat, n: nat) returns (k: nat)
    requires i <= j <= |steps| < |ws| && n < Count(ws, steps, i, j)
    ensures i <= k < j && ReturnsFiber(ws[k], steps[k]) && Count(ws, steps, i, k) == n
    decreases j
  {
    if n < Count(ws, steps, i, j - 1) { k := Reached(ws, steps, i, j - 1, n); } else { k := j - 1; }
  }

  /** Once as many fibers have been returned as were buffered at the reaping, the reaped fiber
      has been returned if and only if one of those wake-ups was its own. */
  lemma ReapedIsReturnedIfBuffered<V(!new)>(ws: seq<World<V>>, steps: seq<Step<V>>, i: nat, j: nat, fid: Fid)
    requires Trace(ws, steps) && i < j <= |steps| && steps[i] == Cancel(fid)
    requires forall k :: i < k < j ==> steps[k] != Recycle(fid)
    requires |ws[i].h.ready| <= Count(ws, steps, i + 1, j)
    ensures (exists k :: i < k < j && Returns(ws[k], steps[k]) && Woken(ws[k].h) == fid) <==> fid in ws[i].h.ready
  {
    TraceStep(ws, steps, i);
    hide Trace, Woken, Returns, Enabled, After;
    if fid in ws[i].h.ready {
      var n :| 0 <= n < |ws[i].h.ready| && ws[i].h.ready[n] == fid;
      var k := Reached(ws, steps, i + 1, j, n);
      ReapedWakesExactly(ws, steps, i, k, fid);
    }
    forall k | i < k < j && Returns(ws[k], steps[k]) && Woken(ws[k].h) == fid ensures fid in ws[i].h.ready {
      ReapedWakesExactly(ws, steps, i, k, fid);
    }
  }

  // ----- without the rule on recycling -----

  /** The steps of a scheduler that recycles a reaped fiber's id at any time. */
  ghost predicate Loose<V>(w: World<V>, step: Step<V>) {
    if step.Recycle? then w.phase == Outside && step.fid in w.retired else Enabled(w, step)
  }

  ghost function LooseAfter<V>(w: World<V>, step: Step<V>): World<V>
    requires Loose(w, step)
  {
    if step.Recycle? then w.(retired := w.retired - {step.fid}) else After(w, step)
  }

  ghost predicate LooseTrace<V>(ws: seq<World<V>>, steps: seq<Step<V>>) {
    && |ws| == |steps| + 1 && Initial(ws[0])
    && forall i :: 0 <= i < |steps| ==> LooseStep(ws[i], steps[i], ws[i + 1])
  }

  ghost predicate LooseStep<V>(w: World<V>, step: Step<V>, w': World<V>) {
    Loose(w, step) && w' == LooseAfter(w, step)
  }

  ghost function Plain<V>(ready: seq<Fid>, completions: seq<Completion<Answer<V>>>, done: map<Fid, Answer<V>>,
                          inflight: set<Fid>, discarded: set<Fid>, jobs: seq<Job<Ticket>>, notified: bool): Host<Ticket, Answer<V>>
  {
    Host(map[], {}, ready, completions, done, inflight, discarded, jobs, notified)
  }

  /** A fiber is reaped while its operation runs on one worker; its id goes to another fiber,
      whose own operation a second worker finishes first. */
  ghost function ReuseStep<V>(k: nat, f: Fid, mine: V, theirs: V): Step<V> {
    if k == 0 then CallOp(f) else if k == 1 then Take(0, 0) else if k == 2 then Cancel(f) else if k == 3 then Recycle(f)
    else if k == 4 then CallOp(f) else if k == 5 then Take(1, 0) else if k == 6 then Finish(1, mine) else if k == 7 then Finish(0, theirs)
    else if k == 8 then Notify(0) else if k == 9 then BeginPoll else if k == 10 then WaitReturns([])
    else if k == 11 then DrainNext else if k == 12 then DrainNext else if k == 13 then EndPoll else CallOp(f)
  }

  ghost function ReuseWorld<V>(k: nat, f: Fid, mine: V, theirs: V): World<V> {
    var a, b := Busy(Job(f, 0)), Busy(Job(f, 1));
    var one, two := Completion(f, Answer(1, mine)), Completion(f, Answer(0, theirs));
    var both := map[1 := mine, 0 := theirs];
    if k == 0 then World(Plain([], [], map[], {}, {}, [], false), [Free, Free], Outside, [], [], map[], map[], {}, {}, {}, [])
    else if k == 1 then World(Plain([], [], map[], {f}, {}, [Job(f, 0)], false), [Free, Free], Outside, [f], [Queued], map[], map[f := 0], {f}, {}, {}, [])
    else if k == 2 then World(Plain([], [], map[], {f}, {}, [], false), [a, Free], Outside, [f], [Running], map[], map[f := 0], {f}, {}, {}, [])
    else if k == 3 then World(Plain([], [], map[], {f}, {f}, [], false), [a, Free], Outside, [f], [Running], map[], map[f := 0], {}, {f}, {0}, [])
    else if k == 4 then World(Plain([], [], map[], {f}, {f}, [], false), [a, Free], Outside, [f], [Running], map[], map[f := 0], {}, {}, {0}, [])
    else if k == 5 then World(Plain([], [], map[], {f}, {f}, [Job(f, 1)], false), [a, Free], Outside, [f, f], [Running, Queued], map[], map[f := 1], {f}, {}, {0}, [])
    else if k == 6 then World(Plain([], [], map[], {f}, {f}, [], false), [a, b], Outside, [f, f], [Running, Running], map[], map[f := 1], {f}, {}, {0}, [])
    else if k == 7 then World(Plain([], [one], map[], {f}, {f}, [], false), [a, Pushed], Outside, [f, f], [Running, Completed], map[1 := mine], map[f := 1], {f}, {}, {0}, [])
    else if k == 8 then World(Plain([], [one, two], map[], {f}, {f}, [], false), [Pushed, Pushed], Outside, [f, f], [Completed, Completed], both, map[f := 1], {f}, {}, {0}, [])
    else if k == 9 then World(Plain([], [one, two], map[], {f}, {f}, [], true), [Free, Pushed], Outside, [f, f], [Completed, Completed], both, map[f := 1], {f}, {}, {0}, [])
    else if k == 10 then World(Plain([], [one, two], map[], {f}, {f}, [], true), [Free, Pushed], Waiting, [f, f], [Completed, Completed], both, map[f := 1], {f}, {}, {0}, [])
    else if k == 11 then World(Plain([], [one, two], map[], {f}, {f}, [], false), [Free, Pushed], Draining, [f, f], [Completed, Completed], both, map[f := 1], {f}, {}, {0}, [])
    else if k == 12 then World(Plain([], [two], map[], {}, {}, [], false), [Free, Pushed], Draining, [f, f], [Completed, Dropped], both, map[], {f}, {}, {0}, [])
    else if k == 13 then World(Plain([f], [], map[f := Answer(0, theirs)], {}, {}, [], false), [Free, Pushed], Draining, [f, f], [Stashed, Dropped], both, map[], {f}, {}, {0}, [])
    else if k == 14 then World(Plain([], [], map[f := Answer(0, theirs)], {}, {}, [], false), [Free, Pushed], Outside, [f, f], [Stashed, Dropped], both, map[], {}, {}, {0}, [])
    else World(Plain([], [], map[], {}, {}, [], false), [Free, Pushed], Outside, [f, f], [Delivered, Dropped], both, map[], {}, {}, {0}, [Delivery(f, 0, theirs)])
  }

  lemma ReuseStarts<V>(k: nat, f: Fid, mine: V, theirs: V)
    requires f >= 0 && k < 6
    ensures LooseStep(ReuseWorld(k, f, mine, theirs), ReuseStep(k, f, mine, theirs), ReuseWorld(k + 1, f, mine, theirs))
  {
    assert [Job(f, 0)][..0] + [Job(f, 0)][1..] == [] && [Job(f, 1)][..0] + [Job(f, 1)][1..] == [];
  }

  lemma ReuseFinishes<V>(k: nat, f: Fid, mine: V, theirs: V)
    requires f >= 0 && 6 <= k < 11
    ensures LooseStep(ReuseWorld(k, f, mine, theirs), ReuseStep(k, f, mine, theirs), ReuseWorld(k + 1, f, mine, theirs))
  {
  }

  lemma ReuseDelivers<V>(k: nat, f: Fid, mine: V, theirs: V)
    requires f >= 0 && 11 <= k < 15
    ensures LooseStep(ReuseWorld(k, f, mine, theirs), ReuseStep(k, f, mine, theirs), ReuseWorld(k + 1, f, mine, theirs))
  {
    assert {f} - {f} == {} && map[f := Answer(0, theirs)] - {f} == map[];
  }

  /** Without the rule a run delivers the reaped fiber's cancelled result to the fiber that got
      its id, and drops that fiber's own. */
  lemma ReusedIdReceivesCancelled<V>(f: Fid, mine: V, theirs: V) returns (ws: seq<World<V>>, steps: seq<Step<V>>)
    requires f >= 0
    ensures LooseTrace(ws, steps)
    ensures var w := ws[|ws| - 1]; w.log == [Delivery(f, 0, theirs)] && w.cancelled == {0} && w.place == [Delivered, Dropped]
  {
    ws := seq(16, k requires 0 <= k => ReuseWorld(k, f, mine, theirs));
    steps := seq(15, k requires 0 <= k => ReuseStep(k, f, mine, theirs));
    assert Initial(ws[0]);
    hide LooseStep, ReuseWorld, ReuseStep, Initial;
    forall i | 0 <= i < 15 ensures LooseStep(ws[i], steps[i], ws[i + 1]) {
      if i < 6 { ReuseStarts(i, f, mine, theirs); } else if i < 11 { ReuseFinishes(i, f, mine, theirs); } else { ReuseDelivers(i, f, mine, theirs); }
    }
    assert ws[15].log == [Delivery(f, 0, theirs)] && ws[15].cancelled == {0} && ws[15].place == [Delivered, Dropped] by { ReuseEnds(f, mine, theirs); }
  }

  lemma ReuseEnds<V>(f: Fid, mine: V, theirs: V)
    ensures var w := ReuseWorld(15, f, mine, theirs); w.log == [Delivery(f, 0, theirs)] && w.cancelled == {0} && w.place == [Delivered, Dropped]
  {
  }
}
