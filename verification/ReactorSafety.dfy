/** What the reactor promises over whole runs: every operation is in one place, its result
    reaches its own fiber once or is dropped with it, and no wake-up is lost. */
module ReactorSafety {
  import opened Wrappers
  import opened Reactor
  import opened ReactorRuns

  // ----- conservation -----

  ghost function Slips(slips: seq<Slip>, t: Ticket): nat { |set i | 0 <= i < |slips| && slips[i].ticket == t| }

  ghost function Held(workers: seq<Worker>, t: Ticket): nat {
    |set i | 0 <= i < |workers| && workers[i].Busy? && workers[i].job.work == t|
  }

  ghost function Stashed<V>(done: map<Fid, Answer<V>>, t: Ticket): nat { |set f | f in done && done[f].ticket == t| }

  /** How many copies of an operation or of its result exist anywhere in the system. */
  ghost function Copies<V>(w: World<V>, t: Ticket): nat {
    Slips(JobSlips(w.h.jobs), t) + Held(w.workers, t) + Slips(CompletionSlips(w.h.completions), t)
    + Stashed(w.h.done, t) + Slips(LogSlips(w.log), t)
  }

  lemma AtMostOne<T>(s: set<T>, x: T)
    requires forall y :: y in s ==> y == x
    ensures |s| == if x in s then 1 else 0
  {
    assert s == if x in s then {x} else {};
  }

  lemma SlipsHeld(slips: seq<Slip>, owner: seq<Fid>, place: seq<Place>, p: Place, t: Ticket)
    requires Holds(slips, owner, place, p) && t < |place|
    ensures Slips(slips, t) == if place[t] == p then 1 else 0
  {
    var s := set i | 0 <= i < |slips| && slips[i].ticket == t;
    if place[t] == p {
      var k :| 0 <= k < |slips| && slips[k] == Slip(owner[t], t);
      AtMostOne(s, k);
    } else {
      assert forall i :: 0 <= i < |slips| ==> Owns(slips[i], owner, place, p) && slips[i].ticket != t;
      assert s == {};
    }
  }

  lemma WorkersHeld(workers: seq<Worker>, owner: seq<Fid>, place: seq<Place>, t: Ticket)
    requires ReactorRuns.Works(workers, owner, place) && t < |place|
    ensures Held(workers, t) == if place[t] == Running then 1 else 0
  {
    var s := set i | 0 <= i < |workers| && workers[i].Busy? && workers[i].job.work == t;
    if place[t] == Running {
      var k :| 0 <= k < |workers| && workers[k] == Busy(Job(owner[t], t));
      AtMostOne(s, k);
    } else {
      assert s == {};
    }
  }

  lemma StashHeld<V>(done: map<Fid, Answer<V>>, owner: seq<Fid>, place: seq<Place>, t: Ticket)
    requires Stash(done, owner, place) && t < |place|
    ensures Stashed(done, t) == if place[t] == Place.Stashed then 1 else 0
  {
    var s := set f | f in done && done[f].ticket == t;
    assert forall f :: f in done ==> Owns(Slip(f, done[f].ticket), owner, place, Place.Stashed);
    if place[t] == Place.Stashed { AtMostOne(s, owner[t]); } else { assert s == {}; }
  }

  /** Every submitted operation exists once: queued, running, completed, stashed or
      delivered. Only a dropped one is gone, and only a cancelled one is ever dropped. */
  lemma EachOperationOnce<V>(w: World<V>, t: Ticket)
    requires Inv(w) && t < |w.owner|
    ensures t < |w.place| && Copies(w, t) == if w.place[t] == Dropped then 0 else 1
    ensures w.place[t] == Dropped ==> t in w.cancelled
  {
    hide Slips, Held, Stashed, Holds, Works, Stash, Values, Fibers, Sockets;
    InvLengths(w);
    SlipsHeld(JobSlips(w.h.jobs), w.owner, w.place, Queued, t);
    WorkersHeld(w.workers, w.owner, w.place, t);
    SlipsHeld(CompletionSlips(w.h.completions), w.owner, w.place, Completed, t);
    StashHeld(w.h.done, w.owner, w.place, t);
    SlipsHeld(LogSlips(w.log), w.owner, w.place, Delivered, t);
  }

  lemma InvLengths<V>(w: World<V>)
    requires Inv(w)
    ensures |w.owner| == |w.place|
  {
  }

  // ----- runs -----

  lemma InitialInv<V>(w: World<V>)
    requires Initial(w)
    ensures Inv(w)
  {
  }

  lemma {:induction false} RunKeeps<V(!new)>(ws: seq<World<V>>, i: nat)
    requires Run(ws) && i < |ws|
    ensures Inv(ws[i])
  {
    hide Inv, Initial, Enabled, After;
    if i == 0 {
      InitialInv(ws[0]);
    } else {
      RunKeeps(ws, i - 1);
      assert Steps(ws[i - 1], ws[i]);
      var step :| Enabled(ws[i - 1], step) && ws[i] == After(ws[i - 1], step);
      StepKeeps(ws[i - 1], step);
    }
  }

  lemma StepGrows<V>(w: World<V>, step: Step<V>)
    requires Enabled(w, step)
    ensures var w' := After(w, step); w.log <= w'.log && w.cancelled <= w'.cancelled && w.owner <= w'.owner
  {
  }

  lemma {:induction false} RunGrows<V(!new)>(ws: seq<World<V>>, i: nat, j: nat)
    requires Run(ws) && i <= j < |ws|
    ensures ws[i].log <= ws[j].log && ws[i].cancelled <= ws[j].cancelled && ws[i].owner <= ws[j].owner
  {
    hide Initial, Enabled, After;
    if i < j {
      RunGrows(ws, i, j - 1);
      assert Steps(ws[j - 1], ws[j]);
      var step :| Enabled(ws[j - 1], step) && ws[j] == After(ws[j - 1], step);
      StepGrows(ws[j - 1], step);
    }
  }

  /** A delivered result went to the fiber that asked for it, is the value its worker
      computed, is delivered once however long the run goes on, and was not cancelled. */
  lemma DeliveredOnceToItsFiber<V(!new)>(ws: seq<World<V>>, i: nat, j: nat, a: nat, b: nat)
    requires Run(ws) && i <= j < |ws| && a < |ws[i].log| && b < |ws[j].log|
    ensures var d := ws[i].log[a];
            && a < |ws[j].log| && ws[j].log[a] == d
            && d.ticket < |ws[j].owner| && ws[j].owner[d.ticket] == d.fid
            && d.ticket in ws[j].outcome && ws[j].outcome[d.ticket] == d.value
            && d.ticket !in ws[j].cancelled
            && (ws[j].log[b].ticket == d.ticket ==> a == b)
  {
    RunGrows(ws, i, j);
    RunKeeps(ws, j);
    LogMeans(ws[j], a, b);
  }

  lemma LogMeans<V>(w: World<V>, a: nat, b: nat)
    requires Inv(w) && a < |w.log| && b < |w.log|
    ensures var d := w.log[a];
            && d.ticket < |w.owner| && w.owner[d.ticket] == d.fid && d.ticket !in w.cancelled
            && Computed(w.outcome, Answer(d.ticket, d.value))
            && (w.log[b].ticket == d.ticket ==> a == b)
  {
    var slips := LogSlips(w.log);
    assert slips[a] == Slip(w.log[a].fid, w.log[a].ticket) && slips[b].ticket == w.log[b].ticket;
    assert Owns(slips[a], w.owner, w.place, Delivered);
  }

  /** Once cancelled, never delivered: not in the rest of the run. */
  lemma CancelledNeverDelivered<V(!new)>(ws: seq<World<V>>, i: nat, j: nat, t: Ticket, a: nat)
    requires Run(ws) && i <= j < |ws| && t in ws[i].cancelled && a < |ws[j].log|
    ensures ws[j].log[a].ticket != t
  {
    RunGrows(ws, i, j);
    DeliveredOnceToItsFiber(ws, j, j, a, a);
  }

  // ----- waking -----

  /** A fiber that `poll` returns for an offloaded call finds that call's own result when
      it repeats the call: it never submits it twice. */
  lemma WokenFiberCollects<V>(w: World<V>, fid: Fid)
    requires Inv(w) && w.h.ready != [] && w.h.ready[0] == fid && fid !in w.retired && fid in w.current
    requires w.phase == Draining ==> w.h.completions == []
    ensures var w' := Answered(w); var t := w.current[fid];
            && MayRun(w', fid) && fid in w'.h.done && t in w.outcome
            && Called(w', fid).log == w.log + [Delivery(fid, t, w.outcome[t])]
            && Called(w', fid).h.jobs == w.h.jobs
  {
  }

  lemma AMember<T>(s: set<T>) returns (f: T)
    requires s != {}
    ensures f in s
  {
    f :| f in s;
  }

  /** `poll` refuses to block only when no living fiber is parked on it. */
  lemma RefusesOnlyWhenIdle<V>(w: World<V>)
    requires Inv(w) && w.phase == Outside
    ensures After(w, BeginPoll).phase == Outside && Woken(w.h) == -1 <==> w.h.ready == [] && w.parked == {} && w.h.inflight == {}
  {
    hide Placed, Values, Operations, Sockets, NoLostWakeup;
    if w.h.ready != [] { assert w.h.ready[0] in w.h.ready; }
    if w.h.waits.Keys == {} {
      assert w.h.waits == map[];
      if w.h.ready == [] && w.h.inflight == {} {
        assert forall f :: f in w.parked ==> f in w.h.waits.Keys || f in w.h.inflight || f in w.h.ready;
        assert w.parked == {};
      }
    } else {
      var f := AMember(w.h.waits.Keys);
      assert f in w.parked;
    }
  }

  /** A reaped fiber that had not yet been readied is not woken again, unless its id is
      recycled: only a wake-up already buffered when it was reaped can still surface. */
  lemma OnlyBufferedWakesSurvive<V>(w: World<V>, step: Step<V>, fid: Fid)
    requires Inv(w) && Enabled(w, step) && fid in w.retired && step != Recycle(fid)
    ensures fid in After(w, step).retired && (fid in After(w, step).h.ready ==> fid in w.h.ready)
  {
    match step
    case WaitReturns(events) => EventsReadyParked(w.h.(notified := false), events, fid);
    case DrainNext => FrontCompletion(w);
    case _ =>
  }

  lemma {:induction false} EventsReadyParked<V>(h: Host<Ticket, Answer<V>>, events: seq<Fid>, fid: Fid)
    requires fid !in h.waits && fid !in h.ready
    ensures fid !in EventsSeen(h, events).ready
    decreases |events|
  {
    if events != [] { EventsReadyParked(EventSeen(h, events[0]), events[1..], fid); }
  }

  /** And one already buffered does surface: reaping leaves it where it was. */
  lemma BufferedWakeSurvives<V>(w: World<V>, fid: Fid)
    requires Inv(w) && w.phase == Outside && w.h.ready != [] && w.h.ready[0] == fid
    ensures fid in Cancelled(w, fid).retired && Woken(Cancelled(w, fid).h) == fid
  {
  }

  /** `poll` past its wait, with no other thread's step in between. */
  ghost function PollRest<V>(w: World<V>): World<V>
    requires w.phase == Draining
    decreases |w.h.completions|
  {
    if w.h.completions == [] then After(w, EndPoll) else PollRest(After(w, DrainNext))
  }

  /** The steps of an undisturbed poll leave the reactor as its method does. */
  lemma {:induction false} PollIsItsSteps<V>(w: World<V>)
    requires w.phase == Draining
    ensures PollRest(w).h == Popped(Drained(w.h))
    decreases |w.h.completions|
  {
    if w.h.completions != [] { PollIsItsSteps(After(w, DrainNext)); }
  }

  // ----- progress -----

  ghost predicate ByWorker<V>(step: Step<V>) { step.Take? || step.Finish? || step.Notify? }

  ghost function Load(worker: Worker): nat { if worker.Busy? then 2 else if worker == Pushed then 1 else 0 }

  ghost function Loads(workers: seq<Worker>): nat { if workers == [] then 0 else Load(workers[0]) + Loads(workers[1..]) }

  /** The worker steps still needed before every result is queued and notified. */
  ghost function WorkLeft<V>(w: World<V>): nat { 3 * |w.h.jobs| + Loads(w.workers) }

  lemma {:induction false} LoadsUpdate(workers: seq<Worker>, i: nat, x: Worker)
    requires i < |workers|
    ensures Loads(workers[i := x]) + Load(workers[i]) == Loads(workers) + Load(x)
  {
    if i > 0 {
      LoadsUpdate(workers[1..], i - 1, x);
      assert workers[i := x][1..] == workers[1..][i - 1 := x];
    } else {
      assert workers[i := x][1..] == workers[1..];
    }
  }

  /** A run of worker steps alone, and where it ends. */
  ghost predicate Schedule<V>(w: World<V>, steps: seq<Step<V>>)
    decreases |steps|
  {
    steps == [] || (ByWorker(steps[0]) && Enabled(w, steps[0]) && Schedule(After(w, steps[0]), steps[1..]))
  }

  ghost function Final<V>(w: World<V>, steps: seq<Step<V>>): World<V>
    requires Schedule(w, steps)
    decreases |steps|
  {
    if steps == [] then w else Final(After(w, steps[0]), steps[1..])
  }

  lemma WorkerStepCounts<V>(w: World<V>, step: Step<V>)
    requires Enabled(w, step) && ByWorker(step)
    ensures var w' := After(w, step);
            && WorkLeft(w') + 1 == WorkLeft(w) && w'.phase == w.phase && w'.h.inflight == w.h.inflight && |w'.workers| == |w.workers|
  {
    match step
    case Take(i, k) => LoadsUpdate(w.workers, i, Busy(w.h.jobs[k]));
    case Finish(i, _) => LoadsUpdate(w.workers, i, Pushed);
    case Notify(i) => LoadsUpdate(w.workers, i, Free);
  }

  lemma {:induction false} ScheduleCounts<V>(w: World<V>, steps: seq<Step<V>>)
    requires Inv(w) && Schedule(w, steps)
    ensures var w' := Final(w, steps);
            && Inv(w') && |steps| + WorkLeft(w') == WorkLeft(w) && w'.phase == w.phase && w'.h.inflight == w.h.inflight
            && |w'.workers| == |w.workers|
    decreases |steps|
  {
    hide Inv, Enabled, After, WorkLeft;
    if steps != [] {
      StepKeeps(w, steps[0]);
      WorkerStepCounts(w, steps[0]);
      ScheduleCounts(After(w, steps[0]), steps[1..]);
    }
  }

  /** A poll blocked on an operation is never stuck: it has been notified, or a worker has
      something to do. */
  lemma SomeoneCanMove<V>(w: World<V>, value: V) returns (step: Step<V>)
    requires Inv(w) && w.phase == Waiting && w.h.inflight != {} && |w.workers| > 0 && !w.h.notified
    ensures ByWorker(step) && Enabled(w, step)
  {
    hide Inv, Enabled, ByWorker;
    var f := AMember(w.h.inflight);
    var t := Unfinished(w, f);
    match w.place[t]
    case Queued =>
      var k := QueuedAt(w, t);
      step := AnyWorker(w, k, value);
    case Running =>
      var i := RunningAt(w, t);
      step := AnyBusy(w, i, value);
    case Completed => step := AnyPushed(w, t);
  }

  lemma Unfinished<V>(w: World<V>, fid: Fid) returns (t: Ticket)
    requires Inv(w) && fid in w.h.inflight
    ensures t < |w.place| && Flying(w.place[t])
  {
    t := w.current[fid];
  }

  lemma QueuedAt<V>(w: World<V>, t: Ticket) returns (k: nat)
    requires Inv(w) && t < |w.place| && w.place[t] == Queued
    ensures k < |w.h.jobs|
  {
    hide Works, Stash, Values, Operations, Fibers, Sockets;
    assert Slip(w.owner[t], t) in JobSlips(w.h.jobs);
    k := 0;
  }

  lemma RunningAt<V>(w: World<V>, t: Ticket) returns (i: nat)
    requires Inv(w) && t < |w.place| && w.place[t] == Running
    ensures i < |w.workers| && w.workers[i].Busy?
  {
    hide Holds, Stash, Values, Operations, Fibers, Sockets;
    i :| 0 <= i < |w.workers| && w.workers[i] == Busy(Job(w.owner[t], t));
  }

  lemma AnyBusy<V>(w: World<V>, i: nat, value: V) returns (step: Step<V>)
    requires Inv(w) && i < |w.workers| && w.workers[i].Busy?
    ensures ByWorker(step) && Enabled(w, step)
  {
    hide Holds, Stash, Values, Operations, Fibers, Sockets;
    step := Finish(i, value);
  }

  lemma AnyPushed<V>(w: World<V>, t: Ticket) returns (step: Step<V>)
    requires Inv(w) && t < |w.place| && w.place[t] == Completed && w.phase == Waiting && !w.h.notified
    ensures ByWorker(step) && Enabled(w, step)
  {
    hide Works, Stash, Values, Operations, Fibers, Sockets;
    assert Slip(w.owner[t], t) in CompletionSlips(w.h.completions);
    var i :| 0 <= i < |w.workers| && w.workers[i] == Pushed;
    step := Notify(i);
  }

  lemma AnyWorker<V>(w: World<V>, k: nat, value: V) returns (step: Step<V>)
    requires Inv(w) && |w.workers| > 0 && k < |w.h.jobs|
    ensures ByWorker(step) && Enabled(w, step)
  {
    match w.workers[0]
    case Free => step := Take(0, k);
    case Busy(_) => step := AnyBusy(w, 0, value);
    case Pushed => step := Notify(0);
  }

  /** However the workers are scheduled, a poll blocked on an operation is notified within
      `WorkLeft` of their steps. */
  lemma BlockedPollIsNotified<V(!new)>(w: World<V>, steps: seq<Step<V>>, value: V)
    requires Inv(w) && w.phase == Waiting && w.h.inflight != {} && |w.workers| > 0 && Schedule(w, steps)
    ensures |steps| <= WorkLeft(w)
    ensures (forall step :: ByWorker(step) ==> !Enabled(Final(w, steps), step)) ==> Final(w, steps).h.notified
  {
    ScheduleCounts(w, steps);
    var w' := Final(w, steps);
    if !w'.h.notified { var step := SomeoneCanMove(w', value); }
  }
}
