/** Why a reaped fiber's id may not be recycled before its operation and its wake-up are gone:
    from any state in which one of them is left, recycling the id can go wrong. */
module ReactorRecycling {
  import opened Wrappers
  import opened Reactor
  import opened ReactorRuns
  import opened ReactorSafety
  import opened ReactorWakes

  /** `steps` can be taken in turn from `w`, with ids recycled at any time, and end in `w'`. */
  ghost predicate Leads<V(!new)>(w: World<V>, steps: seq<Step<V>>, w': World<V>)
    decreases |steps|
  {
    if steps == [] then w' == w else Loose(w, steps[0]) && Leads(LooseAfter(w, steps[0]), steps[1..], w')
  }

  lemma {:induction false} LeadsOn<V(!new)>(w: World<V>, first: seq<Step<V>>, m: World<V>, second: seq<Step<V>>, w': World<V>)
    requires Leads(w, first, m) && Leads(m, second, w')
    ensures Leads(w, first + second, w')
    decreases |first|
  {
    hide Loose, LooseAfter;
    if first == [] {
      assert first + second == second;
    } else {
      assert (first + second)[1..] == first[1..] + second;
      LeadsOn(LooseAfter(w, first[0]), first[1..], m, second, w');
    }
  }

  lemma LeadsOne<V(!new)>(w: World<V>, step: Step<V>)
    requires Loose(w, step)
    ensures Leads(w, [step], LooseAfter(w, step))
  {
    hide Loose, LooseAfter;
    var rest := [step][1..];
    assert rest == [] && Leads(LooseAfter(w, step), rest, LooseAfter(w, step));
  }

  /** A cancelled operation's result has been handed to a fiber. */
  ghost predicate DeliversCancelled<V(!new)>(w: World<V>) {
    exists i :: 0 <= i < |w.log| && w.log[i].ticket in w.cancelled
  }

  /** A fiber has two operations queued at once: its one call was submitted twice. */
  ghost predicate SubmitsTwice<V(!new)>(w: World<V>, t: Ticket, u: Ticket) {
    && t < u < |w.owner| == |w.place| && w.owner[t] == w.owner[u] && w.place[t] == Queued && w.place[u] == Queued
    && t !in w.cancelled && u !in w.cancelled
  }

  /** With the rule kept, neither happens in any run. */
  lemma KeptRuleIsSafe<V(!new)>(ws: seq<World<V>>, i: nat, t: Ticket, u: Ticket)
    requires Run(ws) && i < |ws|
    ensures !DeliversCancelled(ws[i]) && !SubmitsTwice(ws[i], t, u)
  {
    RunKeeps(ws, i);
    forall a | 0 <= a < |ws[i].log| ensures ws[i].log[a].ticket !in ws[i].cancelled { DeliveredOnceToItsFiber(ws, i, i, a, a); }
    OneLiveOperation(ws[i], t, u);
  }

  lemma OneLiveOperation<V(!new)>(w: World<V>, t: Ticket, u: Ticket)
    requires Inv(w)
    ensures !SubmitsTwice(w, t, u)
  {
    hide Placed, Values, Fibers, Sockets;
  }

  // ----- a wake-up is left -----

  /** Returning buffered fibers one by one, up to the first that is `fid`. */
  lemma {:induction false} PopsUpTo<V(!new)>(w: World<V>, fid: Fid) returns (steps: seq<Step<V>>, w': World<V>)
    requires w.phase == Outside && fid in w.h.ready
    ensures Leads(w, steps, w') && w'.phase == Outside && fid !in w'.parked
    ensures w' == w.(h := w.h.(ready := w'.h.ready), parked := w'.parked)
    decreases |w.h.ready|
  {
    var m := LooseAfter(w, BeginPoll);
    LeadsOne(w, BeginPoll);
    if w.h.ready[0] == fid {
      steps, w' := [BeginPoll], m;
    } else {
      assert fid in m.h.ready;
      var more;
      more, w' := PopsUpTo(m, fid);
      steps := [BeginPoll] + more;
      LeadsOn(w, [BeginPoll], m, more, w');
    }
  }

  /** The fiber that got the id is woken by its predecessor's wake-up, finds no result, and
      submits its operation again. */
  lemma LeftWakeSubmitsTwice<V(!new)>(w: World<V>, fid: Fid) returns (steps: seq<Step<V>>, w': World<V>)
    requires Inv(w) && w.phase == Outside && fid in w.retired && fid in w.h.ready
    ensures steps != [] && steps[0] == Recycle(fid) && Leads(w, steps, w')
    ensures SubmitsTwice(w', |w.owner|, |w.owner| + 1)
  {
    RetiredIsIdle(w, fid);
    var w1 := LooseAfter(w, Recycle(fid));
    LeadsOne(w, Recycle(fid));
    var w2 := LooseAfter(w1, CallOp(fid));
    LeadsOne(w1, CallOp(fid));
    assert w2 == w1.(h := Submitted(w1.h, fid, |w.owner|), owner := w.owner + [fid], place := w.place + [Queued],
                     current := w1.current[fid := |w.owner|], parked := w1.parked + {fid});
    var pops, w3 := PopsUpTo(w2, fid);
    w' := LooseAfter(w3, CallOp(fid));
    LeadsOne(w3, CallOp(fid));
    LeadsOn(w2, pops, w3, [CallOp(fid)], w');
    LeadsOn(w1, [CallOp(fid)], w2, pops + [CallOp(fid)], w');
    steps := [Recycle(fid)] + ([CallOp(fid)] + (pops + [CallOp(fid)]));
    LeadsOn(w, [Recycle(fid)], w1, [CallOp(fid)] + (pops + [CallOp(fid)]), w');
  }

  lemma RetiredIsIdle<V(!new)>(w: World<V>, fid: Fid)
    requires Inv(w) && fid in w.retired
    ensures fid >= 0 && fid !in w.parked && fid !in w.h.done && fid !in w.h.waits && |w.owner| == |w.place|
    ensures forall t :: t in w.cancelled ==> t < |w.owner|
    ensures fid in w.h.inflight ==> fid in w.h.discarded && fid in w.current && w.current[fid] in w.cancelled && w.current[fid] < |w.place|
                                    && Flying(w.place[w.current[fid]]) && w.owner[w.current[fid]] == fid
  {
    hide Placed, Values, Sockets;
  }

  // ----- an operation is left -----

  /** The completions of a fiber id, in the order they arrived. */
  ghost function Mine<R(!new)>(cs: seq<Completion<R>>, fid: Fid): (r: seq<Completion<R>>)
    ensures |r| <= |cs| && forall c :: c in r <==> c in cs && c.fid == fid
  {
    if cs == [] then [] else
      assert forall c :: c in cs <==> c == cs[0] || c in cs[1..];
      var rest := Mine(cs[1..], fid);
      if cs[0].fid == fid then [cs[0]] + rest else rest
  }

  lemma {:induction false} MineConcat<R(!new)>(cs: seq<Completion<R>>, ds: seq<Completion<R>>, fid: Fid)
    ensures Mine(cs + ds, fid) == Mine(cs, fid) + Mine(ds, fid)
  {
    if cs == [] {
      assert cs + ds == ds;
    } else {
      assert (cs + ds)[1..] == cs[1..] + ds;
      MineConcat(cs[1..], ds, fid);
    }
  }

  /** The id belongs to a living fiber while an operation of a reaped one is still marked to be
      discarded, and everything that runs or has run under it is cancelled. */
  ghost predicate Doubled<V(!new)>(w: World<V>, fid: Fid) {
    && w.phase == Outside && fid >= 0 && fid !in w.retired && fid in w.h.inflight && fid in w.h.discarded && fid !in w.h.done
    && |w.workers| > 0
    && (forall i :: 0 <= i < |w.workers| && w.workers[i].Busy? ==>
          w.workers[i].job.work < |w.place| && (w.workers[i].job.fid == fid ==> w.workers[i].job.work in w.cancelled))
    && (forall i :: 0 <= i < |w.h.jobs| ==> w.h.jobs[i].work < |w.place|)
    && (forall c :: c in Mine(w.h.completions, fid) ==> c.result.ticket in w.cancelled)
  }

  /** What finishing work does not change. */
  ghost predicate Onward<V(!new)>(w: World<V>, w': World<V>, fid: Fid) {
    && Doubled(w', fid) && w'.cancelled == w.cancelled
    && |Mine(w'.h.completions, fid)| >= |Mine(w.h.completions, fid)|
  }

  /** A busy worker finishes and notifies. */
  lemma Finishes<V(!new)>(w: World<V>, fid: Fid, i: nat, value: V) returns (steps: seq<Step<V>>, w': World<V>)
    requires Doubled(w, fid) && i < |w.workers| && w.workers[i].Busy?
    ensures Leads(w, steps, w') && Onward(w, w', fid) && i < |w'.workers| && w'.workers[i] == Free && w'.h.jobs == w.h.jobs
    ensures w.workers[i].job.fid == fid ==> |Mine(w'.h.completions, fid)| > |Mine(w.h.completions, fid)|
  {
    var job := w.workers[i].job;
    var c := Completion(job.fid, Answer(job.work, value));
    var m := LooseAfter(w, Finish(i, value));
    LeadsOne(w, Finish(i, value));
    w' := LooseAfter(m, Notify(i));
    LeadsOne(m, Notify(i));
    LeadsOn(w, [Finish(i, value)], m, [Notify(i)], w');
    steps := [Finish(i, value)] + [Notify(i)];
    MineConcat(w.h.completions, [c], fid);
    assert [c][1..] == [];
    assert w'.h.completions == w.h.completions + [c];
  }

  lemma Freed<V(!new)>(w: World<V>, fid: Fid, value: V) returns (steps: seq<Step<V>>, w': World<V>)
    requires Doubled(w, fid)
    ensures Leads(w, steps, w') && Onward(w, w', fid) && |w'.workers| > 0 && w'.workers[0] == Free && w'.h.jobs == w.h.jobs
  {
    match w.workers[0]
    case Free => steps, w' := [], w;
    case Busy(_) => steps, w' := Finishes(w, fid, 0, value);
    case Pushed =>
      steps, w' := [Notify(0)], LooseAfter(w, Notify(0));
      LeadsOne(w, Notify(0));
  }

  lemma Takes<V(!new)>(w: World<V>, fid: Fid, k: nat) returns (w': World<V>)
    requires Doubled(w, fid) && k < |w.h.jobs| && w.workers[0] == Free && (w.h.jobs[k].fid == fid ==> w.h.jobs[k].work in w.cancelled)
    ensures Leads(w, [Take(0, k)], w') && Onward(w, w', fid) && |w'.workers| > 0 && w'.workers[0] == Busy(w.h.jobs[k])
    ensures w'.h.completions == w.h.completions && w'.h.jobs == w.h.jobs[..k] + w.h.jobs[k + 1..]
  {
    w' := LooseAfter(w, Take(0, k));
    LeadsOne(w, Take(0, k));
  }

  lemma OthersStay<T>(xs: seq<T>, k: nat)
    requires k < |xs|
    ensures forall x :: x in xs && x != xs[k] ==> x in xs[..k] + xs[k + 1..]
  {
    forall x | x in xs && x != xs[k] ensures x in xs[..k] + xs[k + 1..] {
      var i :| 0 <= i < |xs| && xs[i] == x;
      assert (xs[..k] + xs[k + 1..])[if i < k then i else i - 1] == x;
    }
  }

  /** A queued, cancelled operation of the id is taken and finished. */
  lemma RunsQueued<V(!new)>(w: World<V>, fid: Fid, t: Ticket, value: V) returns (steps: seq<Step<V>>, w': World<V>)
    requires Doubled(w, fid) && Job(fid, t) in w.h.jobs && t in w.cancelled
    ensures Leads(w, steps, w') && Onward(w, w', fid) && |Mine(w'.h.completions, fid)| > |Mine(w.h.completions, fid)|
    ensures forall u :: u != t && Job(fid, u) in w.h.jobs ==> Job(fid, u) in w'.h.jobs
  {
    hide Loose, LooseAfter, Leads, Doubled, Mine;
    var free, w1 := Freed(w, fid, value);
    var k :| 0 <= k < |w1.h.jobs| && w1.h.jobs[k] == Job(fid, t);
    var w2 := Takes(w1, fid, k);
    OthersStay(w1.h.jobs, k);
    var finish;
    finish, w' := Finishes(w2, fid, 0, value);
    LeadsOn(w1, [Take(0, k)], w2, finish, w');
    LeadsOn(w, free, w1, [Take(0, k)] + finish, w');
    steps := free + ([Take(0, k)] + finish);
  }

  // ----- draining -----

  lemma {:induction false} PopsAll<V(!new)>(w: World<V>) returns (steps: seq<Step<V>>, w': World<V>)
    requires w.phase == Outside
    ensures Leads(w, steps, w') && w' == w.(h := w.h.(ready := []), parked := w'.parked)
    decreases |w.h.ready|
  {
    if w.h.ready == [] {
      steps, w' := [], w;
    } else {
      var m := LooseAfter(w, BeginPoll);
      LeadsOne(w, BeginPoll);
      var more;
      more, w' := PopsAll(m);
      steps := [BeginPoll] + more;
      LeadsOn(w, [BeginPoll], m, more, w');
    }
  }

  /** Whether the id's next completion is dropped, and what it will be left with: the first
      one is dropped if it is marked, and the last one stays. */
  ghost predicate Awaits<V(!new)>(h: Host<Ticket, Answer<V>>, cancelled: set<Ticket>, fid: Fid) {
    var mine := Mine(h.completions, fid);
    && (forall c :: c in mine ==> c.result.ticket in cancelled)
    && (if fid in h.discarded then |mine| >= 2
        else mine != [] || (fid in h.ready && fid in h.done && h.done[fid].ticket in cancelled))
  }

  lemma AwaitsNext<V(!new)>(h: Host<Ticket, Answer<V>>, cancelled: set<Ticket>, fid: Fid)
    requires h.completions != [] && Awaits(h, cancelled, fid)
    ensures Awaits(DrainedOne(h), cancelled, fid)
  {
    var c, rest := h.completions[0], Mine(h.completions[1..], fid);
    assert Mine(h.completions, fid) == if c.fid == fid then [c] + rest else rest;
    assert forall d :: d in rest ==> d in Mine(h.completions, fid);
    hide Mine;
    assert c.fid == fid ==> Mine(h.completions, fid)[0] == c;
    if c.fid !in h.discarded { assert DrainedOne(h).ready == h.ready + [c.fid] && (h.ready + [c.fid])[|h.ready|] == c.fid; }
  }

  lemma AwaitsStep<V(!new)>(w: World<V>, fid: Fid)
    requires w.phase == Draining && w.h.completions != [] && Awaits(w.h, w.cancelled, fid)
    ensures Loose(w, DrainNext)
    ensures var w' := LooseAfter(w, DrainNext);
            && w'.phase == Draining && Awaits(w'.h, w'.cancelled, fid) && w'.retired == w.retired && w'.cancelled == w.cancelled
            && |w'.h.completions| < |w.h.completions|
  {
    AwaitsNext(w.h, w.cancelled, fid);
    hide Awaits, Mine;
  }

  lemma {:induction false} Drains<V(!new)>(w: World<V>, fid: Fid) returns (steps: seq<Step<V>>, w': World<V>)
    requires w.phase == Draining && Awaits(w.h, w.cancelled, fid)
    ensures Leads(w, steps, w') && w'.phase == Draining && w'.h.completions == [] && Awaits(w'.h, w'.cancelled, fid)
    ensures w'.retired == w.retired && w'.cancelled == w.cancelled
    decreases |w.h.completions|
  {
    hide Awaits, Loose, LooseAfter;
    if w.h.completions == [] {
      steps, w' := [], w;
    } else {
      AwaitsStep(w, fid);
      var m := LooseAfter(w, DrainNext);
      LeadsOne(w, DrainNext);
      var more;
      more, w' := Drains(m, fid);
      steps := [DrainNext] + more;
      LeadsOn(w, [DrainNext], m, more, w');
    }
  }

  /** `poll` returns the fiber, which collects the result that is stashed for it. */
  lemma Collects<V(!new)>(w: World<V>, fid: Fid) returns (steps: seq<Step<V>>, w': World<V>)
    requires w.phase == Draining && w.h.completions == [] && Awaits(w.h, w.cancelled, fid) && fid >= 0 && fid !in w.retired
    ensures Leads(w, steps, w') && DeliversCancelled(w')
  {
    var w1 := LooseAfter(w, EndPoll);
    LeadsOne(w, EndPoll);
    var pops, w2;
    if w.h.ready[0] == fid { pops, w2 := [], w1; } else { assert fid in w1.h.ready; pops, w2 := PopsUpTo(w1, fid); }
    w' := LooseAfter(w2, CallOp(fid));
    LeadsOne(w2, CallOp(fid));
    LeadsOn(w1, pops, w2, [CallOp(fid)], w');
    LeadsOn(w, [EndPoll], w1, pops + [CallOp(fid)], w');
    steps := [EndPoll] + (pops + [CallOp(fid)]);
    assert w'.log[|w.log|].ticket in w'.cancelled;
  }

  /** Two completions under one discard mark: the second is delivered. */
  lemma TwoCompletionsDeliver<V(!new)>(w: World<V>, fid: Fid) returns (steps: seq<Step<V>>, w': World<V>)
    requires Doubled(w, fid) && |Mine(w.h.completions, fid)| >= 2
    ensures Leads(w, steps, w') && DeliversCancelled(w')
  {
    var pops, w1 := PopsAll(w);
    var w2 := LooseAfter(w1, BeginPoll);
    LeadsOne(w1, BeginPoll);
    assert w2.phase == Waiting;
    var none: seq<Fid> := [];
    var w3 := LooseAfter(w2, WaitReturns(none));
    LeadsOne(w2, WaitReturns(none));
    assert w3.h == w2.h.(notified := false);
    var drains, w4 := Drains(w3, fid);
    var last;
    last, w' := Collects(w4, fid);
    LeadsOn(w3, drains, w4, last, w');
    LeadsOn(w2, [WaitReturns(none)], w3, drains + last, w');
    LeadsOn(w1, [BeginPoll], w2, [WaitReturns(none)] + (drains + last), w');
    LeadsOn(w, pops, w1, [BeginPoll] + ([WaitReturns(none)] + (drains + last)), w');
    steps := pops + ([BeginPoll] + ([WaitReturns(none)] + (drains + last)));
  }

  /** A recycled id and the new fiber's call. */
  lemma Reuses<V(!new)>(w: World<V>, fid: Fid) returns (w': World<V>)
    requires w.phase == Outside && fid >= 0 && fid in w.retired && fid !in w.parked && fid !in w.h.done
    ensures Leads(w, [Recycle(fid)] + [CallOp(fid)], w')
    ensures w' == w.(retired := w.retired - {fid}, h := Submitted(w.h, fid, |w.owner|), owner := w.owner + [fid], place := w.place + [Queued],
                     current := w.current[fid := |w.owner|], parked := w.parked + {fid})
  {
    var m := LooseAfter(w, Recycle(fid));
    LeadsOne(w, Recycle(fid));
    w' := LooseAfter(m, CallOp(fid));
    LeadsOne(m, CallOp(fid));
    LeadsOn(w, [Recycle(fid)], m, [CallOp(fid)], w');
  }

  lemma Reaps<V(!new)>(w: World<V>, fid: Fid, t: Ticket) returns (w': World<V>)
    requires w.phase == Outside && fid >= 0 && fid !in w.h.waits && fid in w.h.inflight && fid !in w.h.done
    requires fid in w.current && w.current[fid] == t
    ensures Leads(w, [Cancel(fid)], w')
    ensures w' == w.(h := w.h.(discarded := w.h.discarded + {fid}), parked := w.parked - {fid}, retired := w.retired + {fid}, cancelled := w.cancelled + {t})
  {
    w' := LooseAfter(w, Cancel(fid));
    LeadsOne(w, Cancel(fid));
  }

  /** The id is recycled, its new fiber calls and is reaped in turn, and the id is recycled once
      more: one discard mark now stands for two operations. */
  lemma ReapsTwice<V(!new)>(w: World<V>, fid: Fid) returns (steps: seq<Step<V>>, w': World<V>)
    requires Inv(w) && w.phase == Outside && fid in w.retired && fid in w.h.inflight && |w.workers| > 0
    ensures steps != [] && steps[0] == Recycle(fid) && Leads(w, steps, w') && Doubled(w', fid)
    ensures w'.workers == w.workers && w'.h.completions == w.h.completions && fid in w.current && w.current[fid] in w'.cancelled && |w.owner| in w'.cancelled
    ensures (forall i :: 0 <= i < |w.h.jobs| ==> w.h.jobs[i] in w'.h.jobs) && Job(fid, |w.owner|) in w'.h.jobs
  {
    RetiredIsIdle(w, fid);
    NothingElseRuns(w, fid);
    hide Inv, Leads;
    var t := |w.owner|;
    var w2 := Reuses(w, fid);
    var w3 := Reaps(w2, fid, t);
    w' := Reuses(w3, fid);
    var s := [Recycle(fid)] + [CallOp(fid)];
    LeadsOn(w2, [Cancel(fid)], w3, s, w');
    LeadsOn(w, s, w2, [Cancel(fid)] + s, w');
    steps := s + ([Cancel(fid)] + s);
    assert w'.h.jobs == (w.h.jobs + [Job(fid, t)]) + [Job(fid, t + 1)];
    assert w'.h.jobs[|w.h.jobs|] == Job(fid, t);
    forall i | 0 <= i < |w.h.jobs| ensures w.h.jobs[i] in w'.h.jobs { assert w'.h.jobs[i] == w.h.jobs[i]; }
    assert w'.place == w.place + [Queued] + [Queued];
  }

  /** Of a fiber's operations only its unfinished one is anywhere in the system. */
  lemma NothingElseRuns<V(!new)>(w: World<V>, fid: Fid)
    requires Inv(w) && fid in w.h.inflight
    ensures fid in w.current && |w.owner| == |w.place|
    ensures forall i :: 0 <= i < |w.workers| && w.workers[i].Busy? ==>
              w.workers[i].job.work < |w.place| && (w.workers[i].job.fid == fid ==> w.workers[i].job.work == w.current[fid])
    ensures forall i :: 0 <= i < |w.h.jobs| ==> w.h.jobs[i].work < |w.place|
    ensures forall c :: c in Mine(w.h.completions, fid) ==> c.result.ticket == w.current[fid]
  {
    forall i | 0 <= i < |w.h.jobs| ensures w.h.jobs[i].work < |w.place| {
      assert Owns(JobSlips(w.h.jobs)[i], w.owner, w.place, Queued);
    }
    forall c | c in Mine(w.h.completions, fid) ensures c.result.ticket == w.current[fid] {
      var i :| 0 <= i < |w.h.completions| && w.h.completions[i] == c;
      assert Owns(CompletionSlips(w.h.completions)[i], w.owner, w.place, Completed);
    }
    forall i | 0 <= i < |w.workers| && w.workers[i].Busy?
      ensures w.workers[i].job.work < |w.place| && (w.workers[i].job.fid == fid ==> w.workers[i].job.work == w.current[fid])
    {
      assert Owns(Slip(w.workers[i].job.fid, w.workers[i].job.work), w.owner, w.place, Running);
    }
  }

  /** The unfinished operation is brought to its completion, if it is not there yet. */
  lemma Completes<V(!new)>(w: World<V>, w1: World<V>, fid: Fid, value: V) returns (steps: seq<Step<V>>, w': World<V>)
    requires Inv(w) && fid in w.h.inflight && fid in w.current && Doubled(w1, fid)
    requires w1.workers == w.workers && w1.h.completions == w.h.completions && w.current[fid] in w1.cancelled
    requires forall i :: 0 <= i < |w.h.jobs| ==> w.h.jobs[i] in w1.h.jobs
    ensures Leads(w1, steps, w') && Doubled(w', fid) && w'.cancelled == w1.cancelled && |Mine(w'.h.completions, fid)| >= 1
    ensures forall u :: u != w.current[fid] && Job(fid, u) in w1.h.jobs ==> Job(fid, u) in w'.h.jobs
  {
    var t := w.current[fid];
    UnfinishedIs(w, fid);
    match w.place[t]
    case Queued => steps, w' := RunsQueued(w1, fid, t, value);
    case Running =>
      var i :| 0 <= i < |w.workers| && w.workers[i] == Busy(Job(fid, t));
      steps, w' := Finishes(w1, fid, i, value);
    case Completed =>
      steps, w' := [], w1;
      var c :| c in w.h.completions && c.fid == fid;
      assert c in Mine(w.h.completions, fid);
  }

  lemma UnfinishedIs<V(!new)>(w: World<V>, fid: Fid)
    requires Inv(w) && fid in w.h.inflight
    ensures fid in w.current && w.current[fid] < |w.place|
    ensures match w.place[w.current[fid]]
            case Queued => exists i :: 0 <= i < |w.h.jobs| && w.h.jobs[i] == Job(fid, w.current[fid])
            case Running => Busy(Job(fid, w.current[fid])) in w.workers
            case Completed => exists c :: c in w.h.completions && c.fid == fid
            case _ => false
  {
    var t := w.current[fid];
    if w.place[t] == Queued {
      var i :| 0 <= i < |w.h.jobs| && JobSlips(w.h.jobs)[i] == Slip(w.owner[t], t);
      assert w.h.jobs[i] == Job(fid, t);
    } else if w.place[t] == Completed {
      var i :| 0 <= i < |w.h.completions| && CompletionSlips(w.h.completions)[i] == Slip(w.owner[t], t);
      assert w.h.completions[i] in w.h.completions;
    }
  }

  lemma LeftOperationIsDelivered<V(!new)>(w: World<V>, fid: Fid, value: V) returns (steps: seq<Step<V>>, w': World<V>)
    requires Inv(w) && w.phase == Outside && fid in w.retired && fid in w.h.inflight && |w.workers| > 0
    ensures steps != [] && steps[0] == Recycle(fid) && Leads(w, steps, w') && DeliversCancelled(w')
  {
    RetiredIsIdle(w, fid);
    var reaps, w1 := ReapsTwice(w, fid);
    var one, w2 := Completes(w, w1, fid, value);
    var two, w3 := RunsQueued(w2, fid, |w.owner|, value);
    var last;
    last, w' := TwoCompletionsDeliver(w3, fid);
    LeadsOn(w2, two, w3, last, w');
    LeadsOn(w1, one, w2, two + last, w');
    LeadsOn(w, reaps, w1, one + (two + last), w');
    steps := reaps + (one + (two + last));
  }

  /** From every state of a run, to recycle the id of a reaped fiber whose operation is still in
      flight, or whose wake-up is still buffered, can lead to a cancelled result delivered or a
      call submitted twice. */
  lemma EarlyRecyclingGoesWrong<V(!new)>(ws: seq<World<V>>, i: nat, fid: Fid, value: V) returns (steps: seq<Step<V>>, w': World<V>)
    requires Run(ws) && i < |ws| && ws[i].phase == Outside && fid in ws[i].retired && |ws[i].workers| > 0
    requires !Enabled(ws[i], Recycle(fid))
    ensures steps != [] && steps[0] == Recycle(fid) && Leads(ws[i], steps, w')
    ensures DeliversCancelled(w') || exists t, u :: SubmitsTwice(w', t, u)
  {
    RunKeeps(ws, i);
    if fid in ws[i].h.ready {
      steps, w' := LeftWakeSubmitsTwice(ws[i], fid);
    } else {
      steps, w' := LeftOperationIsDelivered(ws[i], fid, value);
    }
  }
}
