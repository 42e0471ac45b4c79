/** Whole runs of the reactor protocol: the scheduler thread, which runs fibers and polls,
    interleaved step by step with any number of worker threads. Every operation carries a
    ticket, which the reactor itself never looks at, to follow it from start to end. */
module ReactorRuns {
  import opened Wrappers
  import opened Reactor

  type Ticket = nat

  datatype Answer<+V> = Answer(ticket: Ticket, value: V)

  /** A worker holds a job, or has queued its result and not yet notified the poller. */
  datatype Worker = Free | Busy(job: Job<Ticket>) | Pushed

  /** Where the scheduler thread is: running fibers, blocked inside `poll`, or past the
      wait and emptying the completion queue. */
  datatype Phase = Outside | Waiting | Draining

  datatype Place = Queued | Running | Completed | Stashed | Delivered | Dropped

  datatype Delivery<+V> = Delivery(fid: Fid, ticket: Ticket, value: V)

  /** `h`, `workers` and `phase` are the system. The rest is a record of the run: which
      fiber asked for each ticket, where its operation is, what its worker computed, each
      fiber's unfinished operation, the parked and the cancelled fibers, the operations
      abandoned with them, and every result handed to a fiber. */
  datatype World<V> = World(
    h: Host<Ticket, Answer<V>>, workers: seq<Worker>, phase: Phase,
    owner: seq<Fid>, place: seq<Place>, outcome: map<Ticket, V>, current: map<Fid, Ticket>,
    parked: set<Fid>, retired: set<Fid>, cancelled: set<Ticket>, log: seq<Delivery<V>>)

  datatype Step<V> =
    | CallOp(fid: Fid)                        // a fiber's offloaded call: collect, or submit and park
    | ParkOnSocket(fid: Fid, fd: Fd)          // a fiber's socket call that would block
    | Cancel(fid: Fid)                        // the scheduler reaps a fiber
    | Recycle(fid: Fid)                       // a reaped fiber's id is given to a new fiber
    | BeginPoll | WaitFails | WaitReturns(events: seq<Fid>) | DrainNext | EndPoll
    | Take(worker: nat, index: nat) | Finish(worker: nat, value: V) | Notify(worker: nat)

  ghost predicate MayRun<V>(w: World<V>, fid: Fid) {
    w.phase == Outside && fid >= 0 && fid !in w.parked && fid !in w.retired
  }

  /** A parked fiber does not run until `poll` returns it, a reaped one never again; a
      woken fiber first repeats the call it was parked on. A reaped fiber's id is reused
      only once its operation and any wake-up meant for it are gone. */
  ghost predicate Enabled<V>(w: World<V>, step: Step<V>) {
    match step
    case CallOp(fid) => MayRun(w, fid)
    case ParkOnSocket(fid, fd) => MayRun(w, fid) && fid !in w.h.done && fd !in w.h.watched
    case Cancel(fid) => w.phase == Outside && fid >= 0
    case Recycle(fid) => w.phase == Outside && fid in w.retired && fid !in w.h.inflight && fid !in w.h.ready
    case BeginPoll => w.phase == Outside
    case WaitFails => w.phase == Waiting
    case WaitReturns(_) => w.phase == Waiting
    case DrainNext => w.phase == Draining && w.h.completions != []
    case EndPoll => w.phase == Draining && w.h.completions == []
    case Take(i, k) => i < |w.workers| && w.workers[i] == Free && k < |w.h.jobs|
    case Finish(i, _) => i < |w.workers| && w.workers[i].Busy? && w.workers[i].job.work < |w.place|
    case Notify(i) => i < |w.workers| && w.workers[i] == Pushed
  }

  ghost function Called<V>(w: World<V>, fid: Fid): World<V> {
    if fid in w.h.done then
      var a := w.h.done[fid];
      w.(h := Collected(w.h, fid), place := SetPlace(w.place, a.ticket, Delivered),
         current := w.current - {fid}, log := w.log + [Delivery(fid, a.ticket, a.value)])
    else
      w.(h := Submitted(w.h, fid, |w.owner|), owner := w.owner + [fid], place := w.place + [Queued],
         current := w.current[fid := |w.owner|], parked := w.parked + {fid})
  }

  ghost function Cancelled<V>(w: World<V>, fid: Fid): World<V> {
    var w' := w.(h := Unwatched(w.h, fid), parked := w.parked - {fid}, retired := w.retired + {fid});
    if fid !in w.current then w'
    else
      var t := w.current[fid];
      var w'' := w'.(cancelled := w.cancelled + {t});
      if fid in w.h.done then w''.(place := SetPlace(w.place, t, Dropped), current := w.current - {fid}) else w''
  }

  /** The fiber `poll` returns is no longer parked. */
  ghost function Answered<V>(w: World<V>): World<V> {
    w.(h := Popped(w.h), parked := w.parked - {Woken(w.h)}, phase := Outside)
  }

  ghost function DrainedNext<V>(w: World<V>): World<V>
    requires w.h.completions != []
  {
    var c := w.h.completions[0];
    var w' := w.(h := DrainedOne(w.h));
    if c.fid in w.h.discarded then w'.(place := SetPlace(w.place, c.result.ticket, Dropped), current := w.current - {c.fid})
    else w'.(place := SetPlace(w.place, c.result.ticket, Stashed))
  }

  ghost function SetPlace(place: seq<Place>, t: Ticket, p: Place): seq<Place> {
    if t < |place| then place[t := p] else place
  }

  ghost function After<V>(w: World<V>, step: Step<V>): World<V>
    requires Enabled(w, step)
  {
    match step
    case CallOp(fid) => Called(w, fid)
    case ParkOnSocket(fid, fd) => w.(h := Registered(w.h, fid, fd), parked := w.parked + {fid})
    case Cancel(fid) => Cancelled(w, fid)
    case Recycle(fid) => w.(retired := w.retired - {fid})
    case BeginPoll =>
      if w.h.ready == [] && (w.h.waits != map[] || w.h.inflight != {}) then w.(phase := Waiting) else Answered(w)
    case WaitFails => w.(phase := Outside)
    case WaitReturns(events) => w.(h := EventsSeen(w.h.(notified := false), events), phase := Draining)
    case DrainNext => DrainedNext(w)
    case EndPoll => Answered(w)
    case Take(i, k) =>
      var job := w.h.jobs[k];
      w.(h := w.h.(jobs := w.h.jobs[..k] + w.h.jobs[k + 1..]), workers := w.workers[i := Busy(job)],
         place := SetPlace(w.place, job.work, Running))
    case Finish(i, value) =>
      var job := w.workers[i].job;
      w.(h := w.h.(completions := w.h.completions + [Completion(job.fid, Answer(job.work, value))]),
         workers := w.workers[i := Pushed], place := SetPlace(w.place, job.work, Completed),
         outcome := w.outcome[job.work := value])
    case Notify(i) => w.(h := w.h.(notified := true), workers := w.workers[i := Free])
  }

  ghost predicate Initial<V>(w: World<V>) {
    && w.h == Host(map[], {}, [], [], map[], {}, {}, [], false)
    && (forall i :: 0 <= i < |w.workers| ==> w.workers[i] == Free)
    && w.phase == Outside && w.owner == [] && w.place == [] && w.outcome == map[] && w.current == map[]
    && w.parked == {} && w.retired == {} && w.cancelled == {} && w.log == []
  }

  /** `ws` is a run: its first state is initial and each next one is a step away. */
  ghost predicate Run<V(!new)>(ws: seq<World<V>>) {
    |ws| > 0 && Initial(ws[0]) && forall i :: 0 <= i < |ws| - 1 ==> Steps(ws[i], ws[i + 1])
  }

  ghost predicate Steps<V(!new)>(w: World<V>, w': World<V>) {
    exists step :: Enabled(w, step) && w' == After(w, step)
  }

  // ----- the invariant -----

  datatype Slip = Slip(fid: Fid, ticket: Ticket)

  ghost function JobSlips(jobs: seq<Job<Ticket>>): (s: seq<Slip>)
    ensures |s| == |jobs|
  {
    seq(|jobs|, i requires 0 <= i < |jobs| => Slip(jobs[i].fid, jobs[i].work))
  }

  ghost function CompletionSlips<V>(cs: seq<Completion<Answer<V>>>): (s: seq<Slip>)
    ensures |s| == |cs|
  {
    seq(|cs|, i requires 0 <= i < |cs| => Slip(cs[i].fid, cs[i].result.ticket))
  }

  ghost function LogSlips<V>(log: seq<Delivery<V>>): (s: seq<Slip>)
    ensures |s| == |log|
  {
    seq(|log|, i requires 0 <= i < |log| => Slip(log[i].fid, log[i].ticket))
  }

  /** `slips` names exactly the operations whose place is `p`, once each, with their fiber. */
  ghost predicate Holds(slips: seq<Slip>, owner: seq<Fid>, place: seq<Place>, p: Place) {
    && |owner| == |place|
    && (forall i :: 0 <= i < |slips| ==> Owns(slips[i], owner, place, p))
    && (forall i, j :: 0 <= i < j < |slips| ==> slips[i].ticket != slips[j].ticket)
    && (forall t :: 0 <= t < |place| && place[t] == p ==> Slip(owner[t], t) in slips)
  }

  ghost predicate Owns(s: Slip, owner: seq<Fid>, place: seq<Place>, p: Place) {
    s.ticket < |owner| == |place| && owner[s.ticket] == s.fid && place[s.ticket] == p
  }

  ghost predicate Works(workers: seq<Worker>, owner: seq<Fid>, place: seq<Place>) {
    && |owner| == |place|
    && (forall i :: 0 <= i < |workers| && workers[i].Busy? ==> Owns(Slip(workers[i].job.fid, workers[i].job.work), owner, place, Running))
    && (forall i, j :: 0 <= i < j < |workers| && workers[i].Busy? && workers[j].Busy? ==> workers[i].job.work != workers[j].job.work)
    && (forall t :: 0 <= t < |place| && place[t] == Running ==> Busy(Job(owner[t], t)) in workers)
  }

  ghost predicate Stash<V>(done: map<Fid, Answer<V>>, owner: seq<Fid>, place: seq<Place>) {
    && |owner| == |place|
    && (forall f :: f in done ==> Owns(Slip(f, done[f].ticket), owner, place, Stashed))
    && (forall t :: 0 <= t < |place| && place[t] == Stashed ==> owner[t] in done && done[owner[t]].ticket == t)
  }

  /** Every result on its way is the value its worker computed. */
  ghost predicate Values<V>(w: World<V>) {
    && (forall t :: t in w.outcome <==> 0 <= t < |w.place| && w.place[t] != Queued && w.place[t] != Running)
    && (forall i :: 0 <= i < |w.h.completions| ==> Computed(w.outcome, w.h.completions[i].result))
    && (forall f :: f in w.h.done ==> Computed(w.outcome, w.h.done[f]))
    && (forall i :: 0 <= i < |w.log| ==> Computed(w.outcome, Answer(w.log[i].ticket, w.log[i].value)))
  }

  ghost predicate Computed<V>(outcome: map<Ticket, V>, a: Answer<V>) {
    a.ticket in outcome && outcome[a.ticket] == a.value
  }

  ghost predicate Flying(p: Place) { p == Queued || p == Running || p == Completed }

  ghost predicate Live(p: Place) { Flying(p) || p == Stashed }

  /** A fiber has one unfinished operation at most; the reactor's sets say how far it is. */
  ghost predicate Operations(owner: seq<Fid>, place: seq<Place>, current: map<Fid, Ticket>,
                             inflight: set<Fid>, discarded: set<Fid>, cancelled: set<Ticket>)
  {
    && |owner| == |place|
    && (forall f :: f in current ==> current[f] < |place| && owner[current[f]] == f && Live(place[current[f]]))
    && (forall t :: 0 <= t < |place| && Live(place[t]) ==> owner[t] in current && current[owner[t]] == t)
    && (forall f :: f in inflight <==> f in current && Flying(place[current[f]]))
    && (forall f :: f in discarded <==> f in inflight && current[f] in cancelled)
    && (forall t :: t in cancelled ==> t < |place| && (Flying(place[t]) || place[t] == Dropped))
    && (forall t :: 0 <= t < |place| && place[t] == Dropped ==> t in cancelled)
  }

  /** A fiber is parked exactly while something will wake it, and a reaped one is forgotten
      but for a discarded operation or a wake-up that was already on its way. */
  ghost predicate Fibers(waits: set<Fid>, ready: seq<Fid>, done: set<Fid>, inflight: set<Fid>,
                         discarded: set<Fid>, parked: set<Fid>, retired: set<Fid>)
  {
    && (forall f :: f in parked ==> f >= 0 && f !in retired && (f in waits || f in inflight || f in ready))
    && (forall f :: f in waits ==> f in parked && f !in inflight && f !in done && f !in ready)
    && (forall f :: f in inflight ==> f !in done && if f in discarded then f in retired else f in parked && f !in ready)
    && (forall f :: f in ready ==> f in retired || f in parked)
    && (forall f :: f in done ==> f !in retired && (f in parked ==> f in ready))
    && (forall f :: f in retired ==> f >= 0)
    && discarded <= inflight
    && (forall i, j :: 0 <= i < j < |ready| ==> ready[i] != ready[j])
  }

  ghost predicate Awaited(waits: map<Fid, Fd>, fd: Fd) { exists f :: f in waits && waits[f] == fd }

  /** The poller watches exactly the parked sockets, each for one fiber. */
  ghost predicate Sockets(waits: map<Fid, Fd>, watched: set<Fd>) {
    && (forall f :: f in waits ==> waits[f] in watched)
    && (forall fd :: fd in watched ==> Awaited(waits, fd))
    && (forall f, g :: f in waits && g in waits && waits[f] == waits[g] ==> f == g)
  }

  /** No wake-up is lost: a queued result has a notification pending, a worker about to
      send one, or a poll that is already emptying the queue. */
  ghost predicate NoLostWakeup<V>(w: World<V>) {
    w.h.completions != [] ==> w.h.notified || w.phase == Draining || Pushed in w.workers
  }

  /** `poll` blocks only while it has something to wait for and nothing to return. */
  ghost predicate Blocking<V>(w: World<V>) {
    w.phase == Waiting ==> w.h.ready == [] && (w.h.waits != map[] || w.h.inflight != {})
  }

  /** Each operation is where its place says and nowhere else. */
  ghost predicate Placed<V>(w: World<V>) {
    && Holds(JobSlips(w.h.jobs), w.owner, w.place, Queued)
    && Works(w.workers, w.owner, w.place)
    && Holds(CompletionSlips(w.h.completions), w.owner, w.place, Completed)
    && Stash(w.h.done, w.owner, w.place)
    && Holds(LogSlips(w.log), w.owner, w.place, Delivered)
  }

  ghost predicate Inv<V>(w: World<V>) {
    && Placed(w) && Values(w)
    && Operations(w.owner, w.place, w.current, w.h.inflight, w.h.discarded, w.cancelled)
    && Fibers(w.h.waits.Keys, w.h.ready, w.h.done.Keys, w.h.inflight, w.h.discarded, w.parked, w.retired)
    && Sockets(w.h.waits, w.h.watched)
    && NoLostWakeup(w) && Blocking(w)
  }

  // ----- one container at a time -----

  lemma Leaves(slips: seq<Slip>, owner: seq<Fid>, place: seq<Place>, p: Place, k: nat, q: Place)
    requires Holds(slips, owner, place, p) && k < |slips| && q != p
    ensures Owns(slips[k], owner, place, p)
    ensures Holds(slips[..k] + slips[k + 1..], owner, place[slips[k].ticket := q], p)
  {
    var rest, place' := slips[..k] + slips[k + 1..], place[slips[k].ticket := q];
    forall t | 0 <= t < |place| && place'[t] == p ensures Slip(owner[t], t) in rest {
      var i :| 0 <= i < |slips| && slips[i] == Slip(owner[t], t);
      assert rest[if i < k then i else i - 1] == slips[i];
    }
  }

  lemma Arrives(slips: seq<Slip>, owner: seq<Fid>, place: seq<Place>, p: Place, s: Slip)
    requires Holds(slips, owner, place, p) && s.ticket < |owner| && owner[s.ticket] == s.fid && place[s.ticket] != p
    ensures Holds(slips + [s], owner, place[s.ticket := p], p)
  {
    var all, place' := slips + [s], place[s.ticket := p];
    forall t | 0 <= t < |place| && place'[t] == p ensures Slip(owner[t], t) in all {
      if t == s.ticket { assert all[|slips|] == s; }
    }
  }

  lemma Stays(slips: seq<Slip>, owner: seq<Fid>, place: seq<Place>, p: Place, t: Ticket, q: Place)
    requires Holds(slips, owner, place, p) && t < |place| && place[t] != p && q != p
    ensures Holds(slips, owner, place[t := q], p)
  {
  }

  lemma Grows(slips: seq<Slip>, owner: seq<Fid>, place: seq<Place>, p: Place, fid: Fid)
    requires Holds(slips, owner, place, p) && p != Queued
    ensures Holds(slips, owner + [fid], place + [Queued], p)
  {
  }

  lemma Enqueues(slips: seq<Slip>, owner: seq<Fid>, place: seq<Place>, fid: Fid)
    requires Holds(slips, owner, place, Queued)
    ensures Holds(slips + [Slip(fid, |owner|)], owner + [fid], place + [Queued], Queued)
  {
    var all, owner', place' := slips + [Slip(fid, |owner|)], owner + [fid], place + [Queued];
    forall t | 0 <= t < |place'| && place'[t] == Queued ensures Slip(owner'[t], t) in all {
      if t == |owner| { assert all[|slips|] == Slip(fid, t); } else { assert place[t] == Queued; }
    }
  }

  lemma WorksTake(workers: seq<Worker>, owner: seq<Fid>, place: seq<Place>, i: nat, t: Ticket)
    requires Works(workers, owner, place) && i < |workers| && workers[i] == Free && t < |owner| && place[t] == Queued
    ensures Works(workers[i := Busy(Job(owner[t], t))], owner, place[t := Running])
  {
    var workers', place' := workers[i := Busy(Job(owner[t], t))], place[t := Running];
    forall u | 0 <= u < |place| && place'[u] == Running ensures Busy(Job(owner[u], u)) in workers' {
      if u == t {
        assert workers'[i] == Busy(Job(owner[u], u));
      } else {
        var j :| 0 <= j < |workers| && workers[j] == Busy(Job(owner[u], u));
        assert workers'[j] == workers[j];
      }
    }
  }

  lemma WorksFinish(workers: seq<Worker>, owner: seq<Fid>, place: seq<Place>, i: nat, q: Place)
    requires Works(workers, owner, place) && i < |workers| && workers[i].Busy? && q != Running
    ensures Owns(Slip(workers[i].job.fid, workers[i].job.work), owner, place, Running)
    ensures Works(workers[i := Pushed], owner, place[workers[i].job.work := q])
  {
    var workers', place' := workers[i := Pushed], place[workers[i].job.work := q];
    forall u | 0 <= u < |place| && place'[u] == Running ensures Busy(Job(owner[u], u)) in workers' {
      var j :| 0 <= j < |workers| && workers[j] == Busy(Job(owner[u], u));
      assert workers'[j] == workers[j];
    }
  }

  lemma WorksNotify(workers: seq<Worker>, owner: seq<Fid>, place: seq<Place>, i: nat)
    requires Works(workers, owner, place) && i < |workers| && workers[i] == Pushed
    ensures Works(workers[i := Free], owner, place)
  {
    forall u | 0 <= u < |place| && place[u] == Running ensures Busy(Job(owner[u], u)) in workers[i := Free] {
      var j :| 0 <= j < |workers| && workers[j] == Busy(Job(owner[u], u));
      assert workers[i := Free][j] == workers[j];
    }
  }

  lemma WorksStay(workers: seq<Worker>, owner: seq<Fid>, place: seq<Place>, t: Ticket, q: Place)
    requires Works(workers, owner, place) && t < |place| && place[t] != Running && q != Running
    ensures Works(workers, owner, place[t := q])
  {
  }

  lemma WorksGrow(workers: seq<Worker>, owner: seq<Fid>, place: seq<Place>, fid: Fid)
    requires Works(workers, owner, place)
    ensures Works(workers, owner + [fid], place + [Queued])
  {
  }

  lemma StashAdds<V>(done: map<Fid, Answer<V>>, owner: seq<Fid>, place: seq<Place>, fid: Fid, a: Answer<V>)
    requires Stash(done, owner, place) && fid !in done
    requires a.ticket < |owner| && owner[a.ticket] == fid && place[a.ticket] != Stashed
    ensures Stash(done[fid := a], owner, place[a.ticket := Stashed])
  {
  }

  lemma StashLoses<V>(done: map<Fid, Answer<V>>, owner: seq<Fid>, place: seq<Place>, fid: Fid, q: Place)
    requires Stash(done, owner, place) && fid in done && q != Stashed
    ensures Owns(Slip(fid, done[fid].ticket), owner, place, Stashed)
    ensures Stash(done - {fid}, owner, place[done[fid].ticket := q])
  {
  }

  lemma StashStays<V>(done: map<Fid, Answer<V>>, owner: seq<Fid>, place: seq<Place>, t: Ticket, q: Place)
    requires Stash(done, owner, place) && t < |place| && place[t] != Stashed && q != Stashed
    ensures Stash(done, owner, place[t := q])
  {
  }

  lemma StashGrows<V>(done: map<Fid, Answer<V>>, owner: seq<Fid>, place: seq<Place>, fid: Fid)
    requires Stash(done, owner, place)
    ensures Stash(done, owner + [fid], place + [Queued])
  {
  }

  lemma OpStarts(owner: seq<Fid>, place: seq<Place>, current: map<Fid, Ticket>,
      inflight: set<Fid>, discarded: set<Fid>, cancelled: set<Ticket>, fid: Fid)
    requires Operations(owner, place, current, inflight, discarded, cancelled)
    requires fid !in current
    ensures Operations(owner + [fid], place + [Queued], current[fid := |owner|], inflight + {fid}, discarded, cancelled)
  {
  }

  lemma OpLeaves(owner: seq<Fid>, place: seq<Place>, current: map<Fid, Ticket>,
      inflight: set<Fid>, discarded: set<Fid>, cancelled: set<Ticket>, fid: Fid, q: Place)
    requires Operations(owner, place, current, inflight, discarded, cancelled)
    requires fid in current && (q == Dropped || (q == Delivered && place[current[fid]] == Stashed))
    ensures Operations(owner, place[current[fid] := q], current - {fid}, inflight - {fid}, discarded - {fid},
                       if q == Dropped then cancelled + {current[fid]} else cancelled)
  {
  }

  lemma OpMoves(owner: seq<Fid>, place: seq<Place>, current: map<Fid, Ticket>,
      inflight: set<Fid>, discarded: set<Fid>, cancelled: set<Ticket>, t: Ticket, q: Place)
    requires Operations(owner, place, current, inflight, discarded, cancelled)
    requires t < |place| && Flying(place[t]) && Flying(q)
    ensures Operations(owner, place[t := q], current, inflight, discarded, cancelled)
  {
  }

  lemma OpStashes(owner: seq<Fid>, place: seq<Place>, current: map<Fid, Ticket>,
      inflight: set<Fid>, discarded: set<Fid>, cancelled: set<Ticket>, fid: Fid)
    requires Operations(owner, place, current, inflight, discarded, cancelled)
    requires fid in inflight && fid !in discarded
    ensures Operations(owner, place[current[fid] := Stashed], current, inflight - {fid}, discarded, cancelled)
  {
  }

  lemma OpCancelled(owner: seq<Fid>, place: seq<Place>, current: map<Fid, Ticket>,
      inflight: set<Fid>, discarded: set<Fid>, cancelled: set<Ticket>, fid: Fid)
    requires Operations(owner, place, current, inflight, discarded, cancelled)
    requires fid in inflight
    ensures Operations(owner, place, current, inflight, discarded + {fid}, cancelled + {current[fid]})
  {
  }

  lemma FiberSubmits(waits: set<Fid>, ready: seq<Fid>, done: set<Fid>, inflight: set<Fid>,
      discarded: set<Fid>, parked: set<Fid>, retired: set<Fid>, fid: Fid)
    requires Fibers(waits, ready, done, inflight, discarded, parked, retired)
    requires fid >= 0 && fid !in parked && fid !in retired && fid !in done
    ensures Fibers(waits, ready, done, inflight + {fid}, discarded, parked + {fid}, retired)
  {
  }

  lemma FiberCollects(waits: set<Fid>, ready: seq<Fid>, done: set<Fid>, inflight: set<Fid>,
      discarded: set<Fid>, parked: set<Fid>, retired: set<Fid>, fid: Fid)
    requires Fibers(waits, ready, done, inflight, discarded, parked, retired)
    ensures Fibers(waits, ready, done - {fid}, inflight, discarded, parked, retired)
  {
  }

  lemma FiberParks(waits: set<Fid>, ready: seq<Fid>, done: set<Fid>, inflight: set<Fid>,
      discarded: set<Fid>, parked: set<Fid>, retired: set<Fid>, fid: Fid)
    requires Fibers(waits, ready, done, inflight, discarded, parked, retired)
    requires fid >= 0 && fid !in parked && fid !in retired && fid !in done
    ensures Fibers(waits + {fid}, ready, done, inflight, discarded, parked + {fid}, retired)
  {
  }

  lemma FiberReaped(waits: set<Fid>, ready: seq<Fid>, done: set<Fid>, inflight: set<Fid>,
      discarded: set<Fid>, parked: set<Fid>, retired: set<Fid>, fid: Fid)
    requires Fibers(waits, ready, done, inflight, discarded, parked, retired)
    requires fid >= 0
    ensures Fibers(waits - {fid}, ready, done - {fid}, inflight, if fid in inflight then discarded + {fid} else discarded,
                   parked - {fid}, retired + {fid})
  {
  }

  lemma FiberRecycled(waits: set<Fid>, ready: seq<Fid>, done: set<Fid>, inflight: set<Fid>,
      discarded: set<Fid>, parked: set<Fid>, retired: set<Fid>, fid: Fid)
    requires Fibers(waits, ready, done, inflight, discarded, parked, retired)
    requires fid !in inflight && fid !in ready
    ensures Fibers(waits, ready, done, inflight, discarded, parked, retired - {fid})
  {
  }

  lemma FiberWoken(waits: set<Fid>, ready: seq<Fid>, done: set<Fid>, inflight: set<Fid>,
      discarded: set<Fid>, parked: set<Fid>, retired: set<Fid>)
    requires Fibers(waits, ready, done, inflight, discarded, parked, retired)
    requires ready != []
    ensures Fibers(waits, ready[1..], done, inflight, discarded, parked - {ready[0]}, retired)
  {
  }

  lemma FiberSocketReady(waits: set<Fid>, ready: seq<Fid>, done: set<Fid>, inflight: set<Fid>,
      discarded: set<Fid>, parked: set<Fid>, retired: set<Fid>, fid: Fid)
    requires Fibers(waits, ready, done, inflight, discarded, parked, retired)
    requires fid in waits
    ensures Fibers(waits - {fid}, ready + [fid], done, inflight, discarded, parked, retired)
  {
  }

  lemma FiberDropped(waits: set<Fid>, ready: seq<Fid>, done: set<Fid>, inflight: set<Fid>,
      discarded: set<Fid>, parked: set<Fid>, retired: set<Fid>, fid: Fid)
    requires Fibers(waits, ready, done, inflight, discarded, parked, retired)
    requires fid in discarded
    ensures Fibers(waits, ready, done, inflight - {fid}, discarded - {fid}, parked, retired)
  {
  }

  lemma FiberStashed(waits: set<Fid>, ready: seq<Fid>, done: set<Fid>, inflight: set<Fid>,
      discarded: set<Fid>, parked: set<Fid>, retired: set<Fid>, fid: Fid)
    requires Fibers(waits, ready, done, inflight, discarded, parked, retired)
    requires fid in inflight && fid !in discarded
    ensures Fibers(waits, ready + [fid], done + {fid}, inflight - {fid}, discarded, parked, retired)
  {
  }

  lemma SocketParks(waits: map<Fid, Fd>, watched: set<Fd>, fid: Fid, fd: Fd)
    requires Sockets(waits, watched) && fid !in waits && fd !in watched
    ensures Sockets(waits[fid := fd], watched + {fd})
  {
    var waits' := waits[fid := fd];
    forall x | x in watched + {fd} ensures Awaited(waits', x) {
      if x == fd { assert waits'[fid] == x; } else {
        assert Awaited(waits, x);
        var f :| f in waits && waits[f] == x;
        assert waits'[f] == x;
      }
    }
  }

  lemma SocketLeaves(waits: map<Fid, Fd>, watched: set<Fd>, fid: Fid)
    requires Sockets(waits, watched) && fid in waits
    ensures Sockets(waits - {fid}, watched - {waits[fid]})
  {
    var waits' := waits - {fid};
    forall x | x in watched - {waits[fid]} ensures Awaited(waits', x) {
      assert Awaited(waits, x);
      var f :| f in waits && waits[f] == x;
      assert f in waits' && waits'[f] == x;
    }
  }

  /** Socket events move fibers from `waits` to `ready` and touch nothing else. */
  lemma {:induction false} EventsKeep<V>(h: Host<Ticket, Answer<V>>, events: seq<Fid>, parked: set<Fid>, retired: set<Fid>)
    requires Fibers(h.waits.Keys, h.ready, h.done.Keys, h.inflight, h.discarded, parked, retired)
    requires Sockets(h.waits, h.watched)
    ensures var h' := EventsSeen(h, events);
            && Fibers(h'.waits.Keys, h'.ready, h'.done.Keys, h'.inflight, h'.discarded, parked, retired)
            && Sockets(h'.waits, h'.watched)
            && h'.completions == h.completions && h'.done == h.done && h'.inflight == h.inflight
            && h'.discarded == h.discarded && h'.jobs == h.jobs && h'.notified == h.notified
    decreases |events|
  {
    hide Fibers, Sockets;
    if events != [] {
      var fid := events[0];
      if fid in h.waits {
        FiberSocketReady(h.waits.Keys, h.ready, h.done.Keys, h.inflight, h.discarded, parked, retired, fid);
        SocketLeaves(h.waits, h.watched, fid);
        assert (h.waits - {fid}).Keys == h.waits.Keys - {fid};
      }
      EventsKeep(EventSeen(h, fid), events[1..], parked, retired);
    }
  }

  // ----- every step keeps the invariant -----

  /** The fiber-side facts a step starts from. */
  lemma StashedOf<V>(w: World<V>, fid: Fid)
    requires Inv(w) && fid in w.h.done
    ensures var t := w.h.done[fid].ticket; Owns(Slip(fid, t), w.owner, w.place, Stashed)
    ensures fid in w.current && w.current[fid] == w.h.done[fid].ticket
    ensures fid !in w.h.waits && fid !in w.h.inflight && fid !in w.h.discarded
  {
  }

  lemma IdleFiber<V>(w: World<V>, fid: Fid)
    requires Inv(w) && MayRun(w, fid)
    ensures fid !in w.h.waits && fid !in w.h.inflight && (fid in w.current <==> fid in w.h.done)
  {
  }

  lemma CollectPlaces<V>(w: World<V>, fid: Fid)
    requires Inv(w) && MayRun(w, fid) && fid in w.h.done
    ensures Placed(Called(w, fid)) && Values(Called(w, fid))
  {
    hide Holds, Works, Stash, Operations, Fibers, Sockets;
    StashedOf(w, fid);
    var t := w.h.done[fid].ticket;
    Stays(JobSlips(w.h.jobs), w.owner, w.place, Queued, t, Delivered);
    WorksStay(w.workers, w.owner, w.place, t, Delivered);
    Stays(CompletionSlips(w.h.completions), w.owner, w.place, Completed, t, Delivered);
    StashLoses(w.h.done, w.owner, w.place, fid, Delivered);
    Arrives(LogSlips(w.log), w.owner, w.place, Delivered, Slip(fid, t));
    assert LogSlips(Called(w, fid).log) == LogSlips(w.log) + [Slip(fid, t)];
  }

  lemma CollectKeeps<V>(w: World<V>, fid: Fid)
    requires Inv(w) && MayRun(w, fid) && fid in w.h.done
    ensures Inv(Called(w, fid))
  {
    hide Holds, Owns, Works, Stash, Values, Operations, Fibers, Sockets;
    CollectPlaces(w, fid);
    StashedOf(w, fid);
    OpLeaves(w.owner, w.place, w.current, w.h.inflight, w.h.discarded, w.cancelled, fid, Delivered);
    assert w.h.inflight - {fid} == w.h.inflight && w.h.discarded - {fid} == w.h.discarded;
    FiberCollects(w.h.waits.Keys, w.h.ready, w.h.done.Keys, w.h.inflight, w.h.discarded, w.parked, w.retired, fid);
    assert (w.h.done - {fid}).Keys == w.h.done.Keys - {fid};
    InRange(w, fid);
  }

  lemma InRange<V>(w: World<V>, fid: Fid)
    requires Inv(w) && fid in w.current
    ensures w.current[fid] < |w.owner| == |w.place| && w.owner[w.current[fid]] == fid
    ensures fid in w.h.inflight <==> Flying(w.place[w.current[fid]])
    ensures fid !in w.h.inflight <==> w.place[w.current[fid]] == Stashed
    ensures fid !in w.h.inflight <==> fid in w.h.done
  {
  }

  lemma SubmitPlaces<V>(w: World<V>, fid: Fid)
    requires Inv(w) && MayRun(w, fid) && fid !in w.h.done
    ensures Placed(Called(w, fid)) && Values(Called(w, fid))
  {
    hide Works, Stash, Operations, Fibers, Sockets, Owns;
    Enqueues(JobSlips(w.h.jobs), w.owner, w.place, fid);
    assert JobSlips(Called(w, fid).h.jobs) == JobSlips(w.h.jobs) + [Slip(fid, |w.owner|)];
    WorksGrow(w.workers, w.owner, w.place, fid);
    Grows(CompletionSlips(w.h.completions), w.owner, w.place, Completed, fid);
    StashGrows(w.h.done, w.owner, w.place, fid);
    Grows(LogSlips(w.log), w.owner, w.place, Delivered, fid);
  }

  lemma SubmitKeeps<V>(w: World<V>, fid: Fid)
    requires Inv(w) && MayRun(w, fid) && fid !in w.h.done
    ensures Inv(Called(w, fid))
  {
    hide Holds, Owns, Works, Stash, Values, Operations, Fibers, Sockets;
    SubmitPlaces(w, fid);
    IdleFiber(w, fid);
    OpStarts(w.owner, w.place, w.current, w.h.inflight, w.h.discarded, w.cancelled, fid);
    FiberSubmits(w.h.waits.Keys, w.h.ready, w.h.done.Keys, w.h.inflight, w.h.discarded, w.parked, w.retired, fid);
  }

  lemma ParkKeeps<V>(w: World<V>, fid: Fid, fd: Fd)
    requires Inv(w) && Enabled(w, ParkOnSocket(fid, fd))
    ensures Inv(After(w, ParkOnSocket(fid, fd)))
  {
    hide Holds, Owns, Works, Stash, Values, Operations, Fibers, Sockets;
    IdleFiber(w, fid);
    FiberParks(w.h.waits.Keys, w.h.ready, w.h.done.Keys, w.h.inflight, w.h.discarded, w.parked, w.retired, fid);
    assert w.h.waits[fid := fd].Keys == w.h.waits.Keys + {fid};
    SocketParks(w.h.waits, w.h.watched, fid, fd);
    SameRecord(w, After(w, ParkOnSocket(fid, fd)));
  }

  lemma OneWaitAtATime<V>(w: World<V>, fid: Fid)
    requires Inv(w)
    ensures fid in w.h.waits ==> fid !in w.h.inflight && fid !in w.h.done
    ensures fid in w.h.done ==> fid !in w.h.inflight
  {
    hide Placed, Values, Operations, Sockets;
  }

  lemma CancelFibers<V>(w: World<V>, fid: Fid)
    requires Inv(w) && Enabled(w, Cancel(fid))
    ensures var w' := Cancelled(w, fid);
            && Fibers(w'.h.waits.Keys, w'.h.ready, w'.h.done.Keys, w'.h.inflight, w'.h.discarded, w'.parked, w'.retired)
            && Sockets(w'.h.waits, w'.h.watched)
    ensures fid in w.h.waits ==> fid !in w.h.inflight && fid !in w.h.done
    ensures fid in w.h.done ==> fid !in w.h.inflight
  {
    hide Placed, Values, Operations, Sockets, Fibers, NoLostWakeup, Blocking;
    OneWaitAtATime(w, fid);
    FiberReaped(w.h.waits.Keys, w.h.ready, w.h.done.Keys, w.h.inflight, w.h.discarded, w.parked, w.retired, fid);
    var w' := Cancelled(w, fid);
    if fid in w.h.waits { SocketLeaves(w.h.waits, w.h.watched, fid); }
    assert w'.h.waits.Keys == w.h.waits.Keys - {fid};
    assert w'.h.done.Keys == w.h.done.Keys - {fid};
  }

  lemma DropPlaces<V>(w: World<V>, fid: Fid)
    requires Inv(w) && fid in w.h.done
    ensures var t := w.h.done[fid].ticket; var w' := w.(h := w.h.(done := w.h.done - {fid}), place := SetPlace(w.place, t, Dropped));
            Placed(w') && Values(w')
  {
    hide Holds, Works, Stash, Operations, Fibers, Sockets;
    StashedOf(w, fid);
    var t := w.h.done[fid].ticket;
    Stays(JobSlips(w.h.jobs), w.owner, w.place, Queued, t, Dropped);
    WorksStay(w.workers, w.owner, w.place, t, Dropped);
    Stays(CompletionSlips(w.h.completions), w.owner, w.place, Completed, t, Dropped);
    Stays(LogSlips(w.log), w.owner, w.place, Delivered, t, Dropped);
    StashLoses(w.h.done, w.owner, w.place, fid, Dropped);
  }

  lemma CancelKeeps<V>(w: World<V>, fid: Fid)
    requires Inv(w) && Enabled(w, Cancel(fid))
    ensures Inv(Cancelled(w, fid))
  {
    hide Holds, Owns, Works, Stash, Values, Operations, Fibers, Sockets;
    CancelFibers(w, fid);
    if fid in w.current {
      InRange(w, fid);
      if fid in w.h.done {
        DropPlaces(w, fid);
        StashedOf(w, fid);
        SameRecord(w.(h := w.h.(done := w.h.done - {fid}), place := SetPlace(w.place, w.h.done[fid].ticket, Dropped)), Cancelled(w, fid));
        OpLeaves(w.owner, w.place, w.current, w.h.inflight, w.h.discarded, w.cancelled, fid, Dropped);
        assert w.h.inflight - {fid} == w.h.inflight && w.h.discarded - {fid} == w.h.discarded;
      } else {
        OpCancelled(w.owner, w.place, w.current, w.h.inflight, w.h.discarded, w.cancelled, fid);
        SameRecord(w, Cancelled(w, fid));
      }
    } else {
      NothingUnfinished(w, fid);
      SameRecord(w, Cancelled(w, fid));
    }
  }

  lemma NothingUnfinished<V>(w: World<V>, fid: Fid)
    requires Inv(w) && fid !in w.current
    ensures fid !in w.h.inflight && fid !in w.h.done && w.h.done - {fid} == w.h.done
  {
  }

  lemma AnswerKeeps<V>(w: World<V>)
    requires Inv(w) && (w.phase == Draining ==> w.h.completions == [])
    ensures Inv(Answered(w))
  {
    hide Holds, Owns, Works, Stash, Values, Operations, Fibers, Sockets;
    SameRecord(w, Answered(w));
    if w.h.ready == [] {
      NoFiberIsNegative(w);
    } else {
      FiberWoken(w.h.waits.Keys, w.h.ready, w.h.done.Keys, w.h.inflight, w.h.discarded, w.parked, w.retired);
    }
  }

  lemma NoFiberIsNegative<V>(w: World<V>)
    requires Inv(w)
    ensures w.parked - {-1} == w.parked
  {
  }

  lemma BeginKeeps<V>(w: World<V>)
    requires Inv(w) && w.phase == Outside
    ensures Inv(After(w, BeginPoll))
  {
    hide Placed, Values, Operations, Fibers, Sockets, Popped, Woken;
    if w.h.ready == [] && (w.h.waits != map[] || w.h.inflight != {}) { SameRecord(w, w.(phase := Waiting)); } else { AnswerKeeps(w); }
  }

  lemma WaitReturnsKeeps<V>(w: World<V>, events: seq<Fid>)
    requires Inv(w) && w.phase == Waiting
    ensures Inv(After(w, WaitReturns(events)))
  {
    hide Holds, Owns, Works, Stash, Values, Operations, Fibers, Sockets;
    EventsKeep(w.h.(notified := false), events, w.parked, w.retired);
    var w' := After(w, WaitReturns(events));
    SameRecord(w, w');
  }

  lemma SameRecord<V>(w: World<V>, w': World<V>)
    requires Placed(w) && Values(w)
    requires w'.outcome == w.outcome && w'.place == w.place && w'.owner == w.owner && w'.log == w.log && w'.workers == w.workers
    requires w'.h.completions == w.h.completions && w'.h.done == w.h.done && w'.h.jobs == w.h.jobs
    ensures Placed(w') && Values(w')
  {
  }

  lemma FrontCompletion<V>(w: World<V>)
    requires Inv(w) && w.h.completions != []
    ensures var c := w.h.completions[0]; var t := c.result.ticket;
            && Owns(Slip(c.fid, t), w.owner, w.place, Completed)
            && c.fid in w.current && w.current[c.fid] == t && c.fid in w.h.inflight && c.fid !in w.h.done
            && Computed(w.outcome, c.result)
  {
    var c := w.h.completions[0];
    assert CompletionSlips(w.h.completions)[0] == Slip(c.fid, c.result.ticket);
  }

  lemma DrainPlaces<V>(w: World<V>)
    requires Inv(w) && Enabled(w, DrainNext)
    ensures Placed(DrainedNext(w)) && Values(DrainedNext(w))
  {
    hide Holds, Works, Stash, Operations, Fibers, Sockets;
    FrontCompletion(w);
    var c, slips := w.h.completions[0], CompletionSlips(w.h.completions);
    var t, w' := c.result.ticket, DrainedNext(w);
    var q := if c.fid in w.h.discarded then Dropped else Stashed;
    assert slips[0].ticket == t;
    Leaves(slips, w.owner, w.place, Completed, 0, q);
    assert slips[..0] + slips[1..] == CompletionSlips(w'.h.completions);
    Stays(JobSlips(w.h.jobs), w.owner, w.place, Queued, t, q);
    WorksStay(w.workers, w.owner, w.place, t, q);
    Stays(LogSlips(w.log), w.owner, w.place, Delivered, t, q);
    if q == Dropped { StashStays(w.h.done, w.owner, w.place, t, Dropped); }
    else { StashAdds(w.h.done, w.owner, w.place, c.fid, c.result); }
  }

  lemma DrainKeeps<V>(w: World<V>)
    requires Inv(w) && Enabled(w, DrainNext)
    ensures Inv(DrainedNext(w))
  {
    hide Holds, Owns, Works, Stash, Values, Operations, Fibers, Sockets;
    FrontCompletion(w);
    DrainPlaces(w);
    var c, w' := w.h.completions[0], DrainedNext(w);
    InRange(w, c.fid);
    if c.fid in w.h.discarded {
      OpLeaves(w.owner, w.place, w.current, w.h.inflight, w.h.discarded, w.cancelled, c.fid, Dropped);
      AlreadyCancelled(w, c.fid);
      FiberDropped(w.h.waits.Keys, w.h.ready, w.h.done.Keys, w.h.inflight, w.h.discarded, w.parked, w.retired, c.fid);
    } else {
      OpStashes(w.owner, w.place, w.current, w.h.inflight, w.h.discarded, w.cancelled, c.fid);
      FiberStashed(w.h.waits.Keys, w.h.ready, w.h.done.Keys, w.h.inflight, w.h.discarded, w.parked, w.retired, c.fid);
      assert w.h.done[c.fid := c.result].Keys == w.h.done.Keys + {c.fid};
    }
  }

  lemma AlreadyCancelled<V>(w: World<V>, fid: Fid)
    requires Inv(w) && fid in w.h.discarded
    ensures fid in w.current && w.cancelled + {w.current[fid]} == w.cancelled
  {
  }

  lemma TakePlaces<V>(w: World<V>, i: nat, k: nat)
    requires Inv(w) && Enabled(w, Take(i, k))
    ensures Placed(After(w, Take(i, k))) && Values(After(w, Take(i, k)))
    ensures Owns(Slip(w.h.jobs[k].fid, w.h.jobs[k].work), w.owner, w.place, Queued)
  {
    hide Holds, Works, Stash, Operations, Fibers, Sockets;
    var slips, t := JobSlips(w.h.jobs), w.h.jobs[k].work;
    Leaves(slips, w.owner, w.place, Queued, k, Running);
    assert slips[..k] + slips[k + 1..] == JobSlips(After(w, Take(i, k)).h.jobs);
    WorksTake(w.workers, w.owner, w.place, i, t);
    Stays(CompletionSlips(w.h.completions), w.owner, w.place, Completed, t, Running);
    StashStays(w.h.done, w.owner, w.place, t, Running);
    Stays(LogSlips(w.log), w.owner, w.place, Delivered, t, Running);
  }

  lemma TakeKeeps<V>(w: World<V>, i: nat, k: nat)
    requires Inv(w) && Enabled(w, Take(i, k))
    ensures Inv(After(w, Take(i, k)))
  {
    hide Holds, Works, Stash, Values, Operations, Fibers, Sockets;
    TakePlaces(w, i, k);
    OpMoves(w.owner, w.place, w.current, w.h.inflight, w.h.discarded, w.cancelled, w.h.jobs[k].work, Running);
    StillPushed(w.workers, i, Busy(w.h.jobs[k]));
  }

  lemma StillPushed(workers: seq<Worker>, i: nat, x: Worker)
    requires i < |workers| && workers[i] != Pushed
    ensures Pushed in workers ==> Pushed in workers[i := x]
  {
    if Pushed in workers {
      var j :| 0 <= j < |workers| && workers[j] == Pushed;
      assert workers[i := x][j] == Pushed;
    }
  }

  lemma FinishPlaces<V>(w: World<V>, i: nat, value: V)
    requires Inv(w) && Enabled(w, Finish(i, value))
    ensures Placed(After(w, Finish(i, value))) && Values(After(w, Finish(i, value)))
    ensures Owns(Slip(w.workers[i].job.fid, w.workers[i].job.work), w.owner, w.place, Running)
  {
    hide Holds, Works, Stash, Operations, Fibers, Sockets;
    var job := w.workers[i].job;
    var t, slips := job.work, CompletionSlips(w.h.completions);
    WorksFinish(w.workers, w.owner, w.place, i, Completed);
    Arrives(slips, w.owner, w.place, Completed, Slip(job.fid, t));
    assert slips + [Slip(job.fid, t)] == CompletionSlips(After(w, Finish(i, value)).h.completions);
    Stays(JobSlips(w.h.jobs), w.owner, w.place, Queued, t, Completed);
    StashStays(w.h.done, w.owner, w.place, t, Completed);
    Stays(LogSlips(w.log), w.owner, w.place, Delivered, t, Completed);
  }

  lemma FinishKeeps<V>(w: World<V>, i: nat, value: V)
    requires Inv(w) && Enabled(w, Finish(i, value))
    ensures Inv(After(w, Finish(i, value)))
  {
    hide Holds, Works, Stash, Values, Operations, Fibers, Sockets;
    FinishPlaces(w, i, value);
    OpMoves(w.owner, w.place, w.current, w.h.inflight, w.h.discarded, w.cancelled, w.workers[i].job.work, Completed);
    assert After(w, Finish(i, value)).workers[i] == Pushed;
  }

  lemma StillComputed<V>(w: World<V>, w': World<V>)
    requires Values(w)
    requires w'.outcome == w.outcome && w'.place == w.place && w'.log == w.log && w'.h.completions == w.h.completions && w'.h.done == w.h.done
    ensures Values(w')
  {
  }

  lemma NotifyKeeps<V>(w: World<V>, i: nat)
    requires Inv(w) && Enabled(w, Notify(i))
    ensures Inv(After(w, Notify(i)))
  {
    hide Holds, Owns, Works, Stash, Values, Operations, Fibers, Sockets;
    WorksNotify(w.workers, w.owner, w.place, i);
    assert Values(After(w, Notify(i))) by { StillComputed(w, After(w, Notify(i))); }
  }

  /** No step of the scheduler or of a worker breaks the protocol. */
  lemma StepKeeps<V>(w: World<V>, step: Step<V>)
    requires Inv(w) && Enabled(w, step)
    ensures Inv(After(w, step))
  {
    hide Placed, Values, Operations, Fibers, Sockets, Popped, Woken, Called, Cancelled, DrainedNext, Answered;
    match step
    case CallOp(fid) => if fid in w.h.done { CollectKeeps(w, fid); } else { SubmitKeeps(w, fid); }
    case ParkOnSocket(fid, fd) => ParkKeeps(w, fid, fd);
    case Cancel(fid) => CancelKeeps(w, fid);
    case Recycle(fid) => FiberRecycled(w.h.waits.Keys, w.h.ready, w.h.done.Keys, w.h.inflight, w.h.discarded, w.parked, w.retired, fid); SameRecord(w, After(w, step));
    case BeginPoll => BeginKeeps(w);
    case WaitFails => SameRecord(w, After(w, step));
    case WaitReturns(events) => WaitReturnsKeeps(w, events);
    case DrainNext => DrainKeeps(w);
    case EndPoll => AnswerKeeps(w);
    case Take(i, k) => TakeKeeps(w, i, k);
    case Finish(i, value) => FinishKeeps(w, i, value);
    case Notify(i) => NotifyKeeps(w, i);
  }
}
