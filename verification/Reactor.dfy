/** The I/O reactor as its own thread sees it: parked sockets, offloaded operations, and
    the one poll step that wakes fibers for both. `poll` is cut where it blocks, so that
    the worker threads' steps can fall in between. */
module Reactor {
  import opened Wrappers

  type Fid = int
  type Fd = int

  datatype Job<+J> = Job(fid: Fid, work: J)

  datatype Completion<+R> = Completion(fid: Fid, result: R)

  /** The reactor's fields as a value. `jobs` is the worker pool's channel, `watched` the
      descriptors registered with the poller, `notified` its sticky wake-up flag. */
  datatype Host<+J, +R> = Host(
    waits: map<Fid, Fd>,
    watched: set<Fd>,
    ready: seq<Fid>,
    completions: seq<Completion<R>>,
    done: map<Fid, R>,
    inflight: set<Fid>,
    discarded: set<Fid>,
    jobs: seq<Job<J>>,
    notified: bool)

  function Registered<J, R>(h: Host<J, R>, fid: Fid, fd: Fd): Host<J, R> {
    h.(waits := h.waits[fid := fd], watched := h.watched + {fd})
  }

  function Submitted<J, R>(h: Host<J, R>, fid: Fid, work: J): Host<J, R> {
    h.(inflight := h.inflight + {fid}, jobs := h.jobs + [Job(fid, work)])
  }

  function Collected<J, R>(h: Host<J, R>, fid: Fid): Host<J, R> {
    h.(done := h.done - {fid})
  }

  function Unparked<J, R>(h: Host<J, R>, fid: Fid): Host<J, R>
    requires fid in h.waits
  {
    h.(waits := h.waits - {fid}, watched := h.watched - {h.waits[fid]})
  }

  function Unwatched<J, R>(h: Host<J, R>, fid: Fid): Host<J, R> {
    if fid in h.waits then Unparked(h, fid)
    else if fid in h.inflight then h.(discarded := h.discarded + {fid})
    else h.(done := h.done - {fid})
  }

  function EventSeen<J, R>(h: Host<J, R>, fid: Fid): Host<J, R> {
    if fid in h.waits then Unparked(h, fid).(ready := h.ready + [fid]) else h
  }

  function EventsSeen<J, R>(h: Host<J, R>, events: seq<Fid>): Host<J, R>
    decreases |events|
  {
    if events == [] then h else EventsSeen(EventSeen(h, events[0]), events[1..])
  }

  /** The oldest completion is taken off the queue and stashed, or dropped if cancelled. */
  function DrainedOne<J, R>(h: Host<J, R>): Host<J, R>
    requires h.completions != []
  {
    var c := h.completions[0];
    var h' := h.(completions := h.completions[1..], inflight := h.inflight - {c.fid});
    if c.fid in h.discarded then h'.(discarded := h.discarded - {c.fid})
    else h'.(done := h.done[c.fid := c.result], ready := h.ready + [c.fid])
  }

  function Drained<J, R>(h: Host<J, R>): Host<J, R>
    decreases |h.completions|
  {
    if h.completions == [] then h else Drained(DrainedOne(h))
  }

  /** The fiber the scheduler is told to wake: the front of `ready`, or -1. */
  function Woken<J, R>(h: Host<J, R>): Fid { if h.ready == [] then -1 else h.ready[0] }

  function Popped<J, R>(h: Host<J, R>): Host<J, R> {
    if h.ready == [] then h else h.(ready := h.ready[1..])
  }

  // ----- what a drain does to the whole queue -----

  ghost function Fids<R>(cs: seq<Completion<R>>): set<Fid> { set c | c in cs :: c.fid }

  ghost predicate DistinctFids<R>(cs: seq<Completion<R>>) {
    forall i, j :: 0 <= i < j < |cs| ==> cs[i].fid != cs[j].fid
  }

  /** The completions whose operation was not cancelled, in the order they arrived. */
  function Kept<R>(cs: seq<Completion<R>>, discarded: set<Fid>): seq<Completion<R>> {
    if cs == [] then []
    else (if cs[0].fid in discarded then [] else [cs[0]]) + Kept(cs[1..], discarded)
  }

  function Wakes<R>(cs: seq<Completion<R>>): (s: seq<Fid>)
    ensures |s| == |cs| && forall i :: 0 <= i < |cs| ==> s[i] == cs[i].fid
  {
    seq(|cs|, i requires 0 <= i < |cs| => cs[i].fid)
  }

  lemma {:induction false} KeptIs<R>(cs: seq<Completion<R>>, discarded: set<Fid>, c: Completion<R>)
    ensures c in Kept(cs, discarded) <==> c in cs && c.fid !in discarded
  {
    if cs != [] { KeptIs(cs[1..], discarded, c); }
  }

  lemma {:induction false} KeptAfter<R>(cs: seq<Completion<R>>, discarded: set<Fid>, fid: Fid)
    requires fid !in Fids(cs)
    ensures Kept(cs, discarded) == Kept(cs, discarded - {fid})
  {
    if cs != [] {
      assert cs[0] in cs;
      assert Fids(cs[1..]) <= Fids(cs);
      KeptAfter(cs[1..], discarded, fid);
    }
  }

  lemma FidsSplit<R>(c: Completion<R>, rest: seq<Completion<R>>)
    ensures Fids([c] + rest) == {c.fid} + Fids(rest)
  {
    assert forall x :: x in [c] + rest <==> x == c || x in rest;
  }

  lemma {:induction false} DrainForgets<J, R>(h: Host<J, R>)
    ensures var d := Drained(h);
            && d.completions == [] && d.waits == h.waits && d.watched == h.watched && d.jobs == h.jobs && d.notified == h.notified
            && d.inflight == h.inflight - Fids(h.completions)
    ensures DistinctFids(h.completions) ==> Drained(h).discarded == h.discarded - Fids(h.completions)
    decreases |h.completions|
  {
    hide Fids;
    if h.completions == [] {
      assert Fids(h.completions) == {} by { NoFids(h.completions); }
    } else {
      var rest := h.completions[1..];
      DrainForgets(DrainedOne(h));
      assert h.completions == [h.completions[0]] + rest;
      FidsSplit(h.completions[0], rest);
    }
  }

  lemma NoFids<R>(cs: seq<Completion<R>>)
    requires cs == []
    ensures Fids(cs) == {}
  {
  }

  lemma WakesSplit<R>(ready: seq<Fid>, c: Completion<R>, rest: seq<Completion<R>>)
    ensures (ready + [c.fid]) + Wakes(rest) == ready + Wakes([c] + rest)
  {
  }

  lemma {:induction false} DrainWakes<J, R>(h: Host<J, R>)
    requires DistinctFids(h.completions)
    ensures Drained(h).ready == h.ready + Wakes(Kept(h.completions, h.discarded))
    decreases |h.completions|
  {
    hide Fids, Wakes;
    if h.completions == [] {
      assert Wakes(Kept(h.completions, h.discarded)) == [];
    } else {
      var c, rest := h.completions[0], h.completions[1..];
      FreshFid(h.completions);
      KeptAfter(rest, h.discarded, c.fid);
      DrainWakes(DrainedOne(h));
      if c.fid !in h.discarded {
        WakesSplit(h.ready, c, Kept(rest, h.discarded));
      }
    }
  }

  /** `f` holds a result after the drain exactly if it held one before or its completion
      was queued and not cancelled; the queued one wins. */
  lemma {:induction false} DrainStashes<J, R>(h: Host<J, R>, f: Fid)
    requires DistinctFids(h.completions)
    ensures f in Drained(h).done <==> f in h.done || f in Fids(Kept(h.completions, h.discarded))
    ensures f in h.done && f !in Fids(Kept(h.completions, h.discarded)) ==> Drained(h).done[f] == h.done[f]
    ensures forall c :: c in Kept(h.completions, h.discarded) && c.fid == f ==> Drained(h).done[f] == c.result
    decreases |h.completions|
  {
    hide Fids;
    if h.completions == [] {
      NoFids(Kept(h.completions, h.discarded));
    } else {
      var c, rest := h.completions[0], h.completions[1..];
      DrainStashes(DrainedOne(h), f);
      assert c.fid !in Fids(rest) by { FreshFid(h.completions); }
      KeptAfter(rest, h.discarded, c.fid);
      KeptFids(rest, h.discarded);
      if c.fid in h.discarded {
        assert Kept(h.completions, h.discarded) == Kept(rest, h.discarded);
      } else {
        assert Kept(h.completions, h.discarded) == [c] + Kept(rest, h.discarded);
        FidsSplit(c, Kept(rest, h.discarded));
      }
    }
  }

  // ----- what the poller's events do -----

  /** The parked fibers among some events, each once, in the order of their first event. */
  function FirstParked(waits: set<Fid>, events: seq<Fid>): seq<Fid> {
    if events == [] then []
    else if events[0] in waits then [events[0]] + FirstParked(waits - {events[0]}, events[1..])
    else FirstParked(waits, events[1..])
  }

  /** Events ready exactly the fibers parked on a socket, in the order they came, and end their
      waits; what concerns offloaded operations stays as it was. */
  lemma {:induction false} EventsWake<J, R>(h: Host<J, R>, events: seq<Fid>)
    ensures var h' := EventsSeen(h, events);
            && h'.ready == h.ready + FirstParked(h.waits.Keys, events)
            && h'.waits == h.waits - (set f | f in events)
            && h'.completions == h.completions && h'.done == h.done && h'.inflight == h.inflight && h'.discarded == h.discarded
            && h'.jobs == h.jobs && h'.notified == h.notified
    decreases |events|
  {
    var gone := set f | f in events;
    if events == [] {
      assert gone == {};
    } else {
      var rest := set f | f in events[1..];
      EventsWake(EventSeen(h, events[0]), events[1..]);
      assert gone == {events[0]} + rest;
      if events[0] in h.waits {
        assert (h.waits - {events[0]}).Keys == h.waits.Keys - {events[0]};
        assert h.waits - {events[0]} - rest == h.waits - gone;
      } else {
        assert h.waits - rest == h.waits - gone;
      }
    }
  }

  /** Which they are, and that none comes twice. */
  lemma {:induction false} FirstParkedIs(waits: set<Fid>, events: seq<Fid>)
    ensures forall f :: f in FirstParked(waits, events) <==> f in events && f in waits
    ensures forall i, j :: 0 <= i < j < |FirstParked(waits, events)| ==> FirstParked(waits, events)[i] != FirstParked(waits, events)[j]
    decreases |events|
  {
    if events != [] {
      var first, rest := events[0], events[1..];
      FirstParkedIs(waits - {first}, rest);
      FirstParkedIs(waits, rest);
      assert events == [first] + rest;
    }
  }

  lemma FreshFid<R>(cs: seq<Completion<R>>)
    requires cs != [] && DistinctFids(cs)
    ensures cs[0].fid !in Fids(cs[1..])
  {
  }

  lemma KeptFids<R>(cs: seq<Completion<R>>, discarded: set<Fid>)
    ensures Fids(Kept(cs, discarded)) <= Fids(cs)
    ensures forall c :: c in Kept(cs, discarded) ==> c.fid in Fids(cs)
  {
    forall c | c in Kept(cs, discarded) ensures c in cs { KeptIs(cs, discarded, c); }
  }

  /** When a fiber id is reused while its cancelled operation is still running, two of its
      completions can be queued at once; only their order decides which one it receives. */
  lemma ReusedIdTakesTheLater<J, R>(h: Host<J, R>, fid: Fid, first: R, second: R)
    requires fid in h.discarded
    requires h.completions == [Completion(fid, first), Completion(fid, second)]
    ensures fid in Drained(h).done && Drained(h).done[fid] == second
  {
    var once := DrainedOne(h);
    assert once.completions == [Completion(fid, second)];
    assert Drained(DrainedOne(once)) == DrainedOne(once);
  }

  // ----- the reactor itself -----

  class Reactor<J, R> {
    var waits: map<Fid, Fd>
    var watched: set<Fd>
    var ready: seq<Fid>
    var completions: seq<Completion<R>>
    var done: map<Fid, R>
    var inflight: set<Fid>
    var discarded: set<Fid>
    var jobs: seq<Job<J>>
    var notified: bool

    ghost function Snapshot(): Host<J, R>
      reads this
    {
      Host(waits, watched, ready, completions, done, inflight, discarded, jobs, notified)
    }

    constructor ()
      ensures Snapshot() == Host(map[], {}, [], [], map[], {}, {}, [], false)
    {
      waits, watched, ready, completions, done := map[], {}, [], [], map[];
      inflight, discarded, jobs, notified := {}, {}, [], false;
    }

    /** `accepted` is the poller's answer; it refuses a descriptor it already watches. */
    method RegisterSocket(fid: Fid, fd: Fd, accepted: bool) returns (ok: bool)
      modifies this
      ensures ok == (accepted && fd !in old(watched))
      ensures Snapshot() == if ok then Registered(old(Snapshot()), fid, fd) else old(Snapshot())
    {
      ok := accepted && fd !in watched;
      if ok {
        watched := watched + {fd};
        waits := waits[fid := fd];
      }
    }

    /** `sent` is false when the channel is closed; the operation is then dropped. */
    method Submit(fid: Fid, work: J, sent: bool)
      modifies this
      ensures Snapshot() == if sent then Submitted(old(Snapshot()), fid, work)
                            else old(Snapshot()).(inflight := old(inflight) - {fid})
    {
      inflight := inflight + {fid};
      if sent {
        jobs := jobs + [Job(fid, work)];
      } else {
        inflight := inflight - {fid};
        assert old(inflight) + {fid} - {fid} == old(inflight) - {fid};
      }
    }

    method Collect(fid: Fid) returns (result: Option<R>)
      modifies this
      ensures result == if fid in old(done) then Some(old(done)[fid]) else None
      ensures Snapshot() == Collected(old(Snapshot()), fid)
    {
      result := if fid in done then Some(done[fid]) else None;
      done := done - {fid};
    }

    /** A worker reports a result: it is queued first, and only then is the poller woken. */
    method Complete(fid: Fid, result: R)
      modifies this
      ensures Snapshot() == old(Snapshot()).(completions := old(completions) + [Completion(fid, result)], notified := true)
    {
      completions := completions + [Completion(fid, result)];
      notified := true;
    }

    /** `poll` up to where it would block: `Some` is its answer, `None` means it waits. */
    method PollBegin() returns (woken: Option<Fid>)
      modifies this
      ensures woken == None <==> old(ready) == [] && (old(waits) != map[] || old(inflight) != {})
      ensures woken.Some? ==> woken.value == Woken(old(Snapshot())) && Snapshot() == Popped(old(Snapshot()))
      ensures woken == None ==> Snapshot() == old(Snapshot())
    {
      if ready == [] {
        if waits == map[] && inflight == {} { return Some(-1); }
        return None;
      }
      woken := Some(ready[0]);
      ready := ready[1..];
    }

    /** The rest of `poll` once the wait returned `events`: park entries, then results. */
    method PollFinish(events: seq<Fid>) returns (woken: Fid)
      modifies this
      ensures var h := Drained(EventsSeen(old(Snapshot()).(notified := false), events));
              woken == Woken(h) && Snapshot() == Popped(h)
    {
      notified := false;
      ghost var start := Snapshot();
      for i := 0 to |events|
        invariant EventsSeen(Snapshot(), events[i..]) == EventsSeen(start, events)
      {
        assert events[i..][0] == events[i] && events[i..][1..] == events[i + 1..];
        var fid := events[i];
        if fid in waits {
          watched := watched - {waits[fid]};
          waits := waits - {fid};
          ready := ready + [fid];
        }
      }
      ghost var seen := Snapshot();
      while completions != []
        invariant Drained(Snapshot()) == Drained(seen)
        decreases |completions|
      {
        var c := completions[0];
        completions := completions[1..];
        inflight := inflight - {c.fid};
        if c.fid in discarded {
          discarded := discarded - {c.fid};
        } else {
          done := done[c.fid := c.result];
          ready := ready + [c.fid];
        }
      }
      if ready == [] { return -1; }
      woken := ready[0];
      ready := ready[1..];
    }

    method Unwatch(fid: Fid)
      modifies this
      ensures Snapshot() == Unwatched(old(Snapshot()), fid)
    {
      if fid in waits {
        watched := watched - {waits[fid]};
        waits := waits - {fid};
        return;
      }
      if fid in inflight {
        discarded := discarded + {fid};
      } else {
        done := done - {fid};
      }
    }
  }
}
