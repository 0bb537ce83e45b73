/**
 What one run of the dispatch loop of `Timer::Advance` means, without the heap: a set of pending
 events of which the earliest is taken while it is due. Callbacks are arbitrary: the k-th one that is
 invoked answers with the calls it makes on the scheduler, which may depend on everything it is given.
 */
module DispatchSpec {
  import opened EventHeap

  /** A call a callback makes on `Timing` for the core that is being advanced. */
  datatype Request =
    | Schedule(delay: int, kind: string, userData: nat)
    | Unschedule(kind: string, userData: nat)
    | Remove(kind: string)

  /** One pass through the loop: the event taken and the `cycles_late` argument of its callback. */
  datatype Dispatch = Dispatch(event: Event, cyclesLate: int)

  /** `handlers` are the event types that have a callback; `respond(k, e, late)` is what the k-th pass asks for. */
  datatype Callbacks = Callbacks(handlers: set<string>, respond: (nat, Event, int) -> seq<Request>)

  /**
   The state of the loop. `scheduled` and `removed` remember every event that was ever put into or
   cancelled from `pending` since the loop began.
   */
  datatype Run = Run(pending: set<Event>, nextFifo: nat, now: int, fired: seq<Dispatch>,
                     scheduled: set<Event>, removed: set<Event>)

  /** `static_cast<int>` of a 64-bit value. */
  function ToInt32(x: int): (r: int)
    ensures -0x8000_0000 <= r < 0x8000_0000 && (x - r) % 0x1_0000_0000 == 0
    ensures -0x8000_0000 <= x < 0x8000_0000 ==> r == x
    ensures x >= 0 ==> r <= x
  {
    (x + 0x8000_0000) % 0x1_0000_0000 - 0x8000_0000
  }

  /** Numbers handed out by `event_fifo_id` are distinct and below its current value. */
  ghost predicate Numbered(events: set<Event>, nextFifo: nat) {
    && (forall e :: e in events ==> e.fifoOrder < nextFifo)
    && (forall e, f :: e in events && f in events && e.fifoOrder == f.fifoOrder ==> e == f)
  }

  predicate Matches(e: Event, request: Request) {
    match request
    case Schedule(_, _, _) => false
    case Unschedule(kind, userData) => e.kind == kind && e.userData == userData
    case Remove(kind) => e.kind == kind
  }

  function Apply(r: Run, request: Request): Run {
    match request
    case Schedule(delay, kind, userData) =>
      var e := Event(r.now + delay, r.nextFifo, userData, kind);
      r.(pending := r.pending + {e}, nextFifo := r.nextFifo + 1, scheduled := r.scheduled + {e})
    case _ =>
      var gone := set e | e in r.pending && Matches(e, request);
      r.(pending := r.pending - gone, removed := r.removed + gone)
  }

  function ApplyAll(r: Run, requests: seq<Request>): Run
    decreases |requests|
  {
    if requests == [] then r else ApplyAll(Apply(r, requests[0]), requests[1..])
  }

  ghost predicate IsEarliest(e: Event, events: set<Event>) {
    e in events && forall f :: f in events ==> !Earlier(f, e)
  }

  lemma {:induction false} EarliestExists(events: set<Event>)
    requires events != {}
    ensures exists e :: IsEarliest(e, events)
    decreases |events|
  {
    var x :| x in events;
    if events == {x} {
      assert IsEarliest(x, events);
    } else {
      assert events - {x} != {};
      EarliestExists(events - {x});
      var m :| IsEarliest(m, events - {x});
      var best := if Earlier(x, m) then x else m;
      assert forall f :: f in events ==> f == x || f in events - {x};
      assert IsEarliest(best, events);
    }
  }

  ghost function Earliest(events: set<Event>): (e: Event)
    requires events != {}
    ensures IsEarliest(e, events)
  {
    EarliestExists(events);
    var e :| IsEarliest(e, events);
    e
  }

  /** The loop condition. */
  ghost predicate Due(r: Run) {
    r.pending != {} && Earliest(r.pending).time <= r.now
  }

  /** What the callback of an event asks for, if there is one. */
  function Answer(cb: Callbacks, k: nat, d: Dispatch): seq<Request> {
    if d.event.kind in cb.handlers then cb.respond(k, d.event, d.cyclesLate) else []
  }

  function Requests(cb: Callbacks, k: nat, e: Event, now: int): seq<Request> {
    Answer(cb, k, Dispatch(e, ToInt32(now - e.time)))
  }

  /** The event leaves the queue before its callback is invoked. */
  function Taken(r: Run, e: Event): Run {
    r.(pending := r.pending - {e}, fired := r.fired + [Dispatch(e, ToInt32(r.now - e.time))])
  }

  /** One pass. */
  function Take(r: Run, cb: Callbacks, e: Event): Run {
    ApplyAll(Taken(r, e), Requests(cb, |r.fired|, e, r.now))
  }

  /** At most `n` passes of the loop. */
  ghost function Passes(r: Run, cb: Callbacks, n: nat): Run {
    if n == 0 then r
    else
      var before := Passes(r, cb, n - 1);
      if Due(before) then Take(before, cb, Earliest(before.pending)) else before
  }

  /** The loop has run to its exit from `r` and `done` is the outcome. */
  ghost predicate RunsTo(r: Run, cb: Callbacks, done: Run) {
    exists n: nat :: done == Passes(r, cb, n) && !Due(done)
  }

  /** The loop reaches its exit. */
  ghost predicate Terminates(r: Run, cb: Callbacks) {
    exists done :: RunsTo(r, cb, done)
  }

  /** No callback schedules an event before the one it handles; a delay of zero or more is enough. */
  ghost predicate NeverBackdates(cb: Callbacks, now: int) {
    forall k: nat, e: Event, i: int ::
      e.time <= now && 0 <= i < |Requests(cb, k, e, now)| && Requests(cb, k, e, now)[i].Schedule? ==>
        e.time <= now + Requests(cb, k, e, now)[i].delay
  }

  /** Every event a callback schedules is strictly later than the event it handles. */
  ghost predicate ReschedulesLater(cb: Callbacks, now: int) {
    forall k: nat, e: Event, i: int ::
      e.time <= now && 0 <= i < |Requests(cb, k, e, now)| && Requests(cb, k, e, now)[i].Schedule? ==>
        e.time < now + Requests(cb, k, e, now)[i].delay
  }

  function FiredEvents(fired: seq<Dispatch>): set<Event> {
    set i | 0 <= i < |fired| :: fired[i].event
  }

  function Start(pending: set<Event>, nextFifo: nat, now: int): Run {
    Run(pending, nextFifo, now, [], {}, {})
  }

  /** What holds between any two passes of a loop that began with the events `initial`. */
  ghost predicate Accounted(r: Run, initial: set<Event>) {
    && Numbered(initial + r.scheduled, r.nextFifo)
    && FiredEvents(r.fired) + r.pending + r.removed == initial + r.scheduled
    && r.pending !! r.removed
    && FiredEvents(r.fired) !! (r.pending + r.removed)
    && (forall i :: 0 <= i < |r.fired| ==>
          r.fired[i].event.time <= r.now && r.fired[i].cyclesLate == ToInt32(r.now - r.fired[i].event.time))
    && (forall i, j :: 0 <= i < j < |r.fired| ==> r.fired[i].event != r.fired[j].event)
  }

  /** Fired events in strictly increasing order, all of them earlier than everything that is pending. */
  ghost predicate InOrder(r: Run) {
    && (forall i, j :: 0 <= i < j < |r.fired| ==> Earlier(r.fired[i].event, r.fired[j].event))
    && (forall i, e :: 0 <= i < |r.fired| && e in r.pending ==> Earlier(r.fired[i].event, e))
  }

  lemma FiredSnoc(fired: seq<Dispatch>, d: Dispatch)
    ensures FiredEvents(fired + [d]) == FiredEvents(fired) + {d.event}
  {
    var all := fired + [d];
    assert all[|fired|] == d;
    assert forall i :: 0 <= i < |fired| ==> all[i] == fired[i];
    forall e | e in FiredEvents(fired)
      ensures e in FiredEvents(all)
    {
      var i :| 0 <= i < |fired| && fired[i].event == e;
      assert all[i].event == e;
    }
  }

  lemma ApplyAccounted(r: Run, request: Request, initial: set<Event>)
    requires Accounted(r, initial)
    ensures Accounted(Apply(r, request), initial)
    ensures Apply(r, request).fired == r.fired && Apply(r, request).now == r.now
  {
    var s := Apply(r, request);
    match request {
      case Schedule(delay, kind, userData) =>
        var e := Event(r.now + delay, r.nextFifo, userData, kind);
        assert e !in initial + r.scheduled;
        assert initial + s.scheduled == initial + r.scheduled + {e};
      case _ =>
    }
  }

  lemma {:induction false} ApplyAllAccounted(r: Run, requests: seq<Request>, initial: set<Event>)
    requires Accounted(r, initial)
    ensures Accounted(ApplyAll(r, requests), initial)
    ensures ApplyAll(r, requests).fired == r.fired && ApplyAll(r, requests).now == r.now
    decreases |requests|
  {
    if requests != [] {
      ApplyAccounted(r, requests[0], initial);
      ApplyAllAccounted(Apply(r, requests[0]), requests[1..], initial);
    }
  }

  lemma TakeAccounted(r: Run, cb: Callbacks, e: Event, initial: set<Event>)
    requires Accounted(r, initial) && e in r.pending && e.time <= r.now
    ensures Accounted(Take(r, cb, e), initial)
    ensures Take(r, cb, e).now == r.now
    ensures Take(r, cb, e).fired == r.fired + [Dispatch(e, ToInt32(r.now - e.time))]
  {
    TakenAccounted(r, e, initial);
    ApplyAllAccounted(Taken(r, e), Requests(cb, |r.fired|, e, r.now), initial);
  }

  lemma TakenAccounted(r: Run, e: Event, initial: set<Event>)
    requires Accounted(r, initial) && e in r.pending && e.time <= r.now
    ensures Accounted(Taken(r, e), initial)
  {
    FiredSnoc(r.fired, Dispatch(e, ToInt32(r.now - e.time)));
    forall i | 0 <= i < |r.fired|
      ensures r.fired[i].event != e
    {
      assert r.fired[i].event in FiredEvents(r.fired);
    }
  }

  /** Scheduling from `bound` on, and removing, keep everything pending after the events fired so far. */
  lemma {:induction false} ApplyAllInOrder(r: Run, requests: seq<Request>, bound: int)
    requires InOrder(r)
    requires forall i :: 0 <= i < |r.fired| ==> r.fired[i].event.time <= bound && r.fired[i].event.fifoOrder < r.nextFifo
    requires forall i :: 0 <= i < |requests| && requests[i].Schedule? ==> bound <= r.now + requests[i].delay
    ensures InOrder(ApplyAll(r, requests))
    decreases |requests|
  {
    if requests != [] {
      assert requests[0] == requests[..1][0];
      ApplyAllInOrder(Apply(r, requests[0]), requests[1..], bound);
    }
  }

  lemma TakeInOrder(r: Run, cb: Callbacks, initial: set<Event>)
    requires Accounted(r, initial) && InOrder(r) && Due(r) && NeverBackdates(cb, r.now)
    ensures InOrder(Take(r, cb, Earliest(r.pending)))
  {
    var e := Earliest(r.pending);
    var taken := Taken(r, e);
    assert forall f :: f in r.pending && f != e ==> Earlier(e, f);
    assert InOrder(taken);
    forall i | 0 <= i < |taken.fired|
      ensures taken.fired[i].event.time <= e.time && taken.fired[i].event.fifoOrder < r.nextFifo
    {
      if i < |r.fired| {
        assert taken.fired[i].event == r.fired[i].event;
        assert r.fired[i].event in FiredEvents(r.fired);
      }
    }
    ApplyAllInOrder(taken, Requests(cb, |r.fired|, e, r.now), e.time);
  }

  /** Every scheduled event is in exactly one place after any number of passes, whatever the callbacks do. */
  lemma {:induction false} PassesAccounted(initial: set<Event>, nextFifo: nat, now: int, cb: Callbacks, n: nat)
    requires Numbered(initial, nextFifo)
    ensures Accounted(Passes(Start(initial, nextFifo, now), cb, n), initial)
    ensures Passes(Start(initial, nextFifo, now), cb, n).now == now
  {
    if n > 0 {
      PassesAccounted(initial, nextFifo, now, cb, n - 1);
      var before := Passes(Start(initial, nextFifo, now), cb, n - 1);
      if Due(before) {
        TakeAccounted(before, cb, Earliest(before.pending), initial);
      }
    } else {
      assert initial + {} == initial;
    }
  }

  /** Events fire in strictly increasing `(time, fifoOrder)` order, loop finished or not. */
  lemma {:induction false} FiresInOrder(initial: set<Event>, nextFifo: nat, now: int, cb: Callbacks, n: nat)
    requires Numbered(initial, nextFifo) && NeverBackdates(cb, now)
    ensures InOrder(Passes(Start(initial, nextFifo, now), cb, n))
  {
    if n > 0 {
      FiresInOrder(initial, nextFifo, now, cb, n - 1);
      PassesAccounted(initial, nextFifo, now, cb, n - 1);
      var before := Passes(Start(initial, nextFifo, now), cb, n - 1);
      if Due(before) {
        TakeInOrder(before, cb, initial);
      }
    }
  }

  /**
   When the loop ends, the events that fired are exactly those due among all that were queued at the
   start or scheduled meanwhile, less the cancelled ones, each exactly once; what stays is in the future.
   */
  lemma FiresExactlyTheDueOnes(initial: set<Event>, nextFifo: nat, now: int, cb: Callbacks, done: Run)
    requires Numbered(initial, nextFifo)
    requires RunsTo(Start(initial, nextFifo, now), cb, done)
    ensures FiredEvents(done.fired) == set e | e in (initial + done.scheduled) - done.removed && e.time <= now
    ensures done.pending == set e | e in (initial + done.scheduled) - done.removed && e.time > now
    ensures forall i, j :: 0 <= i < j < |done.fired| ==> done.fired[i].event != done.fired[j].event
  {
    var n: nat :| done == Passes(Start(initial, nextFifo, now), cb, n) && !Due(done);
    PassesAccounted(initial, nextFifo, now, cb, n);
    forall e | e in done.pending
      ensures e.time > now
    {
      assert !Earlier(e, Earliest(done.pending));
    }
  }

  /** How far the earliest due event lies in the past. */
  ghost function Backlog(r: Run): nat {
    if Due(r) then r.now - Earliest(r.pending).time + 1 else 0
  }

  /** How many pending events share the earliest time. */
  ghost function Simultaneous(r: Run): nat {
    if r.pending == {} then 0 else |set e | e in r.pending && e.time == Earliest(r.pending).time|
  }

  /** Requests that lie after `time` leave the events at or before `time` alone, apart from removals. */
  lemma {:induction false} ApplyAllAddsLater(r: Run, requests: seq<Request>, time: int)
    requires forall i :: 0 <= i < |requests| && requests[i].Schedule? ==> time < r.now + requests[i].delay
    ensures forall e :: e in ApplyAll(r, requests).pending && e.time <= time ==> e in r.pending
    ensures ApplyAll(r, requests).now == r.now
    decreases |requests|
  {
    if requests != [] {
      assert requests[0] == requests[..1][0];
      ApplyAllAddsLater(Apply(r, requests[0]), requests[1..], time);
    }
  }

  lemma PassMakesProgress(r: Run, cb: Callbacks)
    requires Due(r) && ReschedulesLater(cb, r.now)
    ensures var next := Take(r, cb, Earliest(r.pending));
            next.now == r.now &&
            (Backlog(next) < Backlog(r) || (Backlog(next) == Backlog(r) && Simultaneous(next) < Simultaneous(r)))
  {
    var e := Earliest(r.pending);
    var next := Take(r, cb, e);
    var taken := Taken(r, e);
    ApplyAllAddsLater(taken, Requests(cb, |r.fired|, e, r.now), e.time);
    if Due(next) {
      var f := Earliest(next.pending);
      if f.time <= e.time {
        assert f in r.pending && f.time == e.time;
        var now := set x | x in r.pending && x.time == e.time;
        var later := set x | x in next.pending && x.time == e.time;
        assert later <= now - {e};
        CardinalityMonotone(later, now - {e});
      }
    }
  }

  lemma {:induction false} CardinalityMonotone<T>(a: set<T>, b: set<T>)
    requires a <= b
    ensures |a| <= |b|
    decreases a
  {
    if a != {} {
      var x :| x in a;
      CardinalityMonotone(a - {x}, b - {x});
    }
  }

  /** The loop ends when every callback schedules strictly later than the event it handles. */
  lemma {:induction false} LoopEnds(start: Run, cb: Callbacks, n: nat)
    requires ReschedulesLater(cb, Passes(start, cb, n).now)
    ensures Terminates(start, cb)
    decreases Backlog(Passes(start, cb, n)), Simultaneous(Passes(start, cb, n))
  {
    var r := Passes(start, cb, n);
    if Due(r) {
      PassMakesProgress(r, cb);
      assert Passes(start, cb, n + 1) == Take(r, cb, Earliest(r.pending));
      LoopEnds(start, cb, n + 1);
    } else {
      assert RunsTo(start, cb, r);
    }
  }

  /** Without that condition it need not end: here one event keeps rescheduling itself with delay zero. */
  lemma {:induction false} ZeroDelayNeverEnds(now: int, fifo: nat, cb: Callbacks, n: nat)
    requires cb.handlers == {"tick"} && cb.respond == ((k: nat, e: Event, late: int) => [Schedule(0, "tick", 0)])
    ensures var r := Passes(Start({Event(now, fifo, 0, "tick")}, fifo + 1, now), cb, n);
            r.now == now && r.pending == {Event(now, fifo + n, 0, "tick")} && r.nextFifo == fifo + n + 1 && Due(r)
  {
    if n > 0 {
      ZeroDelayNeverEnds(now, fifo, cb, n - 1);
      var before := Passes(Start({Event(now, fifo, 0, "tick")}, fifo + 1, now), cb, n - 1);
      var e := Earliest(before.pending);
      var taken := before.(pending := {}, fired := before.fired + [Dispatch(e, ToInt32(now - e.time))]);
      assert before.pending - {e} == {};
      var requests := Requests(cb, |before.fired|, e, now);
      assert requests == [Schedule(0, "tick", 0)];
      assert ApplyAll(taken, requests) == Apply(taken, requests[0]);
      assert Take(before, cb, e).pending == {Event(now, fifo + n, 0, "tick")};
    }
  }

  lemma {:induction false} PassesStopped(r: Run, cb: Callbacks, n: nat, m: nat)
    requires n <= m && !Due(Passes(r, cb, n))
    ensures Passes(r, cb, m) == Passes(r, cb, n)
    decreases m
  {
    if n < m {
      PassesStopped(r, cb, n, m - 1);
    }
  }

  /** A single event without a callback: one pass. */
  lemma LoneEventFires(r: Run, cb: Callbacks, e: Event)
    requires r.pending == {e} && e.time <= r.now && cb.handlers == {}
    ensures RunsTo(r, cb, Taken(r, e))
  {
    assert Earliest(r.pending) == e && Take(r, cb, e) == Taken(r, e);
    assert Passes(r, cb, 0) == r;
    assert Passes(r, cb, 1) == Taken(r, e);
    assert Taken(r, e).pending == {};
  }

  /** A loop with passes still to come has not made the number of passes after which it stops. */
  lemma PassesToCome(r: Run, cb: Callbacks, n: nat, total: nat)
    requires Due(Passes(r, cb, n)) && !Due(Passes(r, cb, total))
    ensures n < total
  {
    if total <= n {
      PassesStopped(r, cb, total, n);
    }
  }

  /** The outcome of a finished loop is unique. */
  lemma OutcomeUnique(r: Run, cb: Callbacks, a: Run, b: Run)
    requires RunsTo(r, cb, a) && RunsTo(r, cb, b)
    ensures a == b
  {
    var n: nat :| a == Passes(r, cb, n) && !Due(a);
    var m: nat :| b == Passes(r, cb, m) && !Due(b);
    if n <= m {
      PassesStopped(r, cb, n, m);
    } else {
      PassesStopped(r, cb, m, n);
    }
  }
}
