/**
 `Core::Timing`: one `Timer` per emulated core with its event queue, its inbox for events scheduled
 from elsewhere and the bookkeeping of the running slice. The classes carry the source's fields; what
 each method does is a function of `TimerState`, about which the deadline properties are proved.
 */
module CoreTiming {
  import opened Common
  import opened EventHeap
  import opened DispatchSpec

  const BASE_CLOCK_RATE_ARM11 := 268111856
  const MAX_SLICE_LENGTH := BASE_CLOCK_RATE_ARM11 / 234

  // ---------------------------------------------------------------- specification

  datatype TimerState = TimerState(pending: set<Event>, nextFifo: nat, inbox: seq<Event>, sane: bool,
                                   slice: int, downcount: int, executed: int, idled: int)

  function Ticks(s: TimerState): int {
    s.executed + if s.sane then 0 else s.slice - s.downcount
  }

  /** `ForceExceptionCheck`: end the slice after at most `cycles` more cycles. */
  function Trim(s: TimerState, cycles: int): TimerState {
    var c := if cycles < 0 then 0 else cycles;
    if s.downcount > c then s.(slice := s.slice - (s.downcount - c), downcount := c) else s
  }

  function AddEvent(s: TimerState, delay: int, kind: string, userData: nat): TimerState {
    var trimmed := if s.sane then s else Trim(s, delay);
    trimmed.(pending := s.pending + {Event(Ticks(s) + delay, s.nextFifo, userData, kind)}, nextFifo := s.nextFifo + 1)
  }

  function Post(s: TimerState, delay: int, kind: string, userData: nat): TimerState {
    s.(inbox := s.inbox + [Event(Ticks(s) + delay, 0, userData, kind)])
  }

  function Cancel(s: TimerState, request: Request): TimerState {
    s.(pending := set e | e in s.pending && !Matches(e, request))
  }

  function Served(s: TimerState, request: Request): TimerState {
    if request.Schedule? then AddEvent(s, request.delay, request.kind, request.userData) else Cancel(s, request)
  }

  /** `MoveEvents`: inbox events get the next fifo numbers in their order of arrival. */
  function Numbering(inbox: seq<Event>, nextFifo: nat): set<Event> {
    set i | 0 <= i < |inbox| :: inbox[i].(fifoOrder := nextFifo + i)
  }

  function Drain(s: TimerState): TimerState {
    s.(pending := s.pending + Numbering(s.inbox, s.nextFifo), nextFifo := s.nextFifo + |s.inbox|, inbox := [])
  }

  /** The oldest inbox event moves to the queue. */
  function DrainOne(s: TimerState): TimerState
    requires s.inbox != []
  {
    s.(pending := s.pending + {s.inbox[0].(fifoOrder := s.nextFifo)}, nextFifo := s.nextFifo + 1, inbox := s.inbox[1..])
  }

  /** The dispatch loop of `Advance` starts here. */
  function AdvanceStart(s: TimerState): Run {
    var d := Drain(s);
    Start(d.pending, d.nextFifo, s.executed + s.slice - s.downcount)
  }

  /** The timer after the dispatch loop ended in `done`. */
  function AdvanceEnd(done: Run): TimerState {
    TimerState(done.pending, done.nextFifo, [], false, 0, 0, done.now, 0)
  }

  ghost function NextSlice(s: TimerState, maxSliceLength: int): TimerState {
    var length := if s.pending == {} then maxSliceLength
                  else var room := Earliest(s.pending).time - s.executed;
                       ToInt32(if maxSliceLength < room then maxSliceLength else room);
    s.(slice := length, downcount := length)
  }

  /** `cpu_clock_scale`, without the rounding of a `double`. */
  type Scale = s: real | s >= 0.0 witness 1.0

  /** What `AddTicks` takes off the downcount; the cast drops the fraction. */
  function Scaled(ticks: nat, scale: Scale): (cycles: nat)
    ensures cycles as real <= ticks as real * scale < cycles as real + 1.0
    ensures scale == 1.0 ==> cycles == ticks
  {
    var product := ticks as real * scale;
    product.Floor
  }

  function IdleStep(s: TimerState): TimerState {
    s.(idled := (s.idled + s.downcount) % 0x1_0000_0000_0000_0000, downcount := 0)
  }

  // ---------------------------------------------------------------- properties of the specification

  ghost predicate WellNumbered(s: TimerState) {
    Numbered(s.pending, s.nextFifo)
  }

  /** The slice that is running ends no later than any event in the core's own queue. */
  ghost predicate DeadlineHolds(s: TimerState) {
    !s.sane && forall e :: e in s.pending ==> s.executed + s.slice <= e.time
  }

  /** Anything that can happen to a timer outside `Advance`, and `Advance` itself. */
  datatype Action =
    | AddTicks(ticks: nat)
    | Idle
    | ForceExceptionCheck(cycles: int)
    | ScheduleHere(wait: nat, kind: string, userData: nat)
    | ScheduleFromElsewhere(delay: int, kind: string, userData: nat)
    | CancelEvents(request: Request)
    | Advance(cb: Callbacks, done: Run)
    | AdvanceAndSetSlice(cb: Callbacks, done: Run, maxSliceLength: int)

  ghost predicate Possible(s: TimerState, a: Action) {
    match a
    case Advance(cb, done) => RunsTo(AdvanceStart(s), cb, done)
    case AdvanceAndSetSlice(cb, done, maxSliceLength) => RunsTo(AdvanceStart(s), cb, done) && -0x8000_0000 <= maxSliceLength
    case _ => true
  }

  ghost function Act(s: TimerState, a: Action): TimerState {
    match a
    case AddTicks(ticks) => s.(downcount := s.downcount - ticks)
    case Idle => IdleStep(s)
    case ForceExceptionCheck(cycles) => Trim(s, cycles)
    case ScheduleHere(delay, kind, userData) => AddEvent(s, delay, kind, userData)
    case ScheduleFromElsewhere(delay, kind, userData) => Post(s, delay, kind, userData)
    case CancelEvents(request) => Cancel(s, request)
    case Advance(_, done) => AdvanceEnd(done)
    case AdvanceAndSetSlice(_, done, maxSliceLength) => NextSlice(AdvanceEnd(done), maxSliceLength)
  }

  /** `states` is a run of a timer under `actions`. */
  ghost predicate IsRun(states: seq<TimerState>, actions: seq<Action>) {
    && |states| == |actions| + 1
    && forall i :: 0 <= i < |actions| ==>
         Possible(states[i], actions[i]) && states[i + 1] == Act(states[i], actions[i])
  }

  predicate IsAdvance(a: Action) {
    a.Advance? || a.AdvanceAndSetSlice?
  }

  lemma DrainNumbered(s: TimerState)
    requires WellNumbered(s)
    ensures WellNumbered(Drain(s))
  {
  }

  /** After the dispatch loop every queued event is strictly in the future. */
  lemma AdvanceLeavesFuture(s: TimerState, cb: Callbacks, done: Run)
    requires WellNumbered(s) && RunsTo(AdvanceStart(s), cb, done)
    ensures done.now == s.executed + s.slice - s.downcount
    ensures forall e :: e in done.pending ==> done.now < e.time
    ensures Numbered(done.pending, done.nextFifo)
  {
    var start := AdvanceStart(s);
    DrainNumbered(s);
    FiresExactlyTheDueOnes(start.pending, start.nextFifo, start.now, cb, done);
    var n: nat :| done == Passes(start, cb, n) && !Due(done);
    PassesAccounted(start.pending, start.nextFifo, start.now, cb, n);
  }

  /**
   `Advance` fires the events due at its new time in strictly increasing order, each once: all that were
   queued, in the inbox or scheduled by the callbacks themselves, unless a callback cancelled them.
   */
  lemma AdvanceFiresTheDueInOrder(s: TimerState, cb: Callbacks, done: Run)
    requires WellNumbered(s) && RunsTo(AdvanceStart(s), cb, done)
    requires NeverBackdates(cb, done.now)
    ensures forall i, j :: 0 <= i < j < |done.fired| ==>
              var a, b := done.fired[i].event, done.fired[j].event;
              a.time < b.time || (a.time == b.time && a.fifoOrder < b.fifoOrder)
    ensures FiredEvents(done.fired) ==
            set e | e in (s.pending + Numbering(s.inbox, s.nextFifo) + done.scheduled) - done.removed && e.time <= done.now
  {
    var start := AdvanceStart(s);
    DrainNumbered(s);
    AdvanceLeavesFuture(s, cb, done);
    FiresExactlyTheDueOnes(start.pending, start.nextFifo, start.now, cb, done);
    var n: nat :| done == Passes(start, cb, n) && !Due(done);
    FiresInOrder(start.pending, start.nextFifo, start.now, cb, n);
  }

  lemma ActKeepsNumbers(s: TimerState, a: Action)
    requires WellNumbered(s) && Possible(s, a)
    ensures WellNumbered(Act(s, a))
  {
    match a {
      case Advance(cb, done) => AdvanceLeavesFuture(s, cb, done);
      case AdvanceAndSetSlice(cb, done, _) => AdvanceLeavesFuture(s, cb, done);
      case _ =>
    }
  }

  lemma ActKeepsDeadline(s: TimerState, a: Action)
    requires WellNumbered(s) && Possible(s, a)
    requires DeadlineHolds(s) || IsAdvance(a)
    ensures DeadlineHolds(Act(s, a))
  {
    match a {
      case Advance(cb, done) =>
        AdvanceLeavesFuture(s, cb, done);
      case AdvanceAndSetSlice(cb, done, maxSliceLength) =>
        AdvanceLeavesFuture(s, cb, done);
        forall e | e in done.pending
          ensures Earliest(done.pending).time <= e.time
        {
          assert !Earlier(e, Earliest(done.pending));
        }
      case _ =>
    }
  }

  /** From the first `Advance` on, no run ever lets a slice reach beyond a queued event. */
  lemma {:induction false} SliceNeverPassesAnEvent(states: seq<TimerState>, actions: seq<Action>, first: nat, i: nat)
    requires IsRun(states, actions) && WellNumbered(states[0])
    requires first < i <= |actions| && IsAdvance(actions[first])
    ensures WellNumbered(states[i]) && DeadlineHolds(states[i])
    decreases i
  {
    NumbersAlongRun(states, actions, i - 1);
    ActKeepsNumbers(states[i - 1], actions[i - 1]);
    if first < i - 1 {
      SliceNeverPassesAnEvent(states, actions, first, i - 1);
    }
    ActKeepsDeadline(states[i - 1], actions[i - 1]);
  }

  lemma {:induction false} NumbersAlongRun(states: seq<TimerState>, actions: seq<Action>, i: nat)
    requires IsRun(states, actions) && WellNumbered(states[0]) && i <= |actions|
    ensures WellNumbered(states[i])
  {
    if i > 0 {
      NumbersAlongRun(states, actions, i - 1);
      ActKeepsNumbers(states[i - 1], actions[i - 1]);
    }
  }

  /** An event that was in the queue when `Advance` began fires late by no more than `downcount` is below zero. */
  lemma LatenessBound(s: TimerState, cb: Callbacks, done: Run, i: nat)
    requires WellNumbered(s) && DeadlineHolds(s) && RunsTo(AdvanceStart(s), cb, done)
    requires i < |done.fired| && done.fired[i].event in s.pending
    ensures 0 <= done.now - done.fired[i].event.time <= -s.downcount
  {
    AdvanceLeavesFuture(s, cb, done);
    var start := AdvanceStart(s);
    DrainNumbered(s);
    var n: nat :| done == Passes(start, cb, n) && !Due(done);
    PassesAccounted(start.pending, start.nextFifo, start.now, cb, n);
  }

  /**
   `ForceExceptionCheck` leaves at most so many cycles of the slice, none if they are negative, and the time as it
   is; nothing but slice and downcount changes.
   */
  lemma TrimKeepsTime(s: TimerState, cycles: int)
    ensures Ticks(Trim(s, cycles)) == Ticks(s)
    ensures var limit := if cycles < 0 then 0 else cycles;
            Trim(s, cycles).downcount == if s.downcount < limit then s.downcount else limit
    ensures Trim(s, cycles).slice - Trim(s, cycles).downcount == s.slice - s.downcount
    ensures Trim(s, cycles) == s.(slice := Trim(s, cycles).slice, downcount := Trim(s, cycles).downcount)
  {
  }

  // ---------------------------------------------------------------- time

  /** By how much one action moves the time on: the cycles executed, or for `Idle` the rest of the slice. */
  function Elapsed(before: TimerState, a: Action): int {
    match a
    case AddTicks(ticks) => ticks
    case Idle => before.downcount
    case _ => 0
  }

  function ElapsedAlong(states: seq<TimerState>, actions: seq<Action>, i: nat, j: nat): int
    requires i <= j <= |actions| <= |states|
  {
    if i == j then 0 else ElapsedAlong(states, actions, i, j - 1) + Elapsed(states[j - 1], actions[j - 1])
  }

  /** Outside `Advance` time moves on by what is executed or idled away, and by nothing else. */
  lemma ActMovesTime(s: TimerState, a: Action)
    requires !s.sane && WellNumbered(s) && Possible(s, a)
    ensures !Act(s, a).sane && Ticks(Act(s, a)) == Ticks(s) + Elapsed(s, a)
  {
    match a {
      case Advance(cb, done) => AdvanceLeavesFuture(s, cb, done);
      case AdvanceAndSetSlice(cb, done, _) => AdvanceLeavesFuture(s, cb, done);
      case ScheduleHere(delay, _, _) => TrimKeepsTime(s, delay);
      case ForceExceptionCheck(cycles) => TrimKeepsTime(s, cycles);
      case _ =>
    }
  }

  /** So along every run, across any number of `Advance`s, the ticks are those at its start plus all that was added. */
  lemma {:induction false} TimeAlongRun(states: seq<TimerState>, actions: seq<Action>, i: nat, j: nat)
    requires IsRun(states, actions) && WellNumbered(states[0]) && i <= j <= |actions| && !states[i].sane
    ensures !states[j].sane && Ticks(states[j]) == Ticks(states[i]) + ElapsedAlong(states, actions, i, j)
    decreases j
  {
    if i < j {
      TimeAlongRun(states, actions, i, j - 1);
      NumbersAlongRun(states, actions, j - 1);
      ActMovesTime(states[j - 1], actions[j - 1]);
    }
  }

  /** Events from the inbox keep their order, and come after those queued: of several for one time the first to arrive fires first. */
  lemma InboxKeepsOrder(s: TimerState, i: nat, j: nat)
    requires WellNumbered(s) && i < j < |s.inbox|
    ensures exists e, f :: e in Drain(s).pending && f in Drain(s).pending && e.fifoOrder < f.fifoOrder
                           && e == s.inbox[i].(fifoOrder := e.fifoOrder) && f == s.inbox[j].(fifoOrder := f.fifoOrder)
                           && forall g :: g in s.pending ==> g.fifoOrder < e.fifoOrder
  {
    var e, f := s.inbox[i].(fifoOrder := s.nextFifo + i), s.inbox[j].(fifoOrder := s.nextFifo + j);
    assert e in Drain(s).pending && f in Drain(s).pending;
  }

  /**
   After an `Advance` the next slice is the longest that keeps the deadline: all that was asked for, or up to an
   event; as long as that fits the 32 bits it is cast to.
   */
  lemma SliceIsLongest(s: TimerState, maxSliceLength: int)
    requires forall e :: e in s.pending ==> s.executed < e.time
    requires -0x8000_0000 <= maxSliceLength < 0x8000_0000
    ensures var t := NextSlice(s, maxSliceLength);
            && t == s.(slice := t.slice, downcount := t.slice) && t.slice <= maxSliceLength
            && (forall e :: e in s.pending ==> s.executed + t.slice <= e.time)
            && (t.slice == maxSliceLength || exists e :: e in s.pending && s.executed + t.slice == e.time)
  {
    if s.pending != {} {
      var first := Earliest(s.pending);
      assert forall e :: e in s.pending ==> !Earlier(e, first);
    }
  }

  /** What `UnscheduleEvent` and `RemoveEvent` ask to be removed. */
  predicate Names(request: Request, kind: string, userData: nat) {
    || (request.Unschedule? && request.kind == kind && request.userData == userData)
    || (request.Remove? && request.kind == kind)
  }

  /**
   Scheduling with a negative delay can break the deadline: it holds afterwards exactly when the delay is
   not negative or the slice was already to end by then.
   */
  lemma DeadlineAfterScheduling(s: TimerState, delay: int, kind: string, userData: nat)
    requires DeadlineHolds(s)
    ensures DeadlineHolds(AddEvent(s, delay, kind, userData)) <==> delay >= 0 || s.downcount <= delay
  {
    var t := AddEvent(s, delay, kind, userData);
    var e := Event(Ticks(s) + delay, s.nextFifo, userData, kind);
    assert e in t.pending;
    assert forall f :: f in t.pending ==> f == e || f in s.pending;
  }

  /** For example, one cycle back at the start of a slice of ten. */
  lemma NegativeDelayBreaksDeadline()
    ensures var s := TimerState({}, 0, [], false, 10, 10, 0, 0);
            DeadlineHolds(s) && !DeadlineHolds(AddEvent(s, -1, "tick", 0))
  {
    DeadlineAfterScheduling(TimerState({}, 0, [], false, 10, 10, 0, 0), -1, "tick", 0);
  }

  /**
   `UnscheduleEvent` and `RemoveEvent` see the queue only: nothing that matches the request is left to come if
   and only if nothing that matches waits in the inbox.
   */
  lemma CancelIsCompleteIff(s: TimerState, request: Request)
    ensures (forall e :: e in Drain(Cancel(s, request)).pending ==> !Matches(e, request)) <==>
            forall i :: 0 <= i < |s.inbox| ==> !Matches(s.inbox[i], request)
  {
    forall i | 0 <= i < |s.inbox|
      ensures s.inbox[i].(fifoOrder := s.nextFifo + i) in Drain(Cancel(s, request)).pending
    {
    }
  }

  /** A cancelled inbox event that is due fires in the next `Advance`, unless a callback cancels it there. */
  lemma CancelledInboxEventFires(s: TimerState, request: Request, i: nat, cb: Callbacks, done: Run)
    requires WellNumbered(s) && i < |s.inbox| && Matches(s.inbox[i], request)
    requires RunsTo(AdvanceStart(Cancel(s, request)), cb, done) && s.inbox[i].time <= done.now
    ensures var e := s.inbox[i].(fifoOrder := s.nextFifo + i);
            Matches(e, request) && (e in FiredEvents(done.fired) || e in done.removed)
  {
    CancelledStaysInInbox(s, request, i);
    DueFires(Cancel(s, request), cb, done, s.inbox[i].(fifoOrder := s.nextFifo + i));
  }

  lemma CancelledStaysInInbox(s: TimerState, request: Request, i: nat)
    requires WellNumbered(s) && i < |s.inbox|
    ensures WellNumbered(Cancel(s, request))
    ensures s.inbox[i].(fifoOrder := s.nextFifo + i) in AdvanceStart(Cancel(s, request)).pending
  {
  }

  /** Every due event that the queue and the inbox hold when `Advance` begins fires, unless a callback cancels it. */
  lemma DueFires(s: TimerState, cb: Callbacks, done: Run, e: Event)
    requires WellNumbered(s) && RunsTo(AdvanceStart(s), cb, done)
    requires e in AdvanceStart(s).pending && e.time <= done.now
    ensures e in FiredEvents(done.fired) || e in done.removed
  {
    var start := AdvanceStart(s);
    AdvanceLeavesFuture(s, cb, done);
    DrainNumbered(s);
    FiresExactlyTheDueOnes(start.pending, start.nextFifo, start.now, cb, done);
  }

  lemma NumberingOfOne(e: Event, nextFifo: nat)
    ensures Numbering([e], nextFifo) == {e.(fifoOrder := nextFifo)}
  {
    var all := Numbering([e], nextFifo);
    assert [e][0].(fifoOrder := nextFifo + 0) in all;
    assert forall f :: f in all ==> f == e.(fifoOrder := nextFifo);
  }

  /** A timer one cycle into its slice, with an event that another core has scheduled for now. */
  function Posted(): TimerState {
    Post(TimerState({}, 0, [], false, 1, 0, 0, 0), 0, "tick", 0)
  }

  /** For example, an event that another core scheduled, and that is then removed, all the same fires. */
  lemma RemovedEventFires(cb: Callbacks)
    requires cb.handlers == {}
    ensures RunsTo(AdvanceStart(Cancel(Posted(), Remove("tick"))), cb, Run({}, 1, 1, [Dispatch(Event(1, 0, 0, "tick"), 0)], {}, {}))
  {
    var e := Event(1, 0, 0, "tick");
    PostedAndRemoved();
    OneInInbox(TimerState({}, 0, [e], false, 1, 0, 0, 0), e);
    LoneEventFires(Start({e}, 1, 1), cb, e);
    OnlyFired(e);
  }

  lemma OnlyFired(e: Event)
    requires e.time == 1
    ensures Taken(Start({e}, 1, 1), e) == Run({}, 1, 1, [Dispatch(e, 0)], {}, {})
  {
    assert {e} - {e} == {};
  }

  lemma PostedAndRemoved()
    ensures Cancel(Posted(), Remove("tick")) == TimerState({}, 0, [Event(1, 0, 0, "tick")], false, 1, 0, 0, 0)
  {
  }

  lemma OneInInbox(s: TimerState, e: Event)
    requires s.pending == {} && s.inbox == [e] && e.fifoOrder == s.nextFifo
    ensures AdvanceStart(s) == Start({e}, s.nextFifo + 1, s.executed + s.slice - s.downcount)
  {
    NumberingOfOne(e, s.nextFifo);
  }

  /** Draining the inbox in mid-slice, as saving a state does, is outside the deadline property. */
  lemma DeadlineAfterDraining(s: TimerState)
    requires DeadlineHolds(s)
    ensures DeadlineHolds(Drain(s)) <==> forall i :: 0 <= i < |s.inbox| ==> s.executed + s.slice <= s.inbox[i].time
  {
    var t := Drain(s);
    assert forall i :: 0 <= i < |s.inbox| ==> s.inbox[i].(fifoOrder := s.nextFifo + i) in t.pending;
  }

  // ---------------------------------------------------------------- the timer

  /** The body of `std::remove_if` and `erase` on the event queue. */
  method RemoveIf(q: seq<Event>, request: Request, ghost contents: set<Event>) returns (kept: seq<Event>)
    requires multiset(q) == multiset(contents)
    ensures multiset(kept) == multiset(set e | e in contents && !Matches(e, request))
    ensures |kept| == |q| ==> kept == q
    ensures |kept| <= |q|
  {
    kept := [];
    var i := 0;
    while i < |q|
      invariant 0 <= i <= |q| && |kept| <= i
      invariant |kept| == i ==> kept == q[..i]
      invariant forall e :: multiset(kept)[e] == if Matches(e, request) then 0 else multiset(q[..i])[e]
    {
      assert q[..i + 1] == q[..i] + [q[i]];
      if !Matches(q[i], request) {
        kept := kept + [q[i]];
      }
      i := i + 1;
    }
    assert q[..i] == q;
    ghost var left := set e | e in contents && !Matches(e, request);
    forall e
      ensures multiset(kept)[e] == multiset(left)[e]
    {
      assert multiset(q)[e] == multiset(contents)[e];
    }
  }

  class Timer {
    var eventQueue: seq<Event>
    var eventFifoId: nat
    var tsQueue: seq<Event>
    var isTimerSane: bool
    var sliceLength: int
    var downcount: int
    var executedTicks: int
    var idledCycles: int
    var cpuClockScale: Scale
    /** The events in `eventQueue`. */
    ghost var pending: set<Event>

    ghost predicate Valid()
      reads this`eventQueue, this`pending, this`eventFifoId
    {
      && IsHeap(eventQueue)
      && multiset(eventQueue) == multiset(pending)
      && Numbered(pending, eventFifoId)
    }

    ghost function State(): TimerState
      reads this
    {
      TimerState(pending, eventFifoId, tsQueue, isTimerSane, sliceLength, downcount, executedTicks, idledCycles)
    }

    constructor ()
      ensures Valid() && isTimerSane && cpuClockScale == 1.0
      ensures State() == TimerState({}, 0, [], true, MAX_SLICE_LENGTH, MAX_SLICE_LENGTH, 0, 0)
    {
      eventQueue, eventFifoId, tsQueue := [], 0, [];
      isTimerSane := true;
      sliceLength, downcount, executedTicks, idledCycles := MAX_SLICE_LENGTH, MAX_SLICE_LENGTH, 0, 0;
      cpuClockScale := 1.0;
      pending := {};
    }

    /** `UpdateClockSpeed`, for one timer. */
    method SetClockPercentage(percentage: nat)
      requires percentage > 0
      modifies this`cpuClockScale
      ensures forall ticks: nat :: Scaled(ticks, cpuClockScale) == 100 * ticks / percentage
    {
      cpuClockScale := 100.0 / percentage as real;
      forall ticks: nat
        ensures Scaled(ticks, cpuClockScale) == 100 * ticks / percentage
      {
        FloorOfQuotient(100 * ticks, percentage);
        assert ticks as real * (100.0 / percentage as real) == (100 * ticks) as real / percentage as real;
      }
    }

    function GetTicks(): (ticks: int)
      reads this
      ensures ticks == Ticks(State())
    {
      if isTimerSane then executedTicks else executedTicks + (sliceLength - downcount)
    }

    method AddTicks(ticks: nat)
      modifies this
      ensures State() == Act(old(State()), Action.AddTicks(Scaled(ticks, cpuClockScale)))
      ensures eventQueue == old(eventQueue) && cpuClockScale == old(cpuClockScale)
      ensures State() == old(State()).(downcount := downcount)
      ensures GetTicks() == old(GetTicks()) + if isTimerSane then 0 else Scaled(ticks, cpuClockScale)
    {
      downcount := downcount - (ticks as real * cpuClockScale).Floor;
    }

    method Idle()
      modifies this
      ensures State() == Act(old(State()), Action.Idle) && eventQueue == old(eventQueue)
      ensures State() == old(State()).(downcount := 0, idled := idledCycles)
      ensures (idledCycles - (old(idledCycles) + old(downcount))) % 0x1_0000_0000_0000_0000 == 0
      ensures !isTimerSane ==> GetTicks() == executedTicks + sliceLength
    {
      idledCycles := (idledCycles + downcount) % 0x1_0000_0000_0000_0000;
      downcount := 0;
    }

    method ForceExceptionCheck(cycles: int)
      modifies this
      ensures State() == Trim(old(State()), cycles) && eventQueue == old(eventQueue)
    {
      var limit := if cycles < 0 then 0 else cycles;
      if downcount > limit {
        sliceLength := sliceLength - (downcount - limit);
        downcount := limit;
      }
    }

    /** `emplace_back` and `push_heap`. */
    method Enqueue(e: Event)
      requires Valid() && e.fifoOrder == eventFifoId
      modifies this
      ensures Valid()
      ensures State() == old(State()).(pending := old(pending) + {e}, nextFifo := old(eventFifoId) + 1)
    {
      assert e !in pending;
      assert (eventQueue + [e])[..|eventQueue|] == eventQueue;
      eventQueue := PushHeap(eventQueue + [e]);
      eventFifoId := eventFifoId + 1;
      pending := pending + {e};
    }

    /** The branch of `Timing::ScheduleEvent` taken when this is the current timer. */
    method ScheduleHere(delay: int, kind: string, userData: nat)
      requires Valid()
      modifies this
      ensures Valid() && State() == AddEvent(old(State()), delay, kind, userData)
      ensures pending == old(pending) + {Event(old(GetTicks()) + delay, old(eventFifoId), userData, kind)}
    {
      var timeout := GetTicks() + delay;
      if !isTimerSane {
        ForceExceptionCheck(delay);
      }
      Enqueue(Event(timeout, eventFifoId, userData, kind));
    }

    /** The other branch: the event waits in the inbox. */
    method ScheduleFromElsewhere(delay: int, kind: string, userData: nat)
      requires Valid()
      modifies this
      ensures Valid() && State() == Post(old(State()), delay, kind, userData)
      ensures State() == old(State()).(inbox := old(tsQueue) + [Event(old(GetTicks()) + delay, 0, userData, kind)])
    {
      tsQueue := tsQueue + [Event(GetTicks() + delay, 0, userData, kind)];
    }

    /** What `UnscheduleEvent` and `RemoveEvent` do to each timer; the inbox is left alone. */
    method CancelEvents(request: Request)
      requires Valid()
      modifies this
      ensures Valid() && State() == Cancel(old(State()), request)
      ensures State() == old(State()).(pending := pending)
      ensures forall e :: e in pending <==> e in old(pending) && !Names(request, e.kind, e.userData)
    {
      var kept := RemoveIf(eventQueue, request, pending);
      pending := set e | e in pending && !Matches(e, request);
      if |kept| != |eventQueue| {
        eventQueue := MakeHeap(kept);
      }
    }

    method MoveOneEvent()
      requires Valid() && tsQueue != []
      modifies this
      ensures Valid() && State() == DrainOne(old(State()))
    {
      var ev := tsQueue[0].(fifoOrder := eventFifoId);
      tsQueue := tsQueue[1..];
      Enqueue(ev);
    }

    method MoveEvents()
      requires Valid()
      modifies this
      ensures Valid() && State() == Drain(old(State()))
    {
      while tsQueue != []
        invariant Valid()
        invariant Drain(State()) == Drain(old(State()))
        decreases |tsQueue|
      {
        DrainOneThenAll(State());
        MoveOneEvent();
      }
      assert Numbering([], eventFifoId) == {};
    }

    /** One call made by a callback. */
    method Serve(request: Request)
      requires Valid() && isTimerSane
      modifies this
      ensures Valid() && State() == Served(old(State()), request)
    {
      match request {
        case Schedule(delay, kind, userData) => ScheduleHere(delay, kind, userData);
        case _ => CancelEvents(request);
      }
    }

    /** `pop_heap` and `pop_back`. */
    method PopFront() returns (front: Event)
      requires Valid() && eventQueue != []
      modifies this
      ensures Valid() && IsEarliest(front, old(pending))
      ensures State() == old(State()).(pending := old(pending) - {front})
    {
      front := eventQueue[0];
      FrontIsTheEarliest(eventQueue, pending);
      var popped := PopHeap(eventQueue);
      assert popped == popped[..|popped| - 1] + [front];
      eventQueue := popped[..|popped| - 1];
      WithoutOne(pending, front);
      pending := pending - {front};
    }

    /**
     Runs the callbacks of all due events. `fired` lists the callbacks that were due, in order. The loop has to
     end, which `LoopEnds` shows of all callbacks that schedule strictly later than the event they handle.
     */
    method Advance(cb: Callbacks) returns (fired: seq<Dispatch>)
      requires Valid()
      requires Terminates(AdvanceStart(State()), cb)
      modifies this
      ensures Valid()
      ensures exists done :: RunsTo(AdvanceStart(old(State())), cb, done) && State() == AdvanceEnd(done) && fired == done.fired
      ensures executedTicks == old(executedTicks) + old(sliceLength) - old(downcount)
      ensures sliceLength == 0 && downcount == 0 && idledCycles == 0 && tsQueue == [] && !isTimerSane
    {
      ghost var before := State();
      ghost var start := AdvanceStart(before);
      StartPass();
      ghost var done;
      fired, done := DispatchLoop(cb, start);
      isTimerSane := false;
      AdvanceLeavesFuture(before, cb, done);
    }

    /** `Advance` up to its loop. */
    method StartPass()
      requires Valid()
      modifies this
      ensures Valid() && State() == InLoop(AdvanceStart(old(State())))
    {
      MoveEvents();
      Rewind();
    }

    method Rewind()
      modifies this`idledCycles, this`executedTicks, this`sliceLength, this`downcount, this`isTimerSane
      ensures State() == old(State()).(sane := true, slice := 0, downcount := 0, idled := 0,
                                       executed := old(executedTicks) + (old(sliceLength) - old(downcount)))
    {
      var cyclesExecuted := sliceLength - downcount;
      idledCycles := 0;
      executedTicks := executedTicks + cyclesExecuted;
      sliceLength := 0;
      downcount := 0;
      isTimerSane := true;
    }

    /** The loop of `Advance`. */
    method DispatchLoop(cb: Callbacks, ghost start: Run) returns (fired: seq<Dispatch>, ghost done: Run)
      requires Valid() && State() == InLoop(start) && start.fired == []
      requires Terminates(start, cb)
      modifies this
      ensures Valid() && State() == InLoop(done) && RunsTo(start, cb, done) && fired == done.fired
    {
      fired := [];
      done := start;
      ghost var n: nat := 0;
      ghost var total: nat :| !Due(Passes(start, cb, total));
      QueueEmptyOrHead();
      while eventQueue != [] && eventQueue[0].time <= executedTicks
        invariant Valid() && State() == InLoop(done) && fired == done.fired
        invariant done == Passes(start, cb, n)
        invariant Due(done) <==> eventQueue != [] && eventQueue[0].time <= executedTicks
        decreases total - n
      {
        ghost var before := done;
        PassesToCome(start, cb, n, total);
        var d;
        d, done := Pass(cb, fired, before);
        fired := fired + [d];
        n := n + 1;
      }
    }

    /** A pass of the loop, and what it is in the specification. */
    method Pass(cb: Callbacks, fired: seq<Dispatch>, ghost run: Run) returns (d: Dispatch, ghost done: Run)
      requires Valid() && State() == InLoop(run) && eventQueue != [] && eventQueue[0].time <= executedTicks && fired == run.fired
      modifies this
      ensures Valid() && State() == InLoop(done) && Due(run) && done == Take(run, cb, Earliest(run.pending))
      ensures done.fired == fired + [d] && done.now == run.now
      ensures Due(done) <==> eventQueue != [] && eventQueue[0].time <= executedTicks
    {
      QueueEmptyOrHead();
      d := DispatchOne(cb, |fired|, run);
      done := Take(run, cb, Earliest(run.pending));
      TakeLogs(run, cb, Earliest(run.pending));
      QueueEmptyOrHead();
    }

    /** A callback makes its calls, in order. */
    method ServeAll(requests: seq<Request>, ghost run: Run)
      requires Valid() && State() == InLoop(run)
      modifies this
      ensures Valid() && State() == InLoop(ApplyAll(run, requests))
      decreases |requests|
    {
      ghost var r := run;
      var i := 0;
      while i < |requests|
        invariant 0 <= i <= |requests|
        invariant Valid() && State() == InLoop(r)
        invariant ApplyAll(r, requests[i..]) == ApplyAll(run, requests)
      {
        ApplyAllUnfold(r, requests, i);
        Serve(requests[i]);
        ServedIsApply(r, requests[i]);
        r := Apply(r, requests[i]);
        i := i + 1;
      }
    }

    /** The loop body of `Advance`; `k` counts the passes before. */
    method DispatchOne(cb: Callbacks, k: nat, ghost run: Run) returns (d: Dispatch)
      requires Valid() && k == |run.fired| && State() == InLoop(run) && eventQueue != []
      modifies this
      ensures Valid() && run.pending != {}
      ensures d == Dispatch(Earliest(run.pending), ToInt32(run.now - Earliest(run.pending).time))
      ensures State() == InLoop(Take(run, cb, Earliest(run.pending)))
    {
      QueueHeadIsEarliest();
      var evt := PopFront();
      d := Dispatch(evt, ToInt32(executedTicks - evt.time));
      InvokeCallback(cb, k, d, Taken(run, evt));
    }

    /** The call of the event's callback, if it has one. */
    method InvokeCallback(cb: Callbacks, k: nat, d: Dispatch, ghost taken: Run)
      requires Valid() && State() == InLoop(taken)
      modifies this
      ensures Valid() && State() == InLoop(ApplyAll(taken, Answer(cb, k, d)))
    {
      if d.event.kind in cb.handlers {
        var requests := cb.respond(k, d.event, d.cyclesLate);
        ServeAll(requests, taken);
      }
    }

    lemma QueueEmptyOrHead()
      requires Valid()
      ensures eventQueue == [] <==> pending == {}
      ensures eventQueue != [] ==> eventQueue[0] == Earliest(pending)
    {
      if eventQueue != [] {
        QueueHeadIsEarliest();
      } else {
        assert multiset(pending) == multiset{};
        assert forall e :: e in pending ==> e in multiset(pending);
      }
    }

    lemma QueueHeadIsEarliest()
      requires Valid() && eventQueue != []
      ensures pending != {} && eventQueue[0] == Earliest(pending)
    {
      FrontIsTheEarliest(eventQueue, pending);
    }

    method SetNextSlice(maxSliceLength: int)
      requires Valid()
      modifies this
      ensures Valid() && State() == NextSlice(old(State()), maxSliceLength)
    {
      sliceLength := maxSliceLength;
      QueueEmptyOrHead();
      if eventQueue != [] {
        var room := eventQueue[0].time - executedTicks;
        sliceLength := ToInt32(if maxSliceLength < room then maxSliceLength else room);
      }
      downcount := sliceLength;
    }

    /** The ASSERT of the source is the precondition; `AdvanceLeavesFuture` establishes it after `Advance`. */
    method GetMaxSliceLength() returns (length: int)
      requires Valid()
      requires forall e :: e in pending ==> executedTicks < e.time
      ensures length > 0
      ensures pending == {} ==> length == MAX_SLICE_LENGTH
      ensures forall e :: e in pending ==> executedTicks + length <= e.time
      ensures pending != {} ==> exists e :: e in pending && executedTicks + length == e.time
    {
      QueueEmptyOrHead();
      if eventQueue != [] {
        assert forall e :: e in pending ==> !Earlier(e, eventQueue[0]);
        return eventQueue[0].time - executedTicks;
      }
      return MAX_SLICE_LENGTH;
    }
  }

  lemma DrainOneThenAll(s: TimerState)
    requires s.inbox != []
    ensures Drain(DrainOne(s)) == Drain(s)
  {
    var first := s.inbox[0].(fifoOrder := s.nextFifo);
    var all := Numbering(s.inbox, s.nextFifo);
    var others := Numbering(s.inbox[1..], s.nextFifo + 1);
    forall e | e in all
      ensures e in {first} + others
    {
      var i :| 0 <= i < |s.inbox| && e == s.inbox[i].(fifoOrder := s.nextFifo + i);
      if i > 0 {
        assert e == s.inbox[1..][i - 1].(fifoOrder := s.nextFifo + 1 + (i - 1));
      }
    }
    forall e | e in others
      ensures e in all
    {
      var i :| 0 <= i < |s.inbox[1..]| && e == s.inbox[1..][i].(fifoOrder := s.nextFifo + 1 + i);
      assert e == s.inbox[i + 1].(fifoOrder := s.nextFifo + (i + 1));
    }
    assert first == s.inbox[0].(fifoOrder := s.nextFifo + 0);
    assert all == {first} + others;
  }

  /** The front of a heap of numbered events is the earliest pending event. */
  lemma FrontIsTheEarliest(q: seq<Event>, contents: set<Event>)
    requires IsHeap(q) && q != [] && multiset(q) == multiset(contents)
    requires forall e, f :: e in contents && f in contents && e.fifoOrder == f.fifoOrder ==> e == f
    ensures contents != {} && q[0] == Earliest(contents)
  {
    assert q[0] in multiset(q);
    assert q[0] in contents;
    var m := Earliest(contents);
    assert m in multiset(contents);
    assert m in q;
    var i :| 0 <= i < |q| && q[i] == m;
    FrontIsEarliest(q, i);
  }

  lemma WithoutOne<T>(s: set<T>, x: T)
    requires x in s
    ensures multiset(s - {x}) == multiset(s) - multiset{x}
  {
    assert s == (s - {x}) + {x};
  }

  /** The state of a timer in its dispatch loop. */
  function InLoop(run: Run): TimerState {
    TimerState(run.pending, run.nextFifo, [], true, 0, 0, run.now, 0)
  }

  /** While callbacks run, the calls of `Timing` do to the timer what `Apply` does to the run. */
  lemma ServedIsApply(r: Run, request: Request)
    ensures Served(InLoop(r), request) == InLoop(Apply(r, request))
  {
    if !request.Schedule? {
      assert (set e | e in r.pending && !Matches(e, request)) == Apply(r, request).pending;
    }
  }

  lemma ApplyAllUnfold(r: Run, requests: seq<Request>, i: nat)
    requires i < |requests|
    ensures ApplyAll(r, requests[i..]) == ApplyAll(Apply(r, requests[i]), requests[i + 1..])
  {
    assert requests[i..][0] == requests[i] && requests[i..][1..] == requests[i + 1..];
  }

  lemma {:induction false} ApplyAllKeepsLog(r: Run, requests: seq<Request>)
    ensures ApplyAll(r, requests).fired == r.fired && ApplyAll(r, requests).now == r.now
    decreases |requests|
  {
    if requests != [] {
      ApplyAllKeepsLog(Apply(r, requests[0]), requests[1..]);
    }
  }

  lemma TakeLogs(r: Run, cb: Callbacks, e: Event)
    ensures Take(r, cb, e).fired == r.fired + [Dispatch(e, ToInt32(r.now - e.time))] && Take(r, cb, e).now == r.now
  {
    var taken := Taken(r, e);
    ApplyAllKeepsLog(taken, Requests(cb, |r.fired|, e, r.now));
  }

  lemma FloorOfQuotient(n: nat, d: nat)
    requires d > 0
    ensures (n as real / d as real).Floor == n / d
  {
    var q, r := n / d, n % d;
    assert n == q * d + r;
    assert n as real == q as real * d as real + r as real;
    assert n as real / d as real == q as real + r as real / d as real;
  }

  // ---------------------------------------------------------------- all cores

  class Timing {
    var timers: seq<Timer>
    var current: nat
    var eventQueueLocked: bool

    ghost predicate Valid()
      reads this, timers
    {
      && current < |timers|
      && (forall i, j :: 0 <= i < j < |timers| ==> timers[i] != timers[j])
      && forall i :: 0 <= i < |timers| ==> timers[i].Valid()
    }

    /**
     `coreId` of `None` is the default argument, the current timer. An event for another core goes to
     that core's inbox, stamped with that core's time; every other timer keeps its state.
     */
    method ScheduleEvent(cyclesIntoFuture: int, kind: string, userData: nat, coreId: Option<nat>)
      requires Valid()
      requires coreId.Some? ==> coreId.value < |timers|
      modifies timers
      ensures Valid()
      ensures var target := if coreId.Some? then coreId.value else current;
              forall i :: 0 <= i < |timers| ==>
                timers[i].State() ==
                  if eventQueueLocked || i != target then old(timers[i].State())
                  else if i == current then AddEvent(old(timers[i].State()), cyclesIntoFuture, kind, userData)
                  else Post(old(timers[i].State()), cyclesIntoFuture, kind, userData)
    {
      if eventQueueLocked {
        return;
      }
      var target := match coreId case Some(c) => c case None => current;
      if target == current {
        timers[target].ScheduleHere(cyclesIntoFuture, kind, userData);
      } else {
        timers[target].ScheduleFromElsewhere(cyclesIntoFuture, kind, userData);
      }
    }

    /** The timers, which were in the states `before`, once the first `i` have cancelled their events. */
    ghost predicate CancelledUpTo(before: seq<TimerState>, request: Request, i: nat)
      reads this, timers
    {
      && |before| == |timers| && Valid()
      && forall j :: 0 <= j < |timers| ==> timers[j].State() == if j < i then Cancel(before[j], request) else before[j]
    }

    method CancelNext(request: Request, i: nat, ghost before: seq<TimerState>)
      requires i < |timers| && CancelledUpTo(before, request, i)
      modifies timers[i]
      ensures CancelledUpTo(before, request, i + 1)
    {
      timers[i].CancelEvents(request);
    }

    /** `UnscheduleEvent` and `RemoveEvent`: queued events go from every core, inbox events from none. */
    method CancelEverywhere(request: Request)
      requires Valid() && !request.Schedule?
      modifies timers
      ensures Valid()
      ensures forall i :: 0 <= i < |timers| ==>
                timers[i].State() ==
                  if eventQueueLocked then old(timers[i].State()) else Cancel(old(timers[i].State()), request)
    {
      if eventQueueLocked {
        return;
      }
      ghost var before := seq(|timers|, j requires 0 <= j < |timers| reads this, timers => timers[j].State());
      var i := 0;
      while i < |timers|
        invariant 0 <= i <= |timers| && CancelledUpTo(before, request, i)
      {
        CancelNext(request, i, before);
        i := i + 1;
      }
    }
  }
}
