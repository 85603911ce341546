/** The one-shot scroll reveal of `AnimatedElement`
    (src/components/pages/HomePage.tsx).

    On mount the element is observed. The first callback that reports the
    element intersecting schedules the `is-visible` class after the element's
    delay and stops observing it; the timer then adds the class. Unmounting
    disconnects the observer but does not cancel a timer already scheduled, and
    nothing ever removes the class. Visibility thresholds, the delay's length
    and the browser's event order are abstracted into the events below. */
module Reveal {

  /** `Hidden`: no class yet and no timer; `Scheduled`: the timer is pending;
      `Visible`: the element carries `is-visible`. */
  datatype Phase = Hidden | Scheduled | Visible

  datatype State = State(phase: Phase, observing: bool)

  datatype Event =
    | Intersection(isIntersecting: bool)  // the observer's callback
    | TimerFired                          // the scheduled timeout runs
    | Unmount                             // the effect's cleanup: `observer.disconnect()`

  /** Just after `observer.observe(element)`. */
  const Mounted := State(Hidden, true)

  /** Only a `Hidden` element is ever observed. */
  predicate Consistent(s: State) {
    s.observing ==> s.phase == Hidden
  }

  function Rank(p: Phase): nat {
    match p
    case Hidden => 0
    case Scheduled => 1
    case Visible => 2
  }

  function Step(s: State, e: Event): (t: State)
    ensures Consistent(s) ==> Consistent(t)
    ensures Consistent(s) ==> Rank(t.phase) >= Rank(s.phase)
    ensures Consistent(s) && s.phase == Visible ==> t.phase == Visible
    ensures !s.observing ==> !t.observing
  {
    match e
    case Intersection(isIntersecting) =>
      if s.observing && isIntersecting then State(Scheduled, false) else s
    case TimerFired =>
      if s.phase == Scheduled then State(Visible, s.observing) else s
    case Unmount =>
      State(s.phase, false)
  }

  function Run(s: State, events: seq<Event>): State
    decreases |events|
  {
    if events == [] then s else Run(Step(s, events[0]), events[1..])
  }

  /** 1 when this step schedules the reveal, else 0. */
  function Schedules(s: State, e: Event): nat {
    if s.phase == Hidden && Step(s, e).phase == Scheduled then 1 else 0
  }

  function ScheduleCount(s: State, events: seq<Event>): nat
    decreases |events|
  {
    if events == [] then 0 else Schedules(s, events[0]) + ScheduleCount(Step(s, events[0]), events[1..])
  }

  /** Once visible, always visible: no sequence of events removes the class. */
  lemma {:induction false} VisibleIsTerminal(s: State, events: seq<Event>)
    requires Consistent(s) && s.phase == Visible
    ensures Run(s, events).phase == Visible
    decreases |events|
  {
    if events != [] {
      VisibleIsTerminal(Step(s, events[0]), events[1..]);
    }
  }

  /** The phase only moves forward along `Hidden`, `Scheduled`, `Visible`. */
  lemma {:induction false} RunMonotone(s: State, events: seq<Event>)
    requires Consistent(s)
    ensures Rank(Run(s, events).phase) >= Rank(s.phase)
    decreases |events|
  {
    if events != [] {
      RunMonotone(Step(s, events[0]), events[1..]);
    }
  }

  /** Once the observer has let go, intersections change nothing: leaving and
      entering the viewport again does not restart the reveal. */
  lemma IntersectionAfterUnobserveIgnored(s: State, isIntersecting: bool)
    requires !s.observing
    ensures Step(s, Intersection(isIntersecting)) == s
  {
  }

  lemma {:induction false} NoScheduleWhenNotObserving(s: State, events: seq<Event>)
    requires Consistent(s) && !s.observing
    ensures ScheduleCount(s, events) == 0
    decreases |events|
  {
    if events != [] {
      NoScheduleWhenNotObserving(Step(s, events[0]), events[1..]);
    }
  }

  /** The reveal is scheduled at most once, whatever happens after mount. */
  lemma {:induction false} ScheduledAtMostOnce(s: State, events: seq<Event>)
    requires Consistent(s)
    ensures ScheduleCount(s, events) <= 1
    decreases |events|
  {
    if events != [] {
      var t := Step(s, events[0]);
      if Schedules(s, events[0]) == 1 {
        NoScheduleWhenNotObserving(t, events[1..]);
      } else {
        ScheduledAtMostOnce(t, events[1..]);
      }
    }
  }

  /** From mount, the element becomes visible only after some callback reported
      it intersecting. */
  lemma {:induction false} RevealNeedsIntersection(s: State, events: seq<Event>)
    requires s.phase == Hidden
    requires Run(s, events).phase != Hidden
    ensures exists i :: 0 <= i < |events| && events[i] == Intersection(true)
    decreases |events|
  {
    var t := Step(s, events[0]);
    if t.phase == Hidden {
      RevealNeedsIntersection(t, events[1..]);
      var i :| 0 <= i < |events[1..]| && events[1..][i] == Intersection(true);
      assert events[i + 1] == Intersection(true);
    } else {
      assert events[0] == Intersection(true);
    }
  }

  /** Once scheduled, the reveal happens when the timer fires, whatever came in
      between (unmounting does not cancel the timer). */
  lemma {:induction false} ScheduledThenRevealed(s: State, events: seq<Event>)
    requires Consistent(s) && s.phase == Scheduled
    ensures Run(s, events + [TimerFired]).phase == Visible
    decreases |events|
  {
    if events == [] {
      assert Run(Step(s, TimerFired), []) == Step(s, TimerFired);
    } else {
      var t := Step(s, events[0]);
      assert (events + [TimerFired])[1..] == events[1..] + [TimerFired];
      if t.phase == Visible {
        VisibleIsTerminal(t, events[1..] + [TimerFired]);
      } else {
        ScheduledThenRevealed(t, events[1..]);
      }
    }
  }

  /** The first intersecting report on an observed element schedules the reveal
      and stops observing it. */
  lemma IntersectionSchedules(s: State)
    requires Consistent(s) && s.observing
    ensures Step(s, Intersection(true)) == State(Scheduled, false)
    ensures Schedules(s, Intersection(true)) == 1
  {
  }

  /** Unmounting stops observation and leaves the phase alone. */
  lemma UnmountStopsObserving(s: State)
    ensures Step(s, Unmount) == State(s.phase, false)
  {
  }

  /** Running two sequences of events one after the other is running their
      concatenation. */
  lemma {:induction false} RunAppend(s: State, a: seq<Event>, b: seq<Event>)
    ensures Run(s, a + b) == Run(Run(s, a), b)
    decreases |a|
  {
    if a != [] {
      assert (a + b)[0] == a[0];
      assert (a + b)[1..] == a[1..] + b;
      RunAppend(Step(s, a[0]), a[1..], b);
    } else {
      assert a + b == b;
    }
  }

  /** Until an intersecting report or an unmount arrives, the mounted element
      stays hidden and observed: a report that it is not intersecting (such as
      the one `observe` sends for an element below the fold) changes nothing. */
  lemma {:induction false} StaysObserved(pre: seq<Event>)
    requires forall i :: 0 <= i < |pre| ==> pre[i] != Intersection(true) && pre[i] != Unmount
    ensures Run(Mounted, pre) == Mounted
    decreases |pre|
  {
    if pre != [] {
      assert Step(Mounted, pre[0]) == Mounted;
      StaysObserved(pre[1..]);
    }
  }

  /** From mount, after any number of reports that the element is not
      intersecting and timer events, an intersecting report followed, after any
      other events, by the timer makes the element visible. */
  lemma MountedThenRevealed(pre: seq<Event>, events: seq<Event>)
    requires forall i :: 0 <= i < |pre| ==> pre[i] != Intersection(true) && pre[i] != Unmount
    ensures Run(Mounted, pre + [Intersection(true)] + events + [TimerFired]).phase == Visible
  {
    var rest := [Intersection(true)] + events + [TimerFired];
    assert pre + [Intersection(true)] + events + [TimerFired] == pre + rest;
    RunAppend(Mounted, pre, rest);
    StaysObserved(pre);
    var t := Step(Mounted, Intersection(true));
    IntersectionSchedules(Mounted);
    ScheduledThenRevealed(t, events);
    assert rest[0] == Intersection(true);
    assert rest[1..] == events + [TimerFired];
  }

  /** One DOM element under an `AnimatedElement`: its reveal state. */
  class AnimatedElement {
    var phase: Phase
    var observing: bool

    function Current(): State
      reads this
    {
      State(phase, observing)
    }

    ghost predicate Valid()
      reads this
    {
      Consistent(Current())
    }

    /** The effect on mount: `observer.observe(element)`. */
    constructor ()
      ensures Valid() && Current() == Mounted
    {
      phase := Hidden;
      observing := true;
    }

    /** The observer callback with `entry.isIntersecting`. */
    method OnIntersection(isIntersecting: bool)
      requires Valid()
      modifies this
      ensures Valid()
      ensures Current() == Step(old(Current()), Intersection(isIntersecting))
    {
      if observing && isIntersecting {
        phase := Scheduled;
        observing := false;
      }
    }

    /** The timeout scheduled by the first intersection: `classList.add('is-visible')`. */
    method OnTimer()
      requires Valid()
      modifies this
      ensures Valid()
      ensures Current() == Step(old(Current()), TimerFired)
    {
      if phase == Scheduled {
        phase := Visible;
      }
    }

    /** The effect's cleanup: `observer.disconnect()`. */
    method OnUnmount()
      requires Valid()
      modifies this
      ensures Valid()
      ensures Current() == Step(old(Current()), Unmount)
    {
      observing := false;
    }
  }
}
