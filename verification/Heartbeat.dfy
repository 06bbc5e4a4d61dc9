/**
 The heartbeat and expiry timer of one connection (libev.h). Times are real numbers read
 from the event loop; the loop promises only that time does not run backwards and that a
 timer is not handled before it is due.
 */
module Heartbeat {
  import opened Basics

  /** A heartbeat must be sent every max(timeout / 2, 1) seconds. */
  function Interval(timeout: nat): nat {
    Max(timeout / 2, 1)
  }

  function Earliest(a: real, b: real): real {
    if b < a then b else a
  }

  /** What is known of the timer; after a repeat that is not positive, nothing is assumed of libev. */
  datatype Timer = Stopped | Due(at: real) | Unknown

  datatype State = State(next: real, expire: real, timeout: nat, timer: Timer, heartbeats: nat, closed: bool)

  datatype Event =
    | Start(timeout: nat, now: real)
    | Active(readable: bool, now: real)
    | Expired(ready: bool, now: real)  // ready: is the connection ready?

  function Created(now: real, connectTimeout: nat): State {
    State(0.0, now + connectTimeout as real, 0, Due(now + connectTimeout as real), 0, false)
  }

  /** ev_timer_again with the given repeat. */
  function Again(repeat: real, now: real): Timer {
    if repeat > 0.0 then Due(now + repeat) else Unknown
  }

  function Rearmed(s: State, now: real): State {
    s.(timer := Again(Earliest(s.next, s.expire) - now, now))
  }

  function Step(s: State, e: Event): State {
    match e
    case Start(timeout, now) =>
      if timeout == 0 then s.(timeout := 0)
      else Rearmed(s.(timeout := timeout, next := now + Interval(timeout) as real), now)
    case Active(readable, now) =>
      if s.timeout != 0 && readable then s.(expire := now + s.timeout as real * 1.5) else s
    case Expired(ready, now) =>
      if s.timeout == 0 then s.(timer := Stopped, closed := s.closed || !ready)
      else if now >= s.expire then s.(timer := Unknown, closed := true)
      else if now >= s.next then
        Rearmed(s.(next := s.next + Interval(s.timeout) as real, heartbeats := s.heartbeats + 1), now)
      else Rearmed(s, now)
  }

  // Runs from the moment the heartbeat was negotiated

  function TimeOf(e: Event): real {
    e.now
  }

  function Run(s: State, events: seq<Event>): State {
    if events == [] then s else Step(Run(s, events[..|events| - 1]), events[|events| - 1])
  }

  function Clock(t0: real, events: seq<Event>): real {
    if events == [] then t0 else TimeOf(events[|events| - 1])
  }

  /** The loop's promise for one event: time goes on, and a timer is handled when due, not before. */
  predicate Timely(s: State, clock: real, e: Event) {
    && !e.Start? && clock <= e.now && !s.closed
    && (e.Expired? ==> s.timer != Stopped && (s.timer.Due? ==> s.timer.at <= e.now))
  }

  /** Every expiry is moreover handled less than h seconds late. */
  predicate Punctual(s: State, e: Event, h: real) {
    e.Expired? ==> s.timer.Due? && e.now < s.timer.at + h
  }

  predicate IsRun(s0: State, t0: real, events: seq<Event>) {
    events == [] ||
    var before, e := events[..|events| - 1], events[|events| - 1];
    IsRun(s0, t0, before) && Timely(Run(s0, before), Clock(t0, before), e)
  }

  predicate IsPunctualRun(s0: State, t0: real, events: seq<Event>, h: real) {
    events == [] ||
    var before, e := events[..|events| - 1], events[|events| - 1];
    && IsPunctualRun(s0, t0, before, h) && Timely(Run(s0, before), Clock(t0, before), e)
    && Punctual(Run(s0, before), e, h)
  }

  /** The last time the server was readable after the start, if it was. */
  function LastReadable(events: seq<Event>): Option<real> {
    if events == [] then None
    else
      match events[|events| - 1]
      case Active(readable, now) => if readable then Some(now) else LastReadable(events[..|events| - 1])
      case _ => LastReadable(events[..|events| - 1])
  }

  /** The n-th point of the heartbeat grid: n seconds, or n halves of a timeout of 4 seconds or more, after t0. */
  function Grid(t0: real, timeout: nat, n: nat): real {
    t0 + n as real * if timeout < 4 then 1.0 else (timeout / 2) as real
  }

  lemma GridStep(t0: real, timeout: nat, n: nat)
    ensures Grid(t0, timeout, n + 1) == Grid(t0, timeout, n) + Interval(timeout) as real
  {
    var h := if timeout < 4 then 1.0 else (timeout / 2) as real;
    assert (n + 1) as real * h == n as real * h + h;
  }

  /** Before any close, the next heartbeat is due n + 1 intervals after the start. */
  lemma {:induction false} NextIsOnTheGrid(s0: State, t0: real, timeout: nat, events: seq<Event>)
    requires timeout > 0 && s0.heartbeats == 0 && !s0.closed
    requires IsRun(Step(s0, Start(timeout, t0)), t0, events)
    ensures var s := Run(Step(s0, Start(timeout, t0)), events);
            && s.timeout == timeout
            && s.next == Grid(t0, timeout, s.heartbeats + 1)
  {
    hide Grid;
    if events == [] {
      FirstPoint(t0, timeout);
    } else {
      NextIsOnTheGrid(s0, t0, timeout, events[..|events| - 1]);
      GridStep(t0, timeout, Run(Step(s0, Start(timeout, t0)), events[..|events| - 1]).heartbeats + 1);
    }
  }

  lemma FirstPoint(t0: real, timeout: nat)
    ensures Grid(t0, timeout, 1) == t0 + Interval(timeout) as real
  {
  }

  /** The expiry time is 1.5 timeouts after the last readable event, or what it was at the start. */
  lemma {:induction false} ExpireFollowsReads(s0: State, t0: real, timeout: nat, events: seq<Event>)
    requires timeout > 0 && s0.heartbeats == 0 && !s0.closed
    requires IsRun(Step(s0, Start(timeout, t0)), t0, events)
    ensures Run(Step(s0, Start(timeout, t0)), events).expire
         == match LastReadable(events)
            case Some(at) => at + timeout as real * 1.5
            case None => s0.expire
  {
    if events != [] {
      ExpireFollowsReads(s0, t0, timeout, events[..|events| - 1]);
      NextIsOnTheGrid(s0, t0, timeout, events[..|events| - 1]);
    }
  }

  /**
   An expiry closes the connection exactly when 1.5 timeouts have passed since the last readable
   event, or, with none since the start, when the limit set at creation has passed.
   */
  lemma ClosesExactlyWhenIdle(s0: State, t0: real, timeout: nat, before: seq<Event>, ready: bool, now: real)
    requires timeout > 0 && s0.heartbeats == 0 && !s0.closed
    requires IsRun(Step(s0, Start(timeout, t0)), t0, before + [Expired(ready, now)])
    ensures Run(Step(s0, Start(timeout, t0)), before + [Expired(ready, now)]).closed
       <==> match LastReadable(before)
            case Some(at) => now - at >= timeout as real * 1.5
            case None => now >= s0.expire
  {
    var events := before + [Expired(ready, now)];
    assert events[..|events| - 1] == before;
    ExpireFollowsReads(s0, t0, timeout, before);
    NextIsOnTheGrid(s0, t0, timeout, before);
  }

  /** A connection created at time c expires 60 seconds later unless its heartbeat starts and the server is heard. */
  lemma InitialLimit(c: real, t0: real, timeout: nat, before: seq<Event>, ready: bool, now: real)
    requires timeout > 0 && LastReadable(before).None?
    requires IsRun(Step(Created(c, 60), Start(timeout, t0)), t0, before + [Expired(ready, now)])
    ensures Run(Step(Created(c, 60), Start(timeout, t0)), before + [Expired(ready, now)]).closed <==> now >= c + 60.0
  {
    ClosesExactlyWhenIdle(Created(c, 60), t0, timeout, before, ready, now);
  }

  /**
   If the limit was still ahead at the start and every expiry is handled less than an interval
   late, the timer is re-armed for a positive time after every event until an idle close.
   */
  lemma {:induction false} AlwaysRearmed(s0: State, t0: real, timeout: nat, events: seq<Event>)
    requires timeout > 0 && s0.heartbeats == 0 && !s0.closed && s0.expire > t0
    requires IsPunctualRun(Step(s0, Start(timeout, t0)), t0, events, Interval(timeout) as real)
    ensures IsRun(Step(s0, Start(timeout, t0)), t0, events)
    ensures var s := Run(Step(s0, Start(timeout, t0)), events);
            s.timeout == timeout && (!s.closed ==> s.timer.Due? && s.timer.at <= s.next)
    ensures events != [] && events[|events| - 1].Expired? && !Run(Step(s0, Start(timeout, t0)), events).closed ==>
              Run(Step(s0, Start(timeout, t0)), events).timer.at > events[|events| - 1].now
  {
    if events != [] {
      AlwaysRearmed(s0, t0, timeout, events[..|events| - 1]);
      NextIsOnTheGrid(s0, t0, timeout, events[..|events| - 1]);
    }
  }

  /** Heartbeat n is sent within [t0 + n h, t0 + (n + 1) h). */
  lemma HeartbeatsAreOnTime(s0: State, t0: real, timeout: nat, before: seq<Event>, ready: bool, now: real)
    requires timeout > 0 && s0.heartbeats == 0 && !s0.closed && s0.expire > t0
    requires IsPunctualRun(Step(s0, Start(timeout, t0)), t0, before + [Expired(ready, now)], Interval(timeout) as real)
    ensures var s := Run(Step(s0, Start(timeout, t0)), before);
            var after := Run(Step(s0, Start(timeout, t0)), before + [Expired(ready, now)]);
            var n := after.heartbeats;
            n != s.heartbeats ==>
              n == s.heartbeats + 1 && Grid(t0, timeout, n) <= now < Grid(t0, timeout, n + 1)
  {
    hide Grid;
    var events := before + [Expired(ready, now)];
    assert events[..|events| - 1] == before;
    AlwaysRearmed(s0, t0, timeout, before);
    NextIsOnTheGrid(s0, t0, timeout, before);
    GridStep(t0, timeout, Run(Step(s0, Start(timeout, t0)), before).heartbeats + 1);
  }

  /** At an expiry that does not close the connection a heartbeat is sent if one is due, and only then. */
  lemma HeartbeatIffDue(s0: State, t0: real, timeout: nat, before: seq<Event>, ready: bool, now: real)
    requires timeout > 0 && s0.heartbeats == 0 && !s0.closed
    requires IsRun(Step(s0, Start(timeout, t0)), t0, before + [Expired(ready, now)])
    ensures var s := Run(Step(s0, Start(timeout, t0)), before);
            var after := Run(Step(s0, Start(timeout, t0)), before + [Expired(ready, now)]);
            !after.closed ==>
              after.heartbeats == s.heartbeats + if Grid(t0, timeout, s.heartbeats + 1) <= now then 1 else 0
  {
    hide Grid;
    var events := before + [Expired(ready, now)];
    assert events[..|events| - 1] == before;
    NextIsOnTheGrid(s0, t0, timeout, before);
  }

  /**
   After the start, and after every expiry that does not close the connection, the timer is due at
   the next heartbeat or the expiry time, whichever is earlier, unless that has already passed;
   and an active descriptor leaves it alone. Neither a start nor an active descriptor closes.
   */
  lemma TimerIsForTheEarliest(s0: State, t0: real, timeout: nat, events: seq<Event>)
    requires timeout > 0 && s0.heartbeats == 0 && !s0.closed
    requires IsRun(Step(s0, Start(timeout, t0)), t0, events)
    ensures var s := Run(Step(s0, Start(timeout, t0)), events);
            var due := if s.expire < s.next then s.expire else s.next;
            if events != [] && events[|events| - 1].Active? then
              s.timer == Run(Step(s0, Start(timeout, t0)), events[..|events| - 1]).timer
            else
              !s.closed ==> s.timer == if due > Clock(t0, events) then Due(due) else Unknown
    ensures Run(Step(s0, Start(timeout, t0)), events).closed ==> events != [] && events[|events| - 1].Expired?
  {
    if events != [] {
      NextIsOnTheGrid(s0, t0, timeout, events[..|events| - 1]);
    }
  }

  predicate NoHeartbeat(events: seq<Event>) {
    forall e :: e in events && e.Start? ==> e.timeout == 0
  }

  predicate AnyExpiry(events: seq<Event>) {
    exists e :: e in events && e.Expired?
  }

  predicate ExpiryBeforeReady(events: seq<Event>) {
    exists e :: e in events && e.Expired? && !e.ready
  }

  /**
   Until a heartbeat is negotiated, or if none is, the only timer is the one for connecting: it is due
   once, no heartbeat is sent, and the connection is closed exactly if the timer expires unready.
   */
  lemma {:induction false} WithoutHeartbeats(c: real, limit: nat, events: seq<Event>)
    requires NoHeartbeat(events)
    ensures var s := Run(Created(c, limit), events);
            && s.timeout == 0 && s.heartbeats == 0 && s.expire == c + limit as real
            && s.timer == (if AnyExpiry(events) then Stopped else Due(c + limit as real))
            && (s.closed <==> ExpiryBeforeReady(events))
  {
    if events != [] {
      var before, e := events[..|events| - 1], events[|events| - 1];
      assert events == before + [e];
      assert forall x :: x in before ==> x in events;
      WithoutHeartbeats(c, limit, before);
      assert e in events;
      assert AnyExpiry(events) <==> AnyExpiry(before) || e.Expired?;
      assert ExpiryBeforeReady(events) <==> ExpiryBeforeReady(before) || (e.Expired? && !e.ready);
    }
  }

  /**
   The margin is sharp: an expiry before the limit computes a positive interval to the next one
   exactly when it is handled less than an interval after the heartbeat was due.
   */
  lemma IntervalPositiveIffNotLate(s: State, ready: bool, now: real)
    requires s.timeout > 0 && now < s.expire
    ensures var after := Step(s, Expired(ready, now));
            Earliest(after.next, after.expire) - now > 0.0 <==> now < s.next + Interval(s.timeout) as real
  {
  }

  // The object

  class Wrapper {
    var next: real
    var expire: real
    var timeout: nat
    var timer: Timer
    ghost var heartbeats: nat
    var closed: bool

    ghost function Snapshot(): State
      reads this
    {
      State(next, expire, timeout, timer, heartbeats, closed)
    }

    constructor (now: real, connectTimeout: nat)
      ensures Snapshot() == Created(now, connectTimeout)
    {
      next, expire, timeout := 0.0, now + connectTimeout as real, 0;
      timer := Due(now + connectTimeout as real);
      heartbeats, closed := 0, false;
    }

    method TimerAgain(repeat: real, now: real)
      modifies this`timer
      ensures timer == Again(repeat, now)
    {
      timer := Again(repeat, now);
    }

    /** The interval that is accepted. */
    method Start(timeout: nat, now: real) returns (accepted: nat)
      modifies this
      ensures Snapshot() == Step(old(Snapshot()), Event.Start(timeout, now)) && accepted == timeout
    {
      this.timeout := timeout;
      if timeout == 0 {
        return 0;
      }
      next := now + Max(timeout / 2, 1) as real;
      TimerAgain(Earliest(next, expire) - now, now);
      accepted := timeout;
    }

    method OnActive(readable: bool, now: real)
      modifies this`expire
      ensures Snapshot() == Step(old(Snapshot()), Active(readable, now))
    {
      if timeout != 0 && readable {
        expire := now + timeout as real * 1.5;
      }
    }

    /** sent: was a heartbeat frame sent? */
    method OnExpired(ready: bool, now: real) returns (sent: bool)
      modifies this
      ensures Snapshot() == Step(old(Snapshot()), Expired(ready, now))
      ensures heartbeats == old(heartbeats) + if sent then 1 else 0
    {
      sent := false;
      if timeout == 0 {
        timer := Stopped;
        if !ready {
          closed := true;
        }
        return;
      }
      if now >= expire {
        timer, closed := Unknown, true;
        return;
      }
      if now >= next {
        sent := true;
        heartbeats := heartbeats + 1;
        next := next + Max(timeout / 2, 1) as real;
      }
      TimerAgain(Earliest(next, expire) - now, now);
    }
  }

  /** A connection that is created at t, negotiates its heartbeat at t0, and then handles these events. */
  method Handle(t: real, t0: real, timeout: nat, events: seq<Event>) returns (w: Wrapper)
    requires forall e :: e in events ==> !e.Start?
    ensures w.Snapshot() == Run(Step(Created(t, 60), Start(timeout, t0)), events)
  {
    w := new Wrapper(t, 60);
    var accepted := w.Start(timeout, t0);
    for i := 0 to |events|
      invariant fresh(w) && w.Snapshot() == Run(Step(Created(t, 60), Start(timeout, t0)), events[..i])
    {
      assert events[..i + 1][..i] == events[..i] && events[i] in events;
      match events[i]
      case Active(readable, now) => w.OnActive(readable, now);
      case Expired(ready, now) =>
        var sent := w.OnExpired(ready, now);
    }
    assert events[..|events|] == events;
  }
}
