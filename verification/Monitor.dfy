/**
 Two-way links between watchable objects and the monitors that watch them (monitor.h,
 watchable.h). The invariant is over all monitors and watchables alive at a moment.
 */
module Monitors {
  import opened Basics

  /** std::remove followed by erase: every occurrence of x goes. */
  function Without<T(==)>(s: seq<T>, x: T): seq<T> {
    if s == [] then []
    else if s[0] == x then Without(s[1..], x)
    else [s[0]] + Without(s[1..], x)
  }

  lemma {:induction false} WithoutMembers<T>(s: seq<T>, x: T)
    ensures forall i :: 0 <= i < |Without(s, x)| ==> Without(s, x)[i] in s && Without(s, x)[i] != x
    ensures forall i :: 0 <= i < |s| && s[i] != x ==> s[i] in Without(s, x)
  {
    if s != [] {
      WithoutMembers(s[1..], x);
    }
  }

  ghost predicate NoDuplicates<T>(s: seq<T>) {
    forall i, j :: 0 <= i < j < |s| ==> s[i] != s[j]
  }

  lemma {:induction false} WithoutKeepsNoDuplicates<T>(s: seq<T>, x: T)
    requires NoDuplicates(s)
    ensures NoDuplicates(Without(s, x))
  {
    if s != [] {
      WithoutKeepsNoDuplicates(s[1..], x);
      WithoutMembers(s[1..], x);
    }
  }

  /** Removing takes out the one occurrence and keeps everything else in order. */
  lemma {:induction false} WithoutRemovesTheOne<T>(before: seq<T>, x: T, after: seq<T>)
    requires x !in before && x !in after
    ensures Without(before + [x] + after, x) == before + after
  {
    var s := before + [x] + after;
    if before == [] {
      assert s[0] == x && s[1..] == after;
      WithoutNothing(after, x);
      assert before + after == after;
    } else {
      WithoutRemovesTheOne(before[1..], x, after);
      assert s[0] == before[0] && s[1..] == before[1..] + [x] + after;
      assert before + after == [before[0]] + (before[1..] + after);
    }
  }

  lemma {:induction false} WithoutNothing<T>(s: seq<T>, x: T)
    requires x !in s
    ensures Without(s, x) == s
  {
    if s != [] {
      WithoutNothing(s[1..], x);
    }
  }

  class Watchable {
    var monitors: seq<Monitor>

    constructor ()
      ensures monitors == []
    {
      monitors := [];
    }

    method Add(monitor: Monitor)
      modifies this
      ensures monitors == old(monitors) + [monitor]
    {
      monitors := monitors + [monitor];
    }

    method Remove(monitor: Monitor)
      modifies this
      ensures monitors == Without(old(monitors), monitor)
    {
      monitors := Without(monitors, monitor);
    }
  }

  /**
   The monitors in ms and the watchables in ws are the live ones. A watchable lists exactly the
   monitors pointing at it, once each, and no monitor points at a dead watchable.
   */
  ghost predicate Linked(ms: set<Monitor>, ws: set<Watchable>)
    reads ms, ws
  {
    && (forall m :: m in ms && m.watchable != null ==> m.watchable in ws)
    && (forall w :: w in ws ==> NoDuplicates(w.monitors))
    && (forall w, m :: w in ws && m in w.monitors ==> m in ms)
    && (forall w, m :: w in ws && m in ms ==> (m in w.monitors <==> m.watchable == w))
  }

  class Monitor {
    var watchable: Watchable?

    /** Monitor(Watchable*) */
    constructor Watch(w: Watchable, ghost ms: set<Monitor>, ghost ws: set<Watchable>)
      requires Linked(ms, ws) && w in ws
      modifies w
      ensures Linked(ms + {this}, ws)
      ensures watchable == w && w.monitors == old(w.monitors) + [this]
    {
      watchable := w;
      new;
      w.Add(this);
    }

    /** Monitor(const Monitor&) */
    constructor Copy(monitor: Monitor, ghost ms: set<Monitor>, ghost ws: set<Watchable>)
      requires Linked(ms, ws) && monitor in ms
      modifies ws
      ensures Linked(ms + {this}, ws)
      ensures watchable == monitor.watchable
      ensures forall w :: w in ws ==>
                w.monitors == if w == watchable then old(w.monitors) + [this] else old(w.monitors)
    {
      watchable := monitor.watchable;
      new;
      if watchable != null {
        watchable.Add(this);
      }
    }

    /** Deregister, the first half of assignment and all of destruction. */
    method Leave(ghost ms: set<Monitor>, ghost ws: set<Watchable>)
      requires Linked(ms, ws) && this in ms
      modifies ws
      ensures Linked(ms - {this}, ws) && watchable == old(watchable)
      ensures forall w :: w in ws ==> this !in w.monitors
      ensures forall w :: w in ws ==>
                w.monitors == if w == watchable then Without(old(w.monitors), this) else old(w.monitors)
    {
      if watchable != null {
        WithoutKeepsNoDuplicates(watchable.monitors, this);
        WithoutMembers(watchable.monitors, this);
        watchable.Remove(this);
      }
    }

    /** operator=, the source being the monitor itself included. */
    method Assign(monitor: Monitor, ghost ms: set<Monitor>, ghost ws: set<Watchable>)
      requires Linked(ms, ws) && this in ms && monitor in ms
      modifies this, ws
      ensures Linked(ms, ws) && watchable == old(monitor.watchable)
      ensures forall w :: w in ws ==>
                w.monitors == (if w == old(watchable) then Without(old(w.monitors), this) else old(w.monitors))
                            + (if w == watchable then [this] else [])
    {
      var target := monitor.watchable;
      Leave(ms, ws);
      Join(target, ms - {this}, ws);
      assert ms - {this} + {this} == ms;
    }

    /** Register with a new target, the second half of assignment. */
    method Join(target: Watchable?, ghost ms: set<Monitor>, ghost ws: set<Watchable>)
      requires Linked(ms, ws) && this !in ms && (target != null ==> target in ws)
      modifies this, ws
      ensures Linked(ms + {this}, ws) && watchable == target
      ensures forall w :: w in ws ==>
                w.monitors == if w == target then old(w.monitors) + [this] else old(w.monitors)
    {
      watchable := target;
      if watchable != null {
        watchable.Add(this);
      }
    }

    /** ~Monitor */
    method Destroy(ghost ms: set<Monitor>, ghost ws: set<Watchable>)
      requires Linked(ms, ws) && this in ms
      modifies ws
      ensures Linked(ms - {this}, ws)
      ensures forall w :: w in ws ==>
                w.monitors == if w == watchable then Without(old(w.monitors), this) else old(w.monitors)
    {
      Leave(ms, ws);
    }

    method Invalidate()
      modifies this
      ensures watchable == null
    {
      watchable := null;
    }

    predicate IsValid()
      reads this
    {
      watchable != null
    }
  }

  /** ~Watchable, as documented: exactly the monitors watching this object become invalid. */
  method DestroyWatchable(w: Watchable, ghost ms: set<Monitor>, ghost ws: set<Watchable>)
    requires Linked(ms, ws) && w in ws
    modifies ms
    ensures Linked(ms, ws - {w})
    ensures forall m :: m in ms ==> m.watchable == if old(m.watchable) == w then null else old(m.watchable)
  {
    var monitors := w.monitors;
    for i := 0 to |monitors|
      invariant w.monitors == monitors
      invariant forall m :: m in ms ==> m.watchable == if m in monitors[..i] then null else old(m.watchable)
    {
      monitors[i].Invalidate();
    }
  }

  // Any sequence of operations

  /** Objects are named by the order of their creation; an operation on a name that is not alive does nothing. */
  datatype Event =
    | NewWatchable
    | NewMonitor(watchable: nat)
    | CopyMonitor(original: nat)
    | AssignMonitor(monitor: nat, from: nat)
    | EndMonitor(monitor: nat)
    | EndWatchable(watchable: nat)

  /** What each live monitor points at, and which watchables are alive. */
  datatype State = State(targets: map<nat, Option<nat>>, live: set<nat>, madeMonitors: nat, madeWatchables: nat)

  const NOTHING := State(map[], {}, 0, 0)

  function Joined(s: State, target: Option<nat>): State {
    s.(targets := s.targets[s.madeMonitors := target], madeMonitors := s.madeMonitors + 1)
  }

  function Forgotten(targets: map<nat, Option<nat>>, w: nat): map<nat, Option<nat>> {
    map m | m in targets :: if targets[m] == Some(w) then None else targets[m]
  }

  function Step(s: State, e: Event): State {
    match e
    case NewWatchable => s.(live := s.live + {s.madeWatchables}, madeWatchables := s.madeWatchables + 1)
    case NewMonitor(w) => if w in s.live then Joined(s, Some(w)) else s
    case CopyMonitor(m) => if m in s.targets then Joined(s, s.targets[m]) else s
    case AssignMonitor(m, from) =>
      if m in s.targets && from in s.targets then s.(targets := s.targets[m := s.targets[from]]) else s
    case EndMonitor(m) => s.(targets := s.targets - {m})
    case EndWatchable(w) => if w in s.live then s.(targets := Forgotten(s.targets, w), live := s.live - {w}) else s
  }

  function Run(events: seq<Event>): State {
    if events == [] then NOTHING else Step(Run(events[..|events| - 1]), events[|events| - 1])
  }

  /** What one more operation makes of every monitor m: where it points afterwards, if it is alive. */
  function TargetAfter(events: seq<Event>, e: Event, m: nat): Option<Option<nat>> {
    var s := Run(events);
    var before := if m in s.targets then Some(s.targets[m]) else None;
    match e
    case NewWatchable => before
    case NewMonitor(w) => if m == s.madeMonitors && w in s.live then Some(Some(w)) else before
    case CopyMonitor(o) => if m == s.madeMonitors && o in s.targets then Some(s.targets[o]) else before
    case AssignMonitor(to, from) =>
      if m == to && m in s.targets && from in s.targets then Some(s.targets[from]) else before
    case EndMonitor(o) => if m == o then None else before
    case EndWatchable(w) => if before == Some(Some(w)) then Some(None) else before
  }

  /**
   Names are given in the order of creation, monitors point at live watchables only, and each
   operation does its part.
   */
  lemma {:induction false} OperationsDoTheirPart(events: seq<Event>, e: Event, m: nat)
    ensures var s, t := Run(events), Run(events + [e]);
            && (m in t.targets <==> TargetAfter(events, e, m).Some?)
            && (m in t.targets ==> TargetAfter(events, e, m) == Some(t.targets[m]))
            && t.live == (match e
                          case NewWatchable => s.live + {s.madeWatchables}
                          case EndWatchable(w) => s.live - {w}
                          case _ => s.live)
    ensures var s := Run(events);
            && (m in s.targets ==> m < s.madeMonitors && (s.targets[m].Some? ==> s.targets[m].value in s.live))
            && (m in s.live ==> m < s.madeWatchables)
  {
    assert (events + [e])[..|events|] == events;
    if events != [] {
      var before, last := events[..|events| - 1], events[|events| - 1];
      assert events == before + [last];
      OperationsDoTheirPart(before, last, m);
      if last.CopyMonitor? {
        OperationsDoTheirPart(before, last, last.original);
      } else if last.AssignMonitor? {
        OperationsDoTheirPart(before, last, last.from);
      }
    }
  }

  ghost predicate Named(s: State, ms: seq<Monitor>, ws: seq<Watchable>) {
    && |ms| == s.madeMonitors && |ws| == s.madeWatchables
    && NoDuplicates(ms) && NoDuplicates(ws)
    && (forall m :: m in s.targets ==> m < |ms|)
    && (forall w :: w in s.live ==> w < |ws|)
    && (forall m :: m in s.targets && s.targets[m].Some? ==> s.targets[m].value in s.live)
  }

  ghost function LiveMonitors(s: State, ms: seq<Monitor>): set<Monitor>
    requires forall m :: m in s.targets ==> m < |ms|
  {
    set m | m in s.targets :: ms[m]
  }

  ghost function LiveWatchables(s: State, ws: seq<Watchable>): set<Watchable>
    requires forall w :: w in s.live ==> w < |ws|
  {
    set w | w in s.live :: ws[w]
  }

  ghost predicate Points(m: Monitor, target: Option<nat>, ws: seq<Watchable>)
    reads m
  {
    match target
    case None => m.watchable == null
    case Some(w) => w < |ws| && m.watchable == ws[w]
  }

  /** The objects are linked, and point at what the state says. */
  ghost predicate Represents(s: State, ms: seq<Monitor>, ws: seq<Watchable>)
    reads ms, ws
  {
    && Named(s, ms, ws)
    && Linked(LiveMonitors(s, ms), LiveWatchables(s, ws))
    && forall m :: m in s.targets ==> Points(ms[m], s.targets[m], ws)
  }

  /** A live watchable lists exactly the live monitors that the run has pointed at it, once each. */
  lemma ListsAreTheRun(s: State, ms: seq<Monitor>, ws: seq<Watchable>, w: nat)
    requires Represents(s, ms, ws) && w in s.live
    ensures NoDuplicates(ws[w].monitors)
    ensures forall x :: x in ws[w].monitors <==> exists m :: m in s.targets && s.targets[m] == Some(w) && ms[m] == x
  {
    assert ws[w] in LiveWatchables(s, ws);
    forall x
      ensures x in ws[w].monitors <==> exists m :: m in s.targets && s.targets[m] == Some(w) && ms[m] == x
    {
      if x in ws[w].monitors {
        assert x in LiveMonitors(s, ms);
        var m :| m in s.targets && ms[m] == x;
        assert Points(ms[m], s.targets[m], ws);
      }
      if m :| m in s.targets && s.targets[m] == Some(w) && ms[m] == x {
        assert x in LiveMonitors(s, ms) && Points(ms[m], s.targets[m], ws);
      }
    }
  }

  lemma LiveAfterJoining(s: State, target: Option<nat>, ms: seq<Monitor>, ws: seq<Watchable>, x: Monitor)
    requires Named(s, ms, ws) && x !in ms && (target.Some? ==> target.value in s.live)
    ensures Named(Joined(s, target), ms + [x], ws)
    ensures LiveMonitors(Joined(s, target), ms + [x]) == LiveMonitors(s, ms) + {x}
    ensures LiveWatchables(Joined(s, target), ws) == LiveWatchables(s, ws)
  {
    var t := Joined(s, target);
    assert forall m :: m in s.targets ==> m in t.targets && (ms + [x])[m] == ms[m];
    assert s.madeMonitors in t.targets && (ms + [x])[s.madeMonitors] == x;
  }

  /** Add a monitor to what the objects are. */
  method Join(ghost s: State, m: Monitor, ghost target: Option<nat>, ms: seq<Monitor>, ghost ws: seq<Watchable>)
    returns (ms': seq<Monitor>)
    requires Named(s, ms, ws) && m !in ms && (target.Some? ==> target.value in s.live)
    requires Linked(LiveMonitors(s, ms) + {m}, LiveWatchables(s, ws))
    requires forall n :: n in s.targets ==> Points(ms[n], s.targets[n], ws)
    requires Points(m, target, ws)
    ensures Represents(Joined(s, target), ms', ws) && ms' == ms + [m]
  {
    ms' := ms + [m];
    LiveAfterJoining(s, target, ms, ws, m);
    forall n | n in Joined(s, target).targets
      ensures Points(ms'[n], Joined(s, target).targets[n], ws)
    {
      assert n < |ms| ==> ms'[n] == ms[n];
    }
  }

  lemma LiveAfterEndOfMonitor(s: State, m: nat, ms: seq<Monitor>, ws: seq<Watchable>)
    requires Named(s, ms, ws) && m in s.targets
    ensures Named(s.(targets := s.targets - {m}), ms, ws)
    ensures LiveMonitors(s.(targets := s.targets - {m}), ms) == LiveMonitors(s, ms) - {ms[m]}
  {
    var t := s.(targets := s.targets - {m});
    forall n | n in s.targets && n != m
      ensures ms[n] != ms[m] && n in t.targets
    {
    }
  }

  lemma LiveAfterEndOfWatchable(s: State, w: nat, ms: seq<Monitor>, ws: seq<Watchable>)
    requires Named(s, ms, ws) && w in s.live
    ensures Named(Step(s, EndWatchable(w)), ms, ws)
    ensures LiveMonitors(Step(s, EndWatchable(w)), ms) == LiveMonitors(s, ms)
    ensures LiveWatchables(Step(s, EndWatchable(w)), ws) == LiveWatchables(s, ws) - {ws[w]}
  {
    var t := Step(s, EndWatchable(w));
    assert forall n :: n in s.targets <==> n in t.targets;
    forall n | n in s.live && n != w
      ensures ws[n] != ws[w] && n in t.live
    {
    }
  }

  method Watched(s: State, w: nat, ms: seq<Monitor>, ws: seq<Watchable>) returns (ms': seq<Monitor>)
    requires Represents(s, ms, ws) && w in s.live
    modifies ws
    ensures Represents(Joined(s, Some(w)), ms', ws) && ms <= ms'
    ensures forall i :: |ms| <= i < |ms'| ==> fresh(ms'[i])
  {
    hide Linked;
    assert ws[w] in LiveWatchables(s, ws);
    var m := new Monitor.Watch(ws[w], LiveMonitors(s, ms), LiveWatchables(s, ws));
    ms' := Join(s, m, Some(w), ms, ws);
  }

  method Copied(s: State, m: nat, ms: seq<Monitor>, ws: seq<Watchable>) returns (ms': seq<Monitor>)
    requires Represents(s, ms, ws) && m in s.targets
    modifies ws
    ensures Represents(Joined(s, s.targets[m]), ms', ws) && ms <= ms'
    ensures forall i :: |ms| <= i < |ms'| ==> fresh(ms'[i])
  {
    hide Linked;
    assert ms[m] in LiveMonitors(s, ms) && Points(ms[m], s.targets[m], ws);
    var copy := new Monitor.Copy(ms[m], LiveMonitors(s, ms), LiveWatchables(s, ws));
    ms' := Join(s, copy, s.targets[m], ms, ws);
  }

  lemma LiveAfterAssignment(s: State, m: nat, from: nat, ms: seq<Monitor>, ws: seq<Watchable>)
    requires Named(s, ms, ws) && m in s.targets && from in s.targets
    ensures var t := Step(s, AssignMonitor(m, from));
            && Named(t, ms, ws)
            && LiveMonitors(t, ms) == LiveMonitors(s, ms) && LiveWatchables(t, ws) == LiveWatchables(s, ws)
    ensures ms[m] in LiveMonitors(s, ms) && ms[from] in LiveMonitors(s, ms)
    ensures forall w :: w in LiveWatchables(s, ws) ==> w in ws
  {
    assert forall n :: n in s.targets <==> n in s.targets[m := s.targets[from]];
  }

  method Assigned(s: State, m: nat, from: nat, ms: seq<Monitor>, ws: seq<Watchable>)
    requires Represents(s, ms, ws) && m in s.targets && from in s.targets
    modifies ms, ws
    ensures Represents(Step(s, AssignMonitor(m, from)), ms, ws)
  {
    hide Linked, LiveMonitors, LiveWatchables;
    LiveAfterAssignment(s, m, from, ms, ws);
    assert Points(ms[from], s.targets[from], ws);
    ms[m].Assign(ms[from], LiveMonitors(s, ms), LiveWatchables(s, ws));
    forall n | n in s.targets
      ensures Points(ms[n], Step(s, AssignMonitor(m, from)).targets[n], ws)
    {
      assert n != m ==> ms[n] != ms[m];
    }
  }

  method MonitorEnded(s: State, m: nat, ms: seq<Monitor>, ws: seq<Watchable>)
    requires Represents(s, ms, ws) && m in s.targets
    modifies ws
    ensures Represents(Step(s, EndMonitor(m)), ms, ws)
  {
    hide Linked;
    assert ms[m] in LiveMonitors(s, ms);
    LiveAfterEndOfMonitor(s, m, ms, ws);
    assert LiveWatchables(Step(s, EndMonitor(m)), ws) == LiveWatchables(s, ws);
    ms[m].Destroy(LiveMonitors(s, ms), LiveWatchables(s, ws));
  }

  method WatchableEnded(s: State, w: nat, ms: seq<Monitor>, ws: seq<Watchable>)
    requires Represents(s, ms, ws) && w in s.live
    modifies ms
    ensures Represents(Step(s, EndWatchable(w)), ms, ws)
  {
    hide Linked;
    ghost var t := Step(s, EndWatchable(w));
    assert ws[w] in LiveWatchables(s, ws);
    LiveAfterEndOfWatchable(s, w, ms, ws);
    DestroyWatchable(ws[w], LiveMonitors(s, ms), LiveWatchables(s, ws));
    forall n | n in t.targets
      ensures Points(ms[n], t.targets[n], ws)
    {
      assert n in s.targets && ms[n] in LiveMonitors(s, ms);
    }
  }

  method WatchableMade(s: State, ms: seq<Monitor>, ws: seq<Watchable>) returns (ws': seq<Watchable>)
    requires Represents(s, ms, ws)
    ensures Represents(Step(s, NewWatchable), ms, ws') && ws <= ws'
    ensures forall i :: |ws| <= i < |ws'| ==> fresh(ws'[i])
  {
    ghost var t := Step(s, NewWatchable);
    var w := new Watchable();
    ws' := ws + [w];
    assert LiveMonitors(t, ms) == LiveMonitors(s, ms);
    assert LiveWatchables(t, ws') == LiveWatchables(s, ws) + {w} by {
      assert forall v :: v in s.live ==> v in t.live && ws'[v] == ws[v];
      assert s.madeWatchables in t.live && ws'[s.madeWatchables] == w;
    }
  }

  /** One operation on live objects, self-assignment included; an operation on dead ones is not made. */
  method Handle(s: State, e: Event, ms: seq<Monitor>, ws: seq<Watchable>)
    returns (ms': seq<Monitor>, ws': seq<Watchable>)
    requires Represents(s, ms, ws)
    modifies ms, ws
    ensures Represents(Step(s, e), ms', ws') && ms <= ms' && ws <= ws'
    ensures forall i :: |ms| <= i < |ms'| ==> fresh(ms'[i])
    ensures forall i :: |ws| <= i < |ws'| ==> fresh(ws'[i])
  {
    hide Represents;
    ms', ws' := ms, ws;
    match e
    case NewWatchable => ws' := WatchableMade(s, ms, ws);
    case NewMonitor(w) =>
      if w in s.live { ms' := Watched(s, w, ms, ws); }
    case CopyMonitor(m) =>
      if m in s.targets { ms' := Copied(s, m, ms, ws); }
    case AssignMonitor(m, from) =>
      if m in s.targets && from in s.targets { Assigned(s, m, from, ms, ws); }
    case EndMonitor(m) =>
      if m in s.targets {
        MonitorEnded(s, m, ms, ws);
      } else {
        assert s.targets - {m} == s.targets;
      }
    case EndWatchable(w) =>
      if w in s.live { WatchableEnded(s, w, ms, ws); }
  }

  /** Any sequence of operations: the objects are linked, and point at what the run says. */
  method Replay(events: seq<Event>) returns (ms: seq<Monitor>, ws: seq<Watchable>)
    ensures Represents(Run(events), ms, ws)
  {
    hide Represents, Step;
    var s := NOTHING;
    ms, ws := [], [];
    NothingYet();
    for i := 0 to |events|
      invariant s == Run(events[..i]) && Represents(s, ms, ws)
      invariant forall j :: 0 <= j < |ms| ==> fresh(ms[j])
      invariant forall j :: 0 <= j < |ws| ==> fresh(ws[j])
    {
      assert events[..i + 1][..i] == events[..i];
      ms, ws := Handle(s, events[i], ms, ws);
      s := Step(s, events[i]);
    }
    assert events[..|events|] == events;
  }

  lemma NothingYet()
    ensures Represents(NOTHING, [], [])
  {
  }
}
