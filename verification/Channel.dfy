/**
 The chain of operations a channel waits for (channelimpl.h, deferred.h): a singly
 linked list with pointers to its oldest and its newest element, advanced one element
 per success reply while the user's callback runs, and that callback may itself push.
 */
module Channel {

  /** What a callback does to its channel: it pushes operations, in order, and may then destroy the channel. */
  datatype Callback = Callback(pushes: seq<Operation>, destroys: bool)

  /** One requested operation with its two callbacks. */
  datatype Operation = Operation(tag: int, onSuccess: Callback, onError: Callback)

  // What a channel does, as a queue

  datatype Outcome = Succeeded | Failed

  function CallbackOn(operation: Operation, outcome: Outcome): Callback {
    if outcome == Succeeded then operation.onSuccess else operation.onError
  }

  datatype Settlement = Settlement(operation: Operation, outcome: Outcome)

  datatype Phase = StateConnected | StateReady | StateClosing | StateClosed

  /** Every push so far, every settlement so far, and what is still waiting. */
  datatype Log = Log(pushed: seq<Operation>, settled: seq<Settlement>, waiting: seq<Operation>, alive: bool)

  const NEW_LOG := Log([], [], [], true)

  datatype Event =
    | Push(operation: Operation)  // the user requests an operation
    | Reply                       // a success reply arrives
    | Close                       // the channel-close reply arrives
    | Ready(callback: Callback)   // the channel-open reply arrives, and the ready callback runs

  function Pushed(log: Log, operations: seq<Operation>): Log {
    log.(pushed := log.pushed + operations, waiting := log.waiting + operations)
  }

  /** A callback runs. */
  function Called(log: Log, callback: Callback): Log {
    Pushed(log, callback.pushes).(alive := !callback.destroys)
  }

  /** The oldest operation is settled: its callback runs, then the channel moves on, if it still exists. */
  function Settled(log: Log, outcome: Outcome): Log {
    if log.waiting == [] then log
    else
      var head := log.waiting[0];
      var during := Called(log, CallbackOn(head, outcome)).(settled := log.settled + [Settlement(head, outcome)]);
      if during.alive then during.(waiting := during.waiting[1..]) else during
  }

  lemma PushedNone(log: Log, operations: seq<Operation>)
    ensures Pushed(log, operations[..0]) == log
  {
  }

  lemma PushedOneMore(log: Log, operations: seq<Operation>, i: nat)
    requires i < |operations|
    ensures Pushed(Pushed(log, operations[..i]), [operations[i]]) == Pushed(log, operations[..i + 1])
  {
    assert operations[..i + 1] == operations[..i] + [operations[i]];
  }

  /** The operations of a callback tree in which everything has this outcome, the operation itself included. */
  function Weight(operation: Operation, outcome: Outcome): (w: nat)
    ensures w > 0
  {
    match outcome
    case Succeeded => 1 + TotalWeight(operation.onSuccess.pushes, outcome)
    case Failed => 1 + TotalWeight(operation.onError.pushes, outcome)
  }

  function TotalWeight(operations: seq<Operation>, outcome: Outcome): nat {
    if operations == [] then 0 else Weight(operations[0], outcome) + TotalWeight(operations[1..], outcome)
  }

  lemma {:induction false} TotalWeightOfConcatenation(a: seq<Operation>, b: seq<Operation>, outcome: Outcome)
    ensures TotalWeight(a + b, outcome) == TotalWeight(a, outcome) + TotalWeight(b, outcome)
  {
    if a == [] {
      assert a + b == b;
    } else {
      TotalWeightOfConcatenation(a[1..], b, outcome);
      assert (a + b)[1..] == a[1..] + b;
    }
  }

  /** A settlement leaves exactly one operation less to come, whatever the callback pushed. */
  lemma SettledWeight(log: Log, outcome: Outcome)
    requires log.waiting != [] && Settled(log, outcome).alive
    ensures Settled(log, outcome).waiting == log.waiting[1..] + CallbackOn(log.waiting[0], outcome).pushes
    ensures TotalWeight(Settled(log, outcome).waiting, outcome) == TotalWeight(log.waiting, outcome) - 1
  {
    var head := log.waiting[0];
    var pushes := CallbackOn(head, outcome).pushes;
    assert (log.waiting + pushes)[1..] == log.waiting[1..] + pushes;
    TotalWeightOfConcatenation(log.waiting[1..], pushes, outcome);
  }

  /** Everything waiting fails, oldest first, and so does what the error callbacks push. */
  function Drained(log: Log): Log
    decreases TotalWeight(log.waiting, Failed)
  {
    if log.waiting == [] then log
    else
      var after := Settled(log, Failed);
      if after.alive then
        SettledWeight(log, Failed);
        Drained(after)
      else after
  }

  function Step(log: Log, event: Event): Log {
    if !log.alive then log
    else
      match event
      case Push(operation) => Pushed(log, [operation])
      case Reply => Settled(log, Succeeded)
      case Close =>
        var after := Settled(log, Succeeded);
        if after.alive then Drained(after) else after
      case Ready(callback) => Called(log, callback)
  }

  function Run(events: seq<Event>): Log {
    if events == [] then NEW_LOG else Step(Run(events[..|events| - 1]), events[|events| - 1])
  }

  function Operations(settled: seq<Settlement>): (os: seq<Operation>)
    ensures |os| == |settled|
    ensures forall i :: 0 <= i < |os| ==> os[i] == settled[i].operation
  {
    seq(|settled|, i requires 0 <= i < |settled| => settled[i].operation)
  }

  /** First in, first out: what was settled and what waits is what was pushed, in order. */
  ghost predicate InOrder(log: Log) {
    if log.alive then log.pushed == Operations(log.settled) + log.waiting
    else Operations(log.settled) <= log.pushed
  }

  lemma PushesKeepOrder(log: Log, callback: Callback)
    requires InOrder(log) && log.alive
    ensures InOrder(Pushed(log, callback.pushes)) && InOrder(Called(log, callback))
  {
    assert log.pushed + callback.pushes == Operations(log.settled) + (log.waiting + callback.pushes);
  }

  lemma SettledKeepsOrder(log: Log, outcome: Outcome)
    requires InOrder(log) && log.alive
    ensures InOrder(Settled(log, outcome))
  {
    if log.waiting != [] {
      var head, after := log.waiting[0], Settled(log, outcome);
      var pushes := CallbackOn(head, outcome).pushes;
      assert Operations(after.settled) == Operations(log.settled) + [head];
      assert log.pushed == Operations(log.settled) + [head] + log.waiting[1..];
      assert after.pushed == Operations(after.settled) + (log.waiting[1..] + pushes);
      assert (log.waiting + pushes)[1..] == log.waiting[1..] + pushes;
    }
  }

  /**
   Draining keeps the queue in order, fails every operation it settles, and leaves nothing waiting
   unless a callback destroys the channel: what the error callbacks push fails as well.
   */
  lemma {:induction false} DrainFailsEverything(log: Log)
    requires InOrder(log) && log.alive
    ensures var after := Drained(log);
            && InOrder(after)
            && (after.alive ==> after.waiting == [] && Operations(after.settled) == after.pushed
                                && |after.settled| == |log.settled| + TotalWeight(log.waiting, Failed))
            && log.settled <= after.settled
            && forall i :: |log.settled| <= i < |after.settled| ==> after.settled[i].outcome == Failed
    decreases TotalWeight(log.waiting, Failed)
  {
    if log.waiting == [] {
      assert Operations(log.settled) + [] == Operations(log.settled);
    } else {
      SettledKeepsOrder(log, Failed);
      if Settled(log, Failed).alive {
        SettledWeight(log, Failed);
        DrainFailsEverything(Settled(log, Failed));
      }
    }
  }

  lemma StepKeepsOrder(log: Log, event: Event)
    requires InOrder(log)
    ensures InOrder(Step(log, event))
  {
    if log.alive {
      match event
      case Push(operation) => PushesKeepOrder(log, Callback([operation], false));
      case Reply => SettledKeepsOrder(log, Succeeded);
      case Close =>
        SettledKeepsOrder(log, Succeeded);
        if Settled(log, Succeeded).alive {
          DrainFailsEverything(Settled(log, Succeeded));
        }
      case Ready(callback) => PushesKeepOrder(log, callback);
    }
  }

  /** Settlement n is of the n-th pushed operation in every run, whatever the callbacks push. */
  lemma {:induction false} SettledInPushOrder(events: seq<Event>)
    ensures InOrder(Run(events))
    ensures var log := Run(events);
            |log.settled| <= |log.pushed|
            && forall n :: 0 <= n < |log.settled| ==> log.settled[n].operation == log.pushed[n]
  {
    if events != [] {
      SettledInPushOrder(events[..|events| - 1]);
      StepKeepsOrder(Run(events[..|events| - 1]), events[|events| - 1]);
    }
    var log := Run(events);
    assert Operations(log.settled) <= log.pushed;
    forall n | 0 <= n < |log.settled|
      ensures log.settled[n].operation == log.pushed[n]
    {
      assert Operations(log.settled)[n] == log.pushed[n];
    }
  }

  /** The next success reply after n settlements completes the operation pushed as number n. */
  lemma ReplyCompletesInTurn(events: seq<Event>)
    requires Run(events).alive && Run(events).waiting != []
    ensures var log := Run(events);
            var n := |log.settled|;
            && n < |log.pushed|
            && Run(events + [Reply]).settled == log.settled + [Settlement(log.pushed[n], Succeeded)]
  {
    SettledInPushOrder(events);
    var log := Run(events);
    assert (events + [Reply])[..|events|] == events;
    assert log.pushed[|log.settled|] == (Operations(log.settled) + log.waiting)[|log.settled|];
  }

  /**
   After the close reply a surviving channel waits for nothing: the oldest operation succeeded,
   and every other one, those pushed by callbacks during the close included, failed.
   */
  lemma CloseSettlesEverything(events: seq<Event>)
    requires Run(events).alive && Run(events + [Close]).alive
    ensures var log, after := Run(events), Run(events + [Close]);
            && after.waiting == [] && Operations(after.settled) == after.pushed
            && log.settled <= after.settled
            && forall i :: |log.settled| <= i < |after.settled| ==>
                 after.settled[i].outcome == if i == |log.settled| && log.waiting != [] then Succeeded else Failed
  {
    SettledInPushOrder(events);
    assert (events + [Close])[..|events|] == events;
    SettledKeepsOrder(Run(events), Succeeded);
    DrainFailsEverything(Settled(Run(events), Succeeded));
  }

  // Everything that is requested is pushed

  function CallbackOf(s: Settlement): Callback {
    match s.outcome
    case Succeeded => s.operation.onSuccess
    case Failed => s.operation.onError
  }

  /** What the callbacks of these settlements push, one after the other. */
  function PushesOf(ss: seq<Settlement>): seq<Operation> {
    if ss == [] then [] else CallbackOf(ss[0]).pushes + PushesOf(ss[1..])
  }

  predicate NoneDestroys(ss: seq<Settlement>) {
    forall i :: 0 <= i < |ss| ==> !CallbackOf(ss[i]).destroys
  }

  /** From one state to a later one: what was settled in between, and what that pushed and destroyed. */
  ghost predicate Between(log: Log, after: Log, ss: seq<Settlement>) {
    && after.settled == log.settled + ss
    && after.pushed == log.pushed + PushesOf(ss)
    && (after.alive <==> NoneDestroys(ss))
  }

  lemma {:induction false} PushesOfConcatenation(a: seq<Settlement>, b: seq<Settlement>)
    ensures PushesOf(a + b) == PushesOf(a) + PushesOf(b)
  {
    if a == [] {
      assert a + b == b;
      assert [] + PushesOf(b) == PushesOf(b);
    } else {
      PushesOfConcatenation(a[1..], b);
      PushesOfFirst(a[0], a[1..]);
      PushesOfFirst(a[0], a[1..] + b);
      Reassociate([a[0]], a[1..], b);
      Reassociate(CallbackOf(a[0]).pushes, PushesOf(a[1..]), PushesOf(b));
      hide CallbackOf, PushesOf;
      assert [a[0]] + a[1..] == a;
    }
  }

  lemma Reassociate<T>(a: seq<T>, b: seq<T>, c: seq<T>)
    ensures a + b + c == a + (b + c)
  {
  }

  lemma PushesOfFirst(s: Settlement, ss: seq<Settlement>)
    ensures PushesOf([s] + ss) == CallbackOf(s).pushes + PushesOf(ss)
  {
    assert ([s] + ss)[1..] == ss;
  }

  lemma NoneDestroysOfConcatenation(a: seq<Settlement>, b: seq<Settlement>)
    ensures NoneDestroys(a + b) <==> NoneDestroys(a) && NoneDestroys(b)
  {
    hide CallbackOf;
    assert forall i :: 0 <= i < |a| ==> (a + b)[i] == a[i];
    assert forall i :: 0 <= i < |b| ==> (a + b)[|a| + i] == b[i];
  }

  lemma BetweenJoins(log: Log, middle: Log, after: Log, a: seq<Settlement>, b: seq<Settlement>)
    requires Between(log, middle, a) && Between(middle, after, b) && middle.alive
    ensures Between(log, after, a + b)
  {
    PushesOfConcatenation(a, b);
    NoneDestroysOfConcatenation(a, b);
    hide NoneDestroys, PushesOf;
  }

  lemma SettledBetween(log: Log, outcome: Outcome)
    requires log.alive
    ensures Between(log, Settled(log, outcome),
                    if log.waiting == [] then [] else [Settlement(log.waiting[0], outcome)])
  {
    if log.waiting != [] {
      var ss := [Settlement(log.waiting[0], outcome)];
      assert PushesOf(ss) == CallbackOf(ss[0]).pushes + PushesOf([]) == CallbackOf(ss[0]).pushes;
    } else {
      assert log.settled + [] == log.settled && log.pushed + [] == log.pushed;
    }
  }

  /** What has been settled after log. */
  function SettledSince(log: Log, after: Log): seq<Settlement> {
    if |log.settled| <= |after.settled| then after.settled[|log.settled|..] else []
  }

  lemma {:induction false} DrainedBetween(log: Log)
    requires log.alive
    ensures Between(log, Drained(log), SettledSince(log, Drained(log)))
    decreases TotalWeight(log.waiting, Failed)
  {
    if log.waiting == [] {
      assert log.settled + [] == log.settled && log.pushed + [] == log.pushed;
    } else {
      SettledBetween(log, Failed);
      var after, ss := Settled(log, Failed), [Settlement(log.waiting[0], Failed)];
      if after.alive {
        SettledWeight(log, Failed);
        DrainedBetween(after);
        BetweenJoins(log, after, Drained(after), ss, SettledSince(after, Drained(after)));
        assert Drained(log).settled == log.settled + (ss + SettledSince(after, Drained(after)));
      }
    }
  }

  /** A requested operation waits behind all others, and nothing else changes. */
  lemma PushIsEnqueued(events: seq<Event>, operation: Operation)
    requires Run(events).alive
    ensures var log, after := Run(events), Run(events + [Push(operation)]);
            && after.alive && after.settled == log.settled
            && after.waiting == log.waiting + [operation] && after.pushed == log.pushed + [operation]
  {
    assert (events + [Push(operation)])[..|events|] == events;
  }

  /** The ready callback runs at once: what it pushes waits behind all others. */
  lemma ReadyRunsItsCallback(events: seq<Event>, callback: Callback)
    requires Run(events).alive
    ensures var log, after := Run(events), Run(events + [Ready(callback)]);
            && after.alive == !callback.destroys && after.settled == log.settled
            && after.waiting == log.waiting + callback.pushes && after.pushed == log.pushed + callback.pushes
  {
    assert (events + [Ready(callback)])[..|events|] == events;
  }

  /**
   A reply settles the oldest operation, if there is one; in any case the channel gains exactly what
   the callbacks that ran push, and it is destroyed exactly if one of them destroys it.
   */
  lemma ReplyRunsTheCallback(events: seq<Event>)
    requires Run(events).alive
    ensures var log, after := Run(events), Run(events + [Reply]);
            && Between(log, after, if log.waiting == [] then [] else [Settlement(log.waiting[0], Succeeded)])
            && (log.waiting == [] ==> after == log)
            && (log.waiting != [] && after.alive ==>
                  after.waiting == log.waiting[1..] + log.waiting[0].onSuccess.pushes)
  {
    assert (events + [Reply])[..|events|] == events;
    SettledBetween(Run(events), Succeeded);
    if Run(events).waiting != [] && Settled(Run(events), Succeeded).alive {
      SettledWeight(Run(events), Succeeded);
    }
  }

  /** The same of a close, which settles more: the callbacks of all it settled have run, and no others. */
  lemma CloseRunsTheCallbacks(events: seq<Event>)
    requires Run(events).alive
    ensures var log, after := Run(events), Run(events + [Close]);
            Between(log, after, SettledSince(log, after))
  {
    assert (events + [Close])[..|events|] == events;
    CloseBetween(Run(events));
  }

  lemma CloseBetween(log: Log)
    requires log.alive
    ensures Between(log, Step(log, Close), SettledSince(log, Step(log, Close)))
  {
    hide Settled, Drained, PushesOf, NoneDestroys;
    var after := Settled(log, Succeeded);
    var ss := if log.waiting == [] then [] else [Settlement(log.waiting[0], Succeeded)];
    SettledBetween(log, Succeeded);
    if after.alive {
      DrainedBetween(after);
      BetweenJoins(log, after, Drained(after), ss, SettledSince(after, Drained(after)));
    }
  }

  /** A destroyed channel stays as it is. */
  lemma {:induction false} DestroyedIsFinal(before: seq<Event>, after: seq<Event>)
    requires !Run(before).alive
    ensures Run(before + after) == Run(before)
  {
    if after == [] {
      assert before + after == before;
    } else {
      DestroyedIsFinal(before, after[..|after| - 1]);
      assert (before + after)[..|before + after| - 1] == before + after[..|after| - 1];
    }
  }

  /** The operations the user requests, in order. */
  function Requested(events: seq<Event>): seq<Operation> {
    if events == [] then []
    else
      Requested(events[..|events| - 1])
      + match events[|events| - 1]
        case Push(operation) => [operation]
        case _ => []
  }

  function RepliesIn(events: seq<Event>): nat {
    if events == [] then 0
    else RepliesIn(events[..|events| - 1]) + if events[|events| - 1] == Reply then 1 else 0
  }

  const NO_CALLBACK := Callback([], false)

  /** No callback does anything, nothing is closed, and no reply comes unrequested. */
  predicate Plain(events: seq<Event>) {
    events == [] ||
    var before, e := events[..|events| - 1], events[|events| - 1];
    && Plain(before)
    && match e
       case Push(operation) => operation.onSuccess == NO_CALLBACK
       case Ready(callback) => callback == NO_CALLBACK
       case Reply => RepliesIn(before) < |Requested(before)|
       case Close => false
  }

  /** Then the channel is the plain queue: what is pushed is what is requested, and n replies settle the first n. */
  lemma {:induction false} PlainQueue(events: seq<Event>)
    requires Plain(events)
    ensures RepliesIn(events) <= |Requested(events)|
    ensures forall o :: o in Requested(events) ==> o.onSuccess == NO_CALLBACK
    ensures var log, n := Run(events), RepliesIn(events);
            && log.alive && log.pushed == Requested(events)
            && |log.settled| == n && log.waiting == Requested(events)[n..]
            && forall i :: 0 <= i < n ==> log.settled[i] == Settlement(Requested(events)[i], Succeeded)
  {
    if events != [] {
      var before, e := events[..|events| - 1], events[|events| - 1];
      PlainQueue(before);
      PlainStep(Requested(before), RepliesIn(before), Run(before), e);
    }
  }

  lemma PlainStep(requested: seq<Operation>, n: nat, log: Log, e: Event)
    requires n <= |requested| && log.alive && log.pushed == requested && log.waiting == requested[n..]
    requires e.Reply? ==> n < |requested| && requested[n].onSuccess == NO_CALLBACK
    requires e.Ready? ==> e.callback == NO_CALLBACK
    ensures e.Push? ==> Step(log, e) == log.(pushed := requested + [e.operation],
                                             waiting := (requested + [e.operation])[n..])
    ensures e.Ready? ==> Step(log, e) == log
    ensures e.Reply? ==> Step(log, e) == log.(waiting := requested[n + 1..],
                                              settled := log.settled + [Settlement(requested[n], Succeeded)])
  {
    if e.Ready? {
      assert log.pushed + [] == log.pushed && log.waiting + [] == log.waiting;
    }
    if e.Reply? {
      assert log.waiting[0] == requested[n] && log.waiting[1..] == requested[n + 1..];
      assert log.pushed + [] == log.pushed && log.waiting + [] == log.waiting;
    }
  }

  // Nothing is lost

  predicate Harmless(operation: Operation) {
    !operation.onSuccess.destroys && forall o :: o in operation.onSuccess.pushes ==> Harmless(o)
  }

  function Replies(log: Log, n: nat): Log
    decreases n
  {
    if n == 0 then log else Replies(Step(log, Reply), n - 1)
  }

  /** A reply to a waiting operation settles it and leaves exactly one operation less to come. */
  lemma ReplySettlesOne(log: Log)
    requires log.alive && log.waiting != [] && Harmless(log.waiting[0])
    ensures var after := Step(log, Reply);
            && after.alive
            && after.settled == log.settled + [Settlement(log.waiting[0], Succeeded)]
            && after.waiting == log.waiting[1..] + log.waiting[0].onSuccess.pushes
            && TotalWeight(after.waiting, Succeeded) == TotalWeight(log.waiting, Succeeded) - 1
  {
    SettledWeight(log, Succeeded);
  }

  /**
   As many success replies as there are operations in the waiting callback trees settle
   every one of them: no operation pushed inside a callback is lost, the last included.
   */
  lemma {:induction false} EnoughRepliesSettleEverything(log: Log)
    requires log.alive && InOrder(log)
    requires forall o :: o in log.waiting ==> Harmless(o)
    ensures var after := Replies(log, TotalWeight(log.waiting, Succeeded));
            && after.alive && after.waiting == []
            && |after.settled| == |log.settled| + TotalWeight(log.waiting, Succeeded)
            && Operations(after.settled) == after.pushed
    decreases TotalWeight(log.waiting, Succeeded)
  {
    if log.waiting == [] {
      assert Operations(log.settled) == log.pushed;
    } else {
      ReplySettlesOne(log);
      StepKeepsOrder(log, Reply);
      var after := Step(log, Reply);
      forall o | o in after.waiting
        ensures Harmless(o)
      {
        assert o in log.waiting[1..] || o in log.waiting[0].onSuccess.pushes;
      }
      EnoughRepliesSettleEverything(after);
    }
  }

  // The objects

  class Deferred {
    const operation: Operation
    var next: Deferred?
    var failed: bool

    constructor (operation: Operation)
      ensures this.operation == operation && next == null && !failed
    {
      this.operation := operation;
      next := null;
      failed := false;
    }

    /** add: store the successor. */
    method Add(deferred: Deferred)
      modifies this`next
      ensures next == deferred
    {
      next := deferred;
    }

    /** reportSuccess: the callback runs, and only then the successor is read. */
    method ReportSuccess(channel: ChannelImpl) returns (following: Deferred?)
      requires channel.Valid() && channel.alive
      modifies channel`oldest, channel`newest, channel`chain, channel`pushed, channel`alive
      modifies channel`synchronous, channel`queueEmpty, channel.chain`next
      ensures channel.CallbackRan(old(channel.chain), old(channel.State()), operation.onSuccess)
      ensures fresh(set d | d in channel.chain && d !in old(channel.chain))
      ensures operation.onSuccess.pushes == [] ==>
                channel.synchronous == old(channel.synchronous) && channel.queueEmpty == old(channel.queueEmpty)
      ensures following == next
    {
      channel.RunCallback(operation.onSuccess);
      following := next;
    }

    /** reportError: the operation is marked as failed before its callback runs. */
    method ReportError(channel: ChannelImpl) returns (following: Deferred?)
      requires channel.Valid() && channel.alive
      modifies channel`oldest, channel`newest, channel`chain, channel`pushed, channel`alive
      modifies channel`synchronous, channel`queueEmpty, channel.chain`next, this`failed
      ensures channel.CallbackRan(old(channel.chain), old(channel.State()), operation.onError)
      ensures fresh(set d | d in channel.chain && d !in old(channel.chain))
      ensures failed && following == next
    {
      failed := true;
      channel.RunCallback(operation.onError);
      following := next;
    }
  }

  class ChannelImpl {
    var oldest: Deferred?
    var newest: Deferred?
    var phase: Phase
    var synchronous: bool
    var queueEmpty: bool  // is the queue of frames still to be sent empty?
    var alive: bool       // what a Monitor on this channel reports
    ghost var chain: seq<Deferred>
    ghost var pushed: seq<Operation>
    ghost var settled: seq<Settlement>

    /** The chain from oldest via next visits distinct objects and ends at newest; both are null together. */
    ghost predicate Valid()
      reads this`oldest, this`newest, this`chain, chain`next
    {
      && (forall i, j :: 0 <= i < j < |chain| ==> chain[i] != chain[j])
      && (forall i {:trigger chain[i].next} :: 0 <= i < |chain| - 1 ==> chain[i].next == chain[i + 1])
      && (chain != [] ==> chain[|chain| - 1].next == null)
      && oldest == (if chain == [] then null else chain[0])
      && newest == (if chain == [] then null else chain[|chain| - 1])
    }

    ghost function Waiting(): (os: seq<Operation>)
      reads this`chain
      ensures |os| == |chain|
      ensures forall i :: 0 <= i < |os| ==> os[i] == chain[i].operation
    {
      var deferreds := chain;
      seq(|deferreds|, i requires 0 <= i < |deferreds| => deferreds[i].operation)
    }

    ghost function State(): Log
      reads this`chain, this`pushed, this`settled, this`alive
    {
      Log(pushed, settled, Waiting(), alive)
    }

    /** The callback has only extended the chain, and the queue is as it says. */
    ghost predicate CallbackRan(chainBefore: seq<Deferred>, before: Log, callback: Callback)
      reads this`oldest, this`newest, this`chain, this`pushed, this`settled, this`alive, chain`next
    {
      Valid() && chainBefore <= chain && State() == Called(before, callback)
    }

    constructor ()
      ensures Valid() && State() == NEW_LOG && phase == StateConnected && fresh(this)
      ensures chain == []
    {
      oldest, newest := null, null;
      phase, synchronous, queueEmpty, alive := StateConnected, false, true, true;
      chain, pushed, settled := [], [], [];
    }

    /** send: the frame may be sent or queued, and may start synchronous mode. */
    method Send()
      modifies this`synchronous, this`queueEmpty
    {
      synchronous, queueEmpty := *, *;
    }

    /** push of a deferred: it becomes the newest of the chain. */
    method Link(deferred: Deferred)
      requires Valid() && deferred !in chain && deferred.next == null
      modifies this`oldest, this`newest, this`chain, chain`next
      ensures Valid() && chain == old(chain) + [deferred]
      ensures Waiting() == old(Waiting()) + [deferred.operation]
    {
      if oldest == null {
        oldest := deferred;
      } else {
        newest.Add(deferred);
      }
      newest := deferred;
      chain := chain + [deferred];
    }

    /** push of a frame, as documented: the frame is sent and a deferred for its reply is pushed. */
    method Push(operation: Operation)
      requires Valid() && alive
      modifies this`oldest, this`newest, this`chain, this`pushed, this`synchronous, this`queueEmpty, chain`next
      ensures Valid() && State() == old(Step(State(), Event.Push(operation)))
      ensures old(chain) <= chain && fresh(set d | d in chain && d !in old(chain))
    {
      hide Valid;
      Send();
      var deferred := new Deferred(operation);
      Link(deferred);
      pushed := pushed + [operation];
    }

    /** A callback of the user's: it pushes, and may then destroy the channel. */
    method RunCallback(callback: Callback)
      requires Valid() && alive
      modifies this`oldest, this`newest, this`chain, this`pushed, this`alive
      modifies this`synchronous, this`queueEmpty, chain`next
      ensures CallbackRan(old(chain), old(State()), callback) && fresh(set d | d in chain && d !in old(chain))
      ensures callback.pushes == [] ==> synchronous == old(synchronous) && queueEmpty == old(queueEmpty)
    {
      hide Valid;
      ghost var before := State();
      PushedNone(before, callback.pushes);
      for i := 0 to |callback.pushes|
        invariant Valid() && alive && old(chain) <= chain && fresh(set d | d in chain && d !in old(chain))
        invariant State() == Pushed(before, callback.pushes[..i])
        invariant i == 0 ==> synchronous == old(synchronous) && queueEmpty == old(queueEmpty)
      {
        PushedOneMore(before, callback.pushes, i);
        Push(callback.pushes[i]);
      }
      assert callback.pushes[..|callback.pushes|] == callback.pushes;
      if callback.destroys {
        alive := false;
      }
    }

    /** The channel moves on; without a successor, the newest element was just used. */
    method Advance(next: Deferred?)
      requires Valid() && chain != [] && next == chain[0].next
      modifies this`oldest, this`newest, this`chain
      ensures Valid() && chain == old(chain)[1..] && Waiting() == old(Waiting())[1..]
    {
      oldest := next;
      if next == null {
        newest := null;
      }
      chain := chain[1..];
    }

    /** The oldest operation's callback runs for its outcome. */
    method TellOldest(outcome: Outcome) returns (next: Deferred?)
      requires Valid() && alive && chain != []
      modifies this`oldest, this`newest, this`chain, this`pushed, this`alive
      modifies this`synchronous, this`queueEmpty, chain`next, {chain[0]}`failed
      ensures CallbackRan(old(chain), old(State()), CallbackOn(old(chain)[0].operation, outcome))
      ensures fresh(set d | d in chain && d !in old(chain))
      ensures chain != [] && next == chain[0].next
      ensures old(chain)[0].failed == (outcome == Failed || old(chain[0].failed))
      ensures outcome == Succeeded && old(chain)[0].operation.onSuccess.pushes == [] ==>
                synchronous == old(synchronous) && queueEmpty == old(queueEmpty)
    {
      var cb := oldest;
      if outcome == Succeeded {
        next := cb.ReportSuccess(this);
      } else {
        next := cb.ReportError(this);
      }
    }

    /** The oldest operation is told its outcome; then, if the channel still exists, it moves on. */
    method SettleOldest(outcome: Outcome) returns (valid: bool)
      requires Valid() && alive && chain != []
      modifies this`oldest, this`newest, this`chain, this`pushed, this`settled, this`alive
      modifies this`synchronous, this`queueEmpty, chain`next, {chain[0]}`failed
      ensures Valid() && State() == old(Settled(State(), outcome)) && valid == alive
      ensures fresh(set d | d in chain && d !in old(chain))
      ensures valid ==> old(chain)[1..] <= chain
      ensures old(chain)[0].failed == (outcome == Failed || old(chain[0].failed))
      ensures outcome == Succeeded && old(chain)[0].operation.onSuccess.pushes == [] ==>
                synchronous == old(synchronous) && queueEmpty == old(queueEmpty)
    {
      hide Valid, Pushed, CallbackOn;
      ghost var operation := Waiting()[0];
      var next := TellOldest(outcome);
      settled := settled + [Settlement(operation, outcome)];
      if !alive {
        return false;
      }
      Advance(next);
      valid := true;
    }

    /** reportSuccess */
    method ReportSuccess() returns (valid: bool)
      requires Valid() && alive
      modifies this`oldest, this`newest, this`chain, this`pushed, this`settled, this`alive
      modifies this`synchronous, this`queueEmpty, chain`next, chain`failed
      ensures Valid() && State() == old(Step(State(), Reply)) && valid == alive
      ensures fresh(set d | d in chain && d !in old(chain))
      ensures old(oldest) == null ==> synchronous == old(synchronous)
      ensures old(oldest) != null && old(oldest).operation.onSuccess.pushes == [] ==>
                synchronous == (old(synchronous) && !old(queueEmpty))
    {
      if oldest == null {
        return true;
      }
      if synchronous && queueEmpty {
        synchronous := false;
      }
      valid := SettleOldest(Succeeded);
    }

    /** One failure on the way to none waiting. */
    method FailOldest() returns (valid: bool)
      requires Valid() && alive && chain != []
      modifies this`oldest, this`newest, this`chain, this`pushed, this`settled, this`alive
      modifies this`synchronous, this`queueEmpty, chain`next, {chain[0]}`failed
      ensures Valid() && valid == alive && fresh(set d | d in chain && d !in old(chain))
      ensures old(Drained(State())) == if alive then Drained(State()) else State()
      ensures alive ==> TotalWeight(Waiting(), Failed) < old(TotalWeight(Waiting(), Failed))
      ensures alive ==> forall d :: d in old(chain) ==> d in chain || d.failed
    {
      hide Valid, Settled, TotalWeight, Waiting;
      ghost var log, all := State(), chain;
      WaitingIsTheChain();
      valid := SettleOldest(Failed);
      if valid {
        SettledWeight(log, Failed);
        assert forall d :: d in all ==> d == all[0] || d in all[1..];
      }
    }

    lemma WaitingIsTheChain()
      ensures Waiting() == [] <==> chain == []
    {
    }

    /**
     reportError, as documented: every operation still waiting fails, oldest first, as do those
     that the error callbacks push, unless one of them destroys the channel.
     */
    method ReportError()
      requires Valid() && alive
      modifies this`oldest, this`newest, this`chain, this`pushed, this`settled, this`alive
      modifies this`synchronous, this`queueEmpty, chain
      ensures Valid() && State() == old(Drained(State())) && fresh(set d | d in chain && d !in old(chain))
      ensures alive ==> oldest == null && newest == null
      ensures alive ==> forall d :: d in old(chain) ==> d.failed
    {
      hide Valid, Drained, TotalWeight, Waiting;
      ghost var before := State();
      ChainIsEmptyOrNot();
      while oldest != null
        invariant Valid() && alive && Drained(State()) == Drained(before)
        invariant oldest == null <==> chain == []
        invariant chain == [] ==> newest == null
        invariant fresh(set d | d in chain && d !in old(chain))
        invariant forall d :: d in old(chain) ==> d in chain || d.failed
        decreases TotalWeight(Waiting(), Failed)
      {
        var valid := FailOldest();
        if !valid {
          return;
        }
        ChainIsEmptyOrNot();
      }
      NothingToDrain();
    }

    lemma NothingToDrain()
      ensures chain == [] ==> Drained(State()) == State()
    {
    }

    lemma ChainIsEmptyOrNot()
      requires Valid()
      ensures oldest == null <==> chain == []
      ensures chain == [] ==> newest == null
    {
    }

    /** reportClosed: the close itself succeeds, everything behind it fails. */
    method ReportClosed() returns (valid: bool)
      requires Valid() && alive
      modifies this, chain
      ensures Valid() && State() == old(Step(State(), Close)) && fresh(set d | d in chain && d !in old(chain))
      ensures phase == StateClosed && valid == old(Settled(State(), Succeeded)).alive
    {
      hide Valid;
      phase := StateClosed;
      valid := ReportSuccess();
      if !alive {
        return;
      }
      ReportError();
    }

    /** reportReady, up to the call of onSynchronized. */
    method ReportReady(onReady: Callback)
      requires Valid() && alive
      modifies this`oldest, this`newest, this`chain, this`pushed, this`alive
      modifies this`synchronous, this`queueEmpty, this`phase, chain`next
      ensures Valid() && State() == old(Step(State(), Ready(onReady))) && fresh(set d | d in chain && d !in old(chain))
      ensures phase == if old(phase) == StateConnected then StateReady else old(phase)
      ensures onReady.pushes == [] ==> synchronous == (old(synchronous) && !old(queueEmpty))
    {
      hide Valid;
      if phase == StateConnected {
        phase := StateReady;
      }
      if synchronous && queueEmpty {
        synchronous := false;
      }
      RunCallback(onReady);
    }

    /** One event, if the channel still exists. */
    method Handle(event: Event)
      requires Valid()
      modifies this, chain
      ensures Valid() && State() == old(Step(State(), event))
      ensures fresh(set d | d in chain && d !in old(chain))
    {
      hide Valid;
      if !alive {
        return;
      }
      match event
      case Push(operation) => Push(operation);
      case Reply =>
        var valid := ReportSuccess();
      case Close =>
        var valid := ReportClosed();
      case Ready(callback) => ReportReady(callback);
    }
  }

  /** A channel from its first to its last event: the object is where the run is. */
  method Operate(events: seq<Event>) returns (c: ChannelImpl)
    ensures fresh(c) && c.Valid() && c.State() == Run(events)
  {
    hide Step;
    c := new ChannelImpl();
    for i := 0 to |events|
      invariant fresh(c) && fresh(set d | d in c.chain) && c.Valid()
      invariant c.State() == Run(events[..i])
    {
      assert events[..i + 1][..i] == events[..i];
      c.Handle(events[i]);
    }
    assert events[..|events|] == events;
  }
}
