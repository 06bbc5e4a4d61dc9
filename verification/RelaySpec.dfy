/**
 One proxied connection as a state machine over its events (proxy.cpp,
 connectionprocessor.cpp, forwarder.cpp): reads, connect results, writes to the sockets
 and closes arrive in any order, and every evbuffer operation may fail.
 */
module RelaySpec {
  import opened Basics
  import opened Wire

  const MSG_SIZE := 12
  const TAG_INT := 1
  const SIZE_INT := 4

  datatype ServerHost = ServerHost(name: string, port: nat)

  type Config = map<int, ServerHost>

  /** getHostById: an unknown id has an empty host. */
  function HostById(config: Config, id: int): ServerHost {
    if id in config then config[id] else ServerHost("", 0)
  }

  datatype Decision = NeedMore | Reject | Route(id: int, host: ServerHost)

  /** ntohl of a 32-bit word. */
  function Ntohl(bs: bytes): (v: nat)
    requires |bs| == 4
    ensures v < TWO_TO_THE_32
  {
    BigEndianInvertsBigEndianValue(bs);
    assert Limit(4) == 256 * 256 * 256 * 256;
    BigEndianValue(bs)
  }

  /** The conversion of a 32-bit word to int. */
  function ToInt32(v: nat): int {
    if v >= 0x8000_0000 then v - TWO_TO_THE_32 else v
  }

  /** What the proxy makes of the bytes at the head of the client's input buffer. */
  function Decide(config: Config, input: bytes): Decision {
    if |input| < MSG_SIZE then NeedMore
    else if Ntohl(input[0..4]) != TAG_INT || Ntohl(input[4..8]) != SIZE_INT then Reject
    else
      var id := ToInt32(Ntohl(input[8..12]));
      var host := HostById(config, id);
      if host.name == "" then Reject else Route(id, host)
  }

  datatype Phase = Begin | Connecting | Fwd

  /** A direction of the relay: received so far, still in the input buffer, in the output buffer, on the wire. */
  datatype Flow = Flow(received: bytes, input: bytes, output: bytes, sent: bytes) {
    function Receive(chunk: bytes): Flow {
      this.(received := received + chunk, input := input + chunk)
    }

    /** evbuffer_add_buffer: everything moves, or nothing does. */
    function Move(ok: bool): Flow {
      if ok then this.(input := [], output := output + input) else this
    }

    function Flush(n: nat): Flow {
      if n <= |output| then this.(output := output[n..], sent := sent + output[..n]) else this
    }

    /** bufferevent_free discards what the buffers still hold. */
    function Discard(): Flow {
      this.(input := [], output := [])
    }

    function Handed(): bytes {
      sent + output
    }
  }

  const NO_FLOW := Flow([], [], [], [])

  /** server is what the forwarder has been told to connect to. */
  datatype State = State(
    phase: Phase, id: int, server: Option<ServerHost>, dialing: bool, open: bool, up: Flow, down: Flow)

  const NEW_RELAY := State(Begin, -1, None, false, true, NO_FLOW, NO_FLOW)

  datatype Event =
    | ClientRead(chunk: bytes, copyOk: bool, sendOk: bool, connectOk: bool)
    | ServerRead(chunk: bytes, sendOk: bool)
    | ServerConnected(sendOk: bool)
    | ServerGone                     // EOF or error on the server's side
    | ClientGone                     // EOF or error on the client's side
    | WrittenToServer(n: nat)
    | WrittenToClient(n: nat)

  function Closed(s: State): State {
    s.(open := false, dialing := false, up := s.up.Discard(), down := s.down.Discard())
  }

  /** Proxy::dataRecieved on the client's input buffer. */
  function DataReceived(config: Config, s: State, copyOk: bool, sendOk: bool, connectOk: bool): State {
    match s.phase
    case Fwd => s.(up := s.up.Move(sendOk))
    case Connecting => s
    case Begin =>
      match Decide(config, s.up.input)
      case NeedMore => s
      case Reject => Closed(s)
      case Route(id, host) =>
        if !copyOk then Closed(s)
        else if connectOk then s.(id := id, server := Some(host), phase := Connecting, dialing := true)
        else Closed(s.(id := id, server := Some(host)))
  }

  /** No handler runs on a closed relay; a connect result arrives only while dialing. */
  function Step(config: Config, s: State, e: Event): State {
    if !s.open then s
    else
      match e
      case ClientRead(chunk, copyOk, sendOk, connectOk) =>
        DataReceived(config, s.(up := s.up.Receive(chunk)), copyOk, sendOk, connectOk)
      case ServerRead(chunk, sendOk) =>
        if s.phase == Begin then s else s.(down := s.down.Receive(chunk).Move(sendOk))
      case ServerConnected(sendOk) =>
        if s.dialing then DataReceived(config, s.(dialing := false, phase := Fwd), true, sendOk, true) else s
      case ServerGone => if s.phase == Begin || s.dialing then s else Closed(s)
      case ClientGone => Closed(s)
      case WrittenToServer(n) => s.(up := s.up.Flush(n))
      case WrittenToClient(n) => s.(down := s.down.Flush(n))
  }

  function Run(config: Config, events: seq<Event>): State {
    if events == [] then NEW_RELAY
    else Step(config, Run(config, events[..|events| - 1]), events[|events| - 1])
  }

  // Conservation

  ghost predicate Conserved(f: Flow, open: bool) {
    && f.sent <= f.received
    && (open ==> f.received == f.sent + f.output + f.input)
  }

  ghost predicate Invariant(s: State) {
    && Conserved(s.up, s.open) && Conserved(s.down, s.open)
    && (s.phase != Fwd ==> s.up.sent == [] && s.up.output == [])
    && (s.phase == Begin ==> s.down == NO_FLOW)
    && (s.open ==> s.dialing == (s.phase == Connecting))
    && (s.open && s.phase == Begin ==> s.id == -1)
    && (!s.open ==> s.up.input == [] && s.up.output == [] && s.down.input == [] && s.down.output == [])
  }

  lemma FlowStepsConserve(f: Flow, chunk: bytes, ok: bool, n: nat)
    requires Conserved(f, true)
    ensures Conserved(f.Receive(chunk), true) && Conserved(f.Move(ok), true)
    ensures Conserved(f.Flush(n), true) && Conserved(f.Discard(), false)
  {
    assert f.received + chunk == f.sent + f.output + (f.input + chunk);
    assert f.sent + (f.output + f.input) == f.sent + f.output + f.input;
    if n <= |f.output| {
      assert f.sent + f.output[..n] + f.output[n..] == f.sent + f.output;
    }
  }

  lemma StepKeepsInvariant(config: Config, s: State, e: Event)
    requires Invariant(s)
    ensures Invariant(Step(config, s, e))
  {
    if s.open {
      match e
      case ClientRead(chunk, copyOk, sendOk, connectOk) =>
        FlowStepsConserve(s.up, chunk, sendOk, 0);
        FlowStepsConserve(s.up.Receive(chunk), [], sendOk, 0);
        FlowStepsConserve(s.down, [], sendOk, 0);
      case ServerRead(chunk, sendOk) =>
        FlowStepsConserve(s.down, chunk, sendOk, 0);
        FlowStepsConserve(s.down.Receive(chunk), [], sendOk, 0);
      case ServerConnected(sendOk) => FlowStepsConserve(s.up, [], sendOk, 0);
      case ServerGone =>
        FlowStepsConserve(s.up, [], true, 0);
        FlowStepsConserve(s.down, [], true, 0);
      case ClientGone =>
        FlowStepsConserve(s.up, [], true, 0);
        FlowStepsConserve(s.down, [], true, 0);
      case WrittenToServer(n) => FlowStepsConserve(s.up, [], true, n);
      case WrittenToClient(n) => FlowStepsConserve(s.down, [], true, n);
    }
  }

  /**
   Bytes are conserved in both directions in every run: while the relay lives, what arrived is
   what was handed over followed by what still waits, first message included, and nothing is
   handed over before forwarding; a close leaves a prefix on the wire.
   */
  lemma {:induction false} BytesAreConserved(config: Config, events: seq<Event>)
    ensures var s := Run(config, events);
            && Invariant(s)
            && (s.open ==> s.up.received == s.up.Handed() + s.up.input)
            && (s.open ==> s.down.received == s.down.Handed() + s.down.input)
            && (s.phase != Fwd ==> s.up.Handed() == [])
            && s.up.sent <= s.up.received && s.down.sent <= s.down.received
  {
    if events != [] {
      BytesAreConserved(config, events[..|events| - 1]);
      StepKeepsInvariant(config, Run(config, events[..|events| - 1]), events[|events| - 1]);
    }
  }

  // Routing depends on the bytes alone

  /** Everything the client offered, in order. */
  function Offered(events: seq<Event>): bytes {
    if events == [] then []
    else
      Offered(events[..|events| - 1]) + ChunkOf(events[|events| - 1])
  }

  function ChunkOf(e: Event): bytes {
    if e.ClientRead? then e.chunk else []
  }

  predicate Stays(e: Event) {
    e != ServerGone && e != ClientGone && (e.ClientRead? ==> e.copyOk && e.connectOk)
  }

  predicate NobodyLeaves(events: seq<Event>) {
    forall i :: 0 <= i < |events| ==> Stays(events[i])
  }

  /** The decision is made on the first twelve bytes. */
  lemma DecisionIsFinal(config: Config, input: bytes, more: bytes)
    requires Decide(config, input) != NeedMore
    ensures Decide(config, input + more) == Decide(config, input)
  {
    assert (input + more)[0..4] == input[0..4];
    assert (input + more)[4..8] == input[4..8];
    assert (input + more)[8..12] == input[8..12];
  }

  /** What a run comes to, from the offered bytes and whether the connect event has arrived. */
  ghost predicate AsDecided(config: Config, offered: bytes, s: State) {
    match Decide(config, offered)
    case NeedMore => s.open && s.phase == Begin && s.up.received == offered
    case Reject => !s.open && s.phase == Begin && s.id == -1
    case Route(id, _) => s.open && s.phase != Begin && s.id == id && s.up.received == offered
  }

  lemma StepFollowsDecision(config: Config, offered: bytes, s: State, e: Event)
    requires Invariant(s) && AsDecided(config, offered, s) && Stays(e)
    ensures AsDecided(config, offered + ChunkOf(e), Step(config, s, e))
  {
    if e.ClientRead? {
      if Decide(config, offered) != NeedMore {
        DecisionIsFinal(config, offered, e.chunk);
      } else {
        assert s.up.sent + s.up.output + s.up.input == s.up.input;
      }
    } else {
      assert offered + [] == offered;
    }
  }

  /**
   In every run in which neither side leaves and the first message can be copied and connecting
   can start, the relay is open exactly if the concatenation of the client's bytes does not
   reject it, and takes the route those bytes decide.
   */
  lemma {:induction false} RouteDependsOnBytesOnly(config: Config, events: seq<Event>)
    requires NobodyLeaves(events)
    ensures AsDecided(config, Offered(events), Run(config, events))
  {
    if events != [] {
      var before, e := events[..|events| - 1], events[|events| - 1];
      RouteDependsOnBytesOnly(config, before);
      BytesAreConserved(config, before);
      StepFollowsDecision(config, Offered(before), Run(config, before), e);
    }
  }

  /** What any run comes to, whoever left and whatever failed. */
  ghost predicate RouteIsDecided(config: Config, offered: bytes, s: State) {
    && s.up.received <= offered && (s.open ==> s.up.received == offered)
    && (s.phase != Begin || s.id != -1 || s.server.Some? ==>
          var d := Decide(config, s.up.received); d.Route? && d.id == s.id && s.server == Some(d.host))
    && (s.open && s.phase == Begin ==> Decide(config, s.up.received) == NeedMore)
  }

  lemma StepKeepsDecision(config: Config, offered: bytes, s: State, e: Event)
    requires Invariant(s) && RouteIsDecided(config, offered, s)
    ensures RouteIsDecided(config, offered + ChunkOf(e), Step(config, s, e))
  {
    if e.ClientRead? && s.open {
      if Decide(config, s.up.received) != NeedMore {
        DecisionIsFinal(config, s.up.received, e.chunk);
      }
      if s.phase == Begin {
        assert s.up.sent + s.up.output + s.up.input == s.up.input;
      }
    } else {
      assert s.open ==> offered + ChunkOf(e) == offered;
    }
  }

  /**
   In every run at all, failures and closes included, a route once taken is the decision on the
   bytes received, which are all the client offered while the relay is open and a prefix after;
   an open relay without a route has not received a first message.
   */
  lemma {:induction false} EveryRouteIsDecided(config: Config, events: seq<Event>)
    ensures RouteIsDecided(config, Offered(events), Run(config, events))
    ensures var s := Run(config, events);
            s.phase != Begin || s.id != -1 || s.server.Some? ==>
              Decide(config, Offered(events)).Route? && s.server.Some?
              && Decide(config, Offered(events)) == Route(s.id, s.server.value)
  {
    if events != [] {
      var before := events[..|events| - 1];
      EveryRouteIsDecided(config, before);
      BytesAreConserved(config, before);
      StepKeepsDecision(config, Offered(before), Run(config, before), events[|events| - 1]);
    }
    var s, offered := Run(config, events), Offered(events);
    if Decide(config, s.up.received) != NeedMore {
      DecisionIsFinal(config, s.up.received, offered[|s.up.received|..]);
      assert s.up.received + offered[|s.up.received|..] == offered;
    }
  }

  // The whole run, by its events alone

  /** Has the server's socket connected, after a first message to connect for? */
  predicate ServerUp(events: seq<Event>) {
    events != [] &&
    var before, e := events[..|events| - 1], events[|events| - 1];
    ServerUp(before) || (e.ServerConnected? && |Offered(before)| >= 12)
  }

  predicate CompletesFirstMessage(before: seq<Event>, e: Event) {
    e.ClientRead? && |Offered(before)| < 12 <= |Offered(before)| + |e.chunk|
  }

  /** Does this event end the connection? */
  predicate Ends(config: Config, before: seq<Event>, e: Event) {
    || e == ClientGone
    || (e == ServerGone && ServerUp(before))
    || (CompletesFirstMessage(before, e)
        && !(e.copyOk && e.connectOk && Decide(config, Offered(before) + e.chunk).Route?))
  }

  predicate Ended(config: Config, events: seq<Event>) {
    events != [] &&
    var before, e := events[..|events| - 1], events[|events| - 1];
    Ended(config, before) || Ends(config, before, e)
  }

  /** The id and host of the first message, if it could be copied and names a configured host. */
  function Chosen(config: Config, events: seq<Event>): Option<(int, ServerHost)> {
    if events == [] then None
    else
      var before, e := events[..|events| - 1], events[|events| - 1];
      if !Ended(config, before) && CompletesFirstMessage(before, e) && e.copyOk then
        match Decide(config, Offered(events))
        case Route(id, host) => Some((id, host))
        case _ => None
      else Chosen(config, before)
  }

  /** Everything the server offered to a forwarder that was there to read it. */
  function OfferedByServer(config: Config, events: seq<Event>): bytes {
    if events == [] then []
    else
      var before, e := events[..|events| - 1], events[|events| - 1];
      OfferedByServer(config, before)
      + if e.ServerRead? && !Ended(config, before) && |Offered(before)| >= 12 then e.chunk else []
  }

  ghost predicate AsHistory(config: Config, events: seq<Event>, s: State) {
    && (s.open <==> !Ended(config, events))
    && (s.open ==> s.phase == if |Offered(events)| < 12 then Begin else if ServerUp(events) then Fwd else Connecting)
    && (match Chosen(config, events)
        case None => s.id == -1 && s.server == None
        case Some((id, host)) => s.id == id && s.server == Some(host))
    && s.down.received == OfferedByServer(config, events)
    && (ServerUp(events) ==> |Offered(events)| >= 12)
  }

  /**
   In every run, whether the relay is open, its phase, the id and host it has chosen and what it
   has received from the server are what the events say: it forwards from the connect event on,
   and it is closed by nothing but a side leaving, a bad first message or a failed call.
   */
  lemma {:induction false} RunIsItsHistory(config: Config, events: seq<Event>)
    ensures AsHistory(config, events, Run(config, events))
  {
    if events != [] {
      var before, e := events[..|events| - 1], events[|events| - 1];
      assert before + [e] == events;
      RunIsItsHistory(config, before);
      BytesAreConserved(config, before);
      EveryRouteIsDecided(config, before);
      OneMoreEvent(config, before, e);
    } else {
      assert Offered(events) == [];
    }
  }

  lemma HistoriesGrow(config: Config, before: seq<Event>, e: Event)
    ensures var events := before + [e];
            && Run(config, events) == Step(config, Run(config, before), e)
            && Offered(events) == Offered(before) + ChunkOf(e)
            && ServerUp(events) == (ServerUp(before) || (e.ServerConnected? && |Offered(before)| >= 12))
            && Ended(config, events) == (Ended(config, before) || Ends(config, before, e))
            && OfferedByServer(config, events)
            == OfferedByServer(config, before)
               + (if e.ServerRead? && !Ended(config, before) && |Offered(before)| >= 12 then e.chunk else [])
  {
    assert (before + [e])[..|before|] == before;
  }

  lemma ChosenGrows(config: Config, before: seq<Event>, e: Event)
    ensures Chosen(config, before + [e])
         == if !Ended(config, before) && CompletesFirstMessage(before, e) && e.copyOk then
              match Decide(config, Offered(before) + e.chunk)
              case Route(id, host) => Some((id, host))
              case _ => None
            else Chosen(config, before)
  {
    assert (before + [e])[..|before|] == before;
  }

  lemma OneMoreEvent(config: Config, before: seq<Event>, e: Event)
    requires AsHistory(config, before, Run(config, before)) && Invariant(Run(config, before))
    requires RouteIsDecided(config, Offered(before), Run(config, before))
    ensures AsHistory(config, before + [e], Run(config, before + [e]))
  {
    hide Run, Offered, ServerUp, Ended, OfferedByServer, Chosen, Ntohl, ToInt32, HostById;
    HistoriesGrow(config, before, e);
    ChosenGrows(config, before, e);
    var s := Run(config, before);
    if s.open && e.ClientRead? {
      ReadGoesByHistory(config, before, e);
    }
  }

  lemma ReadGoesByHistory(config: Config, before: seq<Event>, e: Event)
    requires AsHistory(config, before, Run(config, before)) && Invariant(Run(config, before))
    requires RouteIsDecided(config, Offered(before), Run(config, before))
    requires Run(config, before).open && e.ClientRead?
    ensures AsHistory(config, before + [e], Run(config, before + [e]))
  {
    hide Run, Offered, ServerUp, Ended, OfferedByServer, Chosen, Ntohl, ToInt32, HostById;
    HistoriesGrow(config, before, e);
    ChosenGrows(config, before, e);
    var s := Run(config, before);
    if s.phase == Begin {
      assert [] + s.up.input == s.up.input;
      assert s.up.Receive(e.chunk).input == Offered(before) + e.chunk;
    }
  }

  /** What one more event puts on the two wires: what was asked for, from what had been handed over. */
  lemma WrittenIsSent(config: Config, events: seq<Event>, e: Event)
    ensures var s, t := Run(config, events), Run(config, events + [e]);
            && t.up.sent == s.up.sent + (if s.open && e.WrittenToServer? && e.n <= |s.up.output|
                                         then s.up.output[..e.n] else [])
            && t.down.sent == s.down.sent + (if s.open && e.WrittenToClient? && e.n <= |s.down.output|
                                             then s.down.output[..e.n] else [])
  {
    HistoriesGrow(config, events, e);
    hide Run;
    StepWrites(config, Run(config, events), e);
  }

  lemma StepWrites(config: Config, s: State, e: Event)
    ensures Step(config, s, e).up.sent == s.up.sent + if s.open && e.WrittenToServer? && e.n <= |s.up.output|
                                                      then s.up.output[..e.n] else []
    ensures Step(config, s, e).down.sent == s.down.sent + if s.open && e.WrittenToClient? && e.n <= |s.down.output|
                                                          then s.down.output[..e.n] else []
  {
    hide Decide;
    assert s.up.sent + [] == s.up.sent && s.down.sent + [] == s.down.sent;
  }

  /** A relay that has ended holds nothing, and no event changes it again. */
  lemma {:induction false} EndedIsFinal(config: Config, before: seq<Event>, after: seq<Event>)
    requires Ended(config, before)
    ensures Run(config, before + after) == Run(config, before)
    ensures var s := Run(config, before);
            !s.open && s.up.input == [] && s.up.output == [] && s.down.input == [] && s.down.output == []
  {
    RunIsItsHistory(config, before);
    BytesAreConserved(config, before);
    if after == [] {
      assert before + after == before;
    } else {
      EndedIsFinal(config, before, after[..|after| - 1]);
      assert (before + after)[..|before + after| - 1] == before + after[..|after| - 1];
    }
  }

  /** Did the last attempt to move the client's bytes to the server succeed? */
  predicate LastSendSucceeded(config: Config, events: seq<Event>) {
    if events == [] then false
    else
      var before, e := events[..|events| - 1], events[|events| - 1];
      if e.ClientRead? && ServerUp(before) then e.sendOk
      else if e.ServerConnected? && |Offered(before)| >= 12 && !ServerUp(before) then e.sendOk
      else LastSendSucceeded(config, before)
  }

  /** While forwarding, a run whose last send succeeded has handed over every byte the client sent. */
  lemma {:induction false} EverythingIsHandedOver(config: Config, events: seq<Event>)
    requires !Ended(config, events) && ServerUp(events)
    requires LastSendSucceeded(config, events)
    ensures Run(config, events).up.input == []
    ensures Run(config, events).up.Handed() == Run(config, events).up.received == Offered(events)
  {
    BytesAreConserved(config, events);
    RunIsItsHistory(config, events);
    EveryRouteIsDecided(config, events);
    var before, e := events[..|events| - 1], events[|events| - 1];
    BytesAreConserved(config, before);
    RunIsItsHistory(config, before);
    if ServerUp(before) && !e.ClientRead? {
      EverythingIsHandedOver(config, before);
    }
    assert Run(config, events).up.Handed() + [] == Run(config, events).up.Handed();
  }

  /** Did the last attempt to move the server's bytes to the client succeed? */
  predicate LastReplySucceeded(config: Config, events: seq<Event>) {
    if events == [] then false
    else
      var before, e := events[..|events| - 1], events[|events| - 1];
      if e.ServerRead? && |Offered(before)| >= 12 then e.sendOk else LastReplySucceeded(config, before)
  }

  /** A run whose last send to the client succeeded has handed it every byte the server sent. */
  lemma {:induction false} EverythingIsHandedBack(config: Config, events: seq<Event>)
    requires !Ended(config, events) && LastReplySucceeded(config, events)
    ensures Run(config, events).down.input == []
    ensures Run(config, events).down.Handed() == OfferedByServer(config, events)
  {
    BytesAreConserved(config, events);
    RunIsItsHistory(config, events);
    var before, e := events[..|events| - 1], events[|events| - 1];
    BytesAreConserved(config, before);
    RunIsItsHistory(config, before);
    if !(e.ServerRead? && |Offered(before)| >= 12) {
      EverythingIsHandedBack(config, before);
    }
    assert Run(config, events).down.Handed() + [] == Run(config, events).down.Handed();
  }

  /** Each read from the server whose send succeeds reaches the client's socket, behind all before it. */
  lemma ServerReadIsHandedBack(config: Config, events: seq<Event>, chunk: bytes)
    requires !Ended(config, events) && |Offered(events)| >= 12
    ensures var s := Run(config, events + [ServerRead(chunk, true)]);
            s.down.input == [] && s.down.Handed() == Run(config, events).down.received + chunk
  {
    var after := events + [ServerRead(chunk, true)];
    assert after[..|after| - 1] == events;
    assert Offered(after) == Offered(events) + [] == Offered(events);
    EverythingIsHandedBack(config, after);
    RunIsItsHistory(config, events);
  }

  /**
   Two runs over the same client bytes, however split, interleaved and ended: the routes they take
   are the same, what either puts on the wire is a prefix of those bytes, and while both are open
   they agree on having a route and, once both forward and their last sends succeeded, on the
   stream handed to the server. If nobody leaves in either, both are open or neither is.
   */
  lemma SplittingDoesNotMatter(config: Config, a: seq<Event>, b: seq<Event>)
    requires Offered(a) == Offered(b)
    ensures var s, t := Run(config, a), Run(config, b);
            && (s.phase != Begin && t.phase != Begin ==> s.id == t.id)
            && (s.id != -1 && t.id != -1 ==> s.id == t.id)
            && s.up.sent <= Offered(a) && t.up.sent <= Offered(a)
            && (s.open && t.open ==> s.id == t.id && (s.phase == Begin <==> t.phase == Begin))
            && (s.open && t.open && s.phase == Fwd && t.phase == Fwd
                && LastSendSucceeded(config, a) && LastSendSucceeded(config, b) ==>
                  s.up.Handed() == t.up.Handed() == Offered(a))
            && (NobodyLeaves(a) && NobodyLeaves(b) ==> s.open == t.open)
  {
    EveryRouteIsDecided(config, a);
    EveryRouteIsDecided(config, b);
    BytesAreConserved(config, a);
    BytesAreConserved(config, b);
    var s, t := Run(config, a), Run(config, b);
    RunIsItsHistory(config, a);
    RunIsItsHistory(config, b);
    if s.open && s.phase == Fwd && LastSendSucceeded(config, a) {
      EverythingIsHandedOver(config, a);
    }
    if t.open && t.phase == Fwd && LastSendSucceeded(config, b) {
      EverythingIsHandedOver(config, b);
    }
    if NobodyLeaves(a) && NobodyLeaves(b) {
      RouteDependsOnBytesOnly(config, a);
      RouteDependsOnBytesOnly(config, b);
    }
  }

  /** The wire form of a first message. */
  function FirstMessage(id: nat): bytes {
    BigEndian(4, TAG_INT) + BigEndian(4, SIZE_INT) + BigEndian(4, id)
  }

  /** An id is accepted exactly when the first twelve bytes are 1, 4, id with id under a non-empty host. */
  lemma RoutedExactly(config: Config, input: bytes)
    ensures Decide(config, input).Route? <==>
              exists word: nat :: word < TWO_TO_THE_32 && FirstMessage(word) <= input
                                  && HostById(config, ToInt32(word)).name != ""
    ensures Decide(config, input).Route? ==>
              exists word: nat :: word < TWO_TO_THE_32 && FirstMessage(word) <= input
                                  && Decide(config, input) == Route(ToInt32(word), HostById(config, ToInt32(word)))
  {
    assert Limit(4) == TWO_TO_THE_32;
    if |input| >= MSG_SIZE {
      BigEndianInvertsBigEndianValue(input[0..4]);
      BigEndianInvertsBigEndianValue(input[4..8]);
      BigEndianInvertsBigEndianValue(input[8..12]);
      var word := Ntohl(input[8..12]);
      assert input[..12] == input[0..4] + input[4..8] + input[8..12];
      if Decide(config, input).Route? {
        assert FirstMessage(word) == input[..12];
      }
    }
    forall word: nat | word < TWO_TO_THE_32 && FirstMessage(word) <= input && HostById(config, ToInt32(word)).name != ""
      ensures Decide(config, input) == Route(ToInt32(word), HostById(config, ToInt32(word)))
    {
      FirstMessageIsRouted(config, word, input);
    }
  }

  /** The decision, octet by octet: twelve of them, the first eight fixed, the rest a signed 32-bit id. */
  lemma DecisionIs(config: Config, input: bytes)
    ensures |input| < 12 <==> Decide(config, input) == NeedMore
    ensures |input| >= 12 && input[..8] != [0, 0, 0, 1, 0, 0, 0, 4] ==> Decide(config, input) == Reject
    ensures |input| >= 12 && input[..8] == [0, 0, 0, 1, 0, 0, 0, 4] ==>
              var word := FourOctets(input[8], input[9], input[10], input[11]);
              var id := if word >= 0x8000_0000 then word - 0x1_0000_0000 else word;
              Decide(config, input) == if id in config && config[id].name != "" then Route(id, config[id]) else Reject
  {
    if |input| >= 12 {
      NtohlIs(input[0..4]);
      NtohlIs(input[4..8]);
      NtohlIs(input[8..12]);
      assert input[..8] == [input[0], input[1], input[2], input[3], input[4], input[5], input[6], input[7]];
    }
  }

  lemma NtohlIs(bs: bytes)
    requires |bs| == 4
    ensures Ntohl(bs) == FourOctets(bs[0], bs[1], bs[2], bs[3])
  {
    BigEndianValueOfFour(bs);
    assert bs[..0] == [];
    assert BigEndianValue([]) == 0;
  }

  lemma FirstMessageIsRouted(config: Config, word: nat, input: bytes)
    requires word < TWO_TO_THE_32 && FirstMessage(word) <= input
    requires HostById(config, ToInt32(word)).name != ""
    ensures Decide(config, input) == Route(ToInt32(word), HostById(config, ToInt32(word)))
  {
    assert Limit(4) == TWO_TO_THE_32;
    var m := FirstMessage(word);
    assert input[0..4] == m[0..4] == BigEndian(4, TAG_INT);
    assert input[4..8] == m[4..8] == BigEndian(4, SIZE_INT);
    assert input[8..12] == m[8..12] == BigEndian(4, word);
    BigEndianValueInvertsBigEndian(4, TAG_INT);
    BigEndianValueInvertsBigEndian(4, SIZE_INT);
    BigEndianValueInvertsBigEndian(4, word);
  }

  /**
   A failed connect is only reported: without a later connect event the relay goes on holding
   the client's bytes, hands nothing over, and is ended by the client alone.
   */
  lemma FailedConnectHoldsTheClient(config: Config, before: seq<Event>, after: seq<Event>)
    requires Run(config, before).open && Run(config, before).phase == Connecting
    requires forall e :: e in after ==> !e.ServerConnected? && e != ClientGone
    ensures var t := Run(config, before + after);
            && t.open && t.phase == Connecting && t.up.Handed() == []
            && t.up.input == Offered(before + after)
  {
    hide Run, Offered, ServerUp, Ended;
    RunIsItsHistory(config, before);
    GoesOnConnecting(config, before, after);
    RunIsItsHistory(config, before + after);
    BytesAreConserved(config, before + after);
    EveryRouteIsDecided(config, before + after);
    var t := Run(config, before + after);
    assert [] + t.up.input == t.up.input;
  }

  lemma {:induction false} GoesOnConnecting(config: Config, before: seq<Event>, after: seq<Event>)
    requires !Ended(config, before) && !ServerUp(before) && |Offered(before)| >= 12
    requires forall e :: e in after ==> !e.ServerConnected? && e != ClientGone
    ensures !Ended(config, before + after) && !ServerUp(before + after) && |Offered(before + after)| >= 12
  {
    hide Run, Offered, ServerUp, Ended;
    if after == [] {
      assert before + after == before;
    } else {
      var last := |after| - 1;
      assert before + after == before + after[..last] + [after[last]];
      GoesOnConnecting(config, before, after[..last]);
      HistoriesGrow(config, before + after[..last], after[last]);
    }
  }
}
