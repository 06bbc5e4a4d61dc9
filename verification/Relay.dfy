/**
 The objects of one proxied connection: a Proxy on the client's socket, the Forwarder it
 creates for the server's socket, and the event buffers between which bytes move.
 */
module Relay {
  import opened Basics
  import opened Wire
  import opened RelaySpec

  class EvBuffer {
    var data: bytes

    constructor ()
      ensures data == []
    {
      data := [];
    }

    /** evbuffer_add_buffer: move everything from src, unless libevent refuses. */
    method AddBuffer(src: EvBuffer, ok: bool) returns (rc: int)
      requires src != this
      modifies this, src
      ensures ok ==> rc == 0 && data == old(data) + old(src.data) && src.data == []
      ensures !ok ==> rc != 0 && data == old(data) && src.data == old(src.data)
    {
      if !ok {
        return -1;
      }
      data, src.data := data + src.data, [];
      rc := 0;
    }

    /** evbuffer_copyout: the first n bytes, which stay in the buffer, unless libevent fails. */
    method CopyOut(n: nat, ok: bool) returns (copied: bytes, res: int)
      requires n <= |data|
      ensures if ok then res == n && copied == data[..n] else res == -1
    {
      if !ok {
        return [], -1;
      }
      copied, res := data[..n], n;
    }
  }

  class ConnectionProcessor {
    const input: EvBuffer
    const output: EvBuffer
    var bev: bool           // is the bufferevent allocated?
    var connecting: bool
    var remote: ServerHost  // what it was last told to connect to
    ghost var received: bytes  // everything the socket has delivered
    ghost var sent: bytes      // everything the socket has taken

    constructor ()
      ensures fresh(input) && fresh(output) && input != output
      ensures input.data == [] && output.data == [] && received == [] && sent == []
      ensures bev && !connecting && remote == ServerHost("", 0)
    {
      input := new EvBuffer();
      output := new EvBuffer();
      bev, connecting, remote := true, false, ServerHost("", 0);
      received, sent := [], [];
    }

    /** libevent appends what the socket delivers. */
    method Receive(chunk: bytes)
      modifies this`received, input
      ensures received == old(received) + chunk && input.data == old(input.data) + chunk
    {
      received, input.data := received + chunk, input.data + chunk;
    }

    /** libevent hands the first n bytes to the socket. */
    method Write(n: nat)
      requires n <= |output.data|
      modifies this`sent, output
      ensures sent == old(sent) + old(output.data)[..n] && output.data == old(output.data)[n..]
    {
      sent, output.data := sent + output.data[..n], output.data[n..];
    }

    method Connect(host: ServerHost, ok: bool) returns (accepted: bool)
      modifies this`connecting, this`remote
      ensures connecting && remote == host && accepted == ok
    {
      remote := host;
      connecting := true;
      accepted := ok;
    }

    method SendData(data: EvBuffer, ok: bool) returns (accepted: bool)
      requires data != output
      modifies output, data
      ensures accepted == ok
      ensures output.data == if ok then old(output.data) + old(data.data) else old(output.data)
      ensures data.data == if ok then [] else old(data.data)
    {
      var rc := output.AddBuffer(data, ok);
      accepted := rc == 0;
    }

    /** bufferevent_free, if it has not been freed. */
    method Free()
      requires input != output
      modifies this`bev, input, output
      ensures !bev
      ensures old(bev) ==> input.data == [] && output.data == []
      ensures !old(bev) ==> input.data == old(input.data) && output.data == old(output.data)
    {
      if bev {
        input.data := [];
        output.data := [];
        bev := false;
      }
    }
  }

  class Proxy {
    const config: Config
    const client: ConnectionProcessor
    var phase: Phase
    var id: int
    var fwd: ConnectionProcessor?
    var lastInput: EvBuffer?

    /** The two sockets and their four buffers are different objects. */
    ghost predicate Apart()
      reads this
    {
      && client.input != client.output
      && (fwd != null ==> fwd != client && fwd.input != fwd.output)
      && (fwd != null ==> {fwd.input, fwd.output} !! {client.input, client.output})
    }

    /** While the client's socket is open the phase says whether there is a live forwarder. */
    ghost predicate Valid()
      reads this, client, fwd
    {
      && Apart()
      && (client.bev ==> (fwd == null <==> phase == Begin))
      && (client.bev && fwd != null ==> fwd.bev && (fwd.connecting <==> phase == Connecting))
      && (client.bev && phase == Connecting ==> lastInput == client.input)
    }

    /** Towards the server. */
    ghost function Up(): Flow
      reads this, client, client.input, fwd, if fwd == null then {} else {fwd.output}
    {
      Flow(client.received, client.input.data,
           if fwd == null then [] else fwd.output.data, if fwd == null then [] else fwd.sent)
    }

    /** Towards the client. */
    ghost function Down(): Flow
      reads this, client, client.output, fwd, if fwd == null then {} else {fwd.input}
    {
      Flow(if fwd == null then [] else fwd.received, if fwd == null then [] else fwd.input.data,
           client.output.data, client.sent)
    }

    ghost predicate Dialing()
      reads this, client, fwd
    {
      client.bev && fwd != null && fwd.connecting
    }

    ghost function Snapshot(): State
      reads this, client, client.input, client.output, fwd, if fwd == null then {} else {fwd.input, fwd.output}
    {
      State(phase, id, if fwd == null then None else Some(fwd.remote), Dialing(), client.bev, Up(), Down())
    }

    ghost function Repr(): set<object>
      reads this
    {
      {this, client, client.input, client.output} + if fwd == null then {} else {fwd, fwd.input, fwd.output}
    }

    constructor (config: Config)
      ensures Valid() && this.config == config && Snapshot() == NEW_RELAY && fresh(Repr())
    {
      this.config := config;
      client := new ConnectionProcessor();
      phase, id, fwd, lastInput := Begin, -1, null, null;
    }

    /** Proxy::close, and the drop of the proxy that its close callback causes. */
    method Close()
      requires client.bev && Apart() && (fwd != null ==> fwd.bev)
      modifies client, client.input, client.output, fwd, if fwd == null then {} else {fwd.input, fwd.output}
      ensures Valid() && Snapshot() == Closed(old(Snapshot()))
    {
      client.Free();
      if fwd != null {
        fwd.Free();
      }
    }

    /** The first message has named a configured host: create the forwarder and connect it. */
    method Dial(id: int, host: ServerHost, connectOk: bool)
      requires Valid() && client.bev && phase == Begin && lastInput == client.input
      modifies this, client, client.input, client.output
      ensures Valid() && fresh(Repr() - old(Repr()))
      ensures var s := old(Snapshot()).(id := id, server := Some(host));
              Snapshot() == if connectOk then s.(phase := Connecting, dialing := true) else Closed(s)
    {
      this.id := id;
      fwd := new ConnectionProcessor();
      var accepted := fwd.Connect(host, connectOk);
      if !accepted {
        Close();
        return;
      }
      phase := Connecting;
    }

    /** Proxy::dataRecieved */
    method DataReceived(input: EvBuffer, copyOk: bool, sendOk: bool, connectOk: bool)
      requires Valid() && client.bev && input == client.input
      modifies Repr()
      ensures Valid() && fresh(Repr() - old(Repr()))
      ensures Snapshot() == RelaySpec.DataReceived(config, old(Snapshot()), copyOk, sendOk, connectOk)
    {
      if phase == Fwd {
        var accepted := fwd.SendData(input, sendOk);
      } else if phase == Begin {
        lastInput := input;
        if |input.data| < MSG_SIZE {
          return;
        }
        var data, res := input.CopyOut(MSG_SIZE, copyOk);
        if res != MSG_SIZE {
          Close();
          return;
        }
        assert data[0..4] == input.data[0..4] && data[4..8] == input.data[4..8] && data[8..12] == input.data[8..12];
        if Ntohl(data[0..4]) == TAG_INT && Ntohl(data[4..8]) == SIZE_INT {
          var id := ToInt32(Ntohl(data[8..12]));
          var host := HostById(config, id);
          if host.name == "" {
            Close();
            return;
          }
          Dial(id, host, connectOk);
        } else {
          Close();
        }
      }
    }

    /** Proxy::onConnected */
    method OnConnected(res: bool, sendOk: bool)
      requires Apart() && client.bev && phase == Connecting && lastInput == client.input
      requires fwd != null && fwd.bev && fwd.connecting == !res
      modifies Repr()
      ensures Valid() && fresh(Repr() - old(Repr()))
      ensures Snapshot() == if res then RelaySpec.DataReceived(config, old(Snapshot()).(phase := Fwd), true, sendOk, true)
                            else old(Snapshot())
    {
      if !res {
        return;
      }
      phase := Fwd;
      DataReceived(lastInput, true, sendOk, true);
      lastInput := null;
    }

    // The events of the two sockets

    /** readProxy on the client's socket. */
    method OnClientRead(chunk: bytes, copyOk: bool, sendOk: bool, connectOk: bool)
      requires Valid() && client.bev
      modifies Repr()
      ensures Valid() && fresh(Repr() - old(Repr()))
      ensures Snapshot() == Step(config, old(Snapshot()), ClientRead(chunk, copyOk, sendOk, connectOk))
    {
      client.Receive(chunk);
      DataReceived(client.input, copyOk, sendOk, connectOk);
    }

    /** readProxy on the server's socket: Forwarder::dataRecieved towards the client. */
    method OnServerRead(chunk: bytes, sendOk: bool)
      requires Valid() && client.bev && fwd != null
      modifies Repr()
      ensures Valid() && fresh(Repr() - old(Repr()))
      ensures Snapshot() == Step(config, old(Snapshot()), ServerRead(chunk, sendOk))
    {
      fwd.Receive(chunk);
      var accepted := client.SendData(fwd.input, sendOk);
    }

    /** onEvent on the server's socket; libevent reports a connect only once, while connecting. */
    method OnServerEvent(connected: bool, sendOk: bool)
      requires Valid() && client.bev && fwd != null && (connected ==> fwd.connecting)
      modifies Repr()
      ensures Valid() && fresh(Repr() - old(Repr()))
      ensures Snapshot() == Step(config, old(Snapshot()), if connected then ServerConnected(sendOk) else ServerGone)
    {
      if connected {
        fwd.connecting := false;
        OnConnected(true, sendOk);
      } else if fwd.connecting {
        OnConnected(false, sendOk);
      } else {
        Close();
      }
    }

    /** onEvent on the client's socket, which never connects: it closes. */
    method OnClientEvent()
      requires Valid() && client.bev
      modifies Repr()
      ensures Valid() && fresh(Repr() - old(Repr()))
      ensures Snapshot() == Step(config, old(Snapshot()), ClientGone)
    {
      Close();
    }

    method OnWritableServer(n: nat)
      requires Valid() && client.bev && fwd != null && n <= |fwd.output.data|
      modifies Repr()
      ensures Valid() && fresh(Repr() - old(Repr()))
      ensures Snapshot() == Step(config, old(Snapshot()), WrittenToServer(n))
    {
      fwd.Write(n);
    }

    method OnWritableClient(n: nat)
      requires Valid() && client.bev && n <= |client.output.data|
      modifies Repr()
      ensures Valid() && fresh(Repr() - old(Repr()))
      ensures Snapshot() == Step(config, old(Snapshot()), WrittenToClient(n))
    {
      client.Write(n);
    }

    /** Deliver an event, if the sockets can raise it now. */
    method Deliver(e: Event)
      requires Valid()
      modifies Repr()
      ensures Valid() && fresh(Repr() - old(Repr()))
      ensures Snapshot() == Step(config, old(Snapshot()), e)
    {
      if !client.bev {
        return;
      }
      match e
      case ClientRead(chunk, copyOk, sendOk, connectOk) => OnClientRead(chunk, copyOk, sendOk, connectOk);
      case ServerRead(chunk, sendOk) =>
        if fwd != null { OnServerRead(chunk, sendOk); }
      case ServerConnected(sendOk) =>
        if fwd != null && fwd.connecting { OnServerEvent(true, sendOk); }
      case ServerGone =>
        if fwd != null { OnServerEvent(false, false); }
      case ClientGone => OnClientEvent();
      case WrittenToServer(n) =>
        if fwd != null && n <= |fwd.output.data| { OnWritableServer(n); }
      case WrittenToClient(n) =>
        if n <= |client.output.data| { OnWritableClient(n); }
    }
  }

  /** One proxied connection from its first to its last event: the object is where the run is. */
  method Serve(config: Config, events: seq<Event>) returns (p: Proxy)
    ensures fresh(p.Repr()) && p.Valid() && p.config == config
    ensures p.Snapshot() == Run(config, events)
  {
    p := new Proxy(config);
    for i := 0 to |events|
      invariant fresh(p.Repr()) && p.Valid() && p.config == config
      invariant p.Snapshot() == Run(config, events[..i])
    {
      assert events[..i + 1][..i] == events[..i];
      p.Deliver(events[i]);
    }
    assert events[..|events|] == events;
  }
}
