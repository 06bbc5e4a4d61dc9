/** The two manager objects behind the registry. */
module Registry {
  import opened Basics
  import opened RegistrySpec

  /** connectionmanager.cpp: owns the connections; a weak reference locks while they are owned. */
  class ConnectionManager {
    var processors: Owned
    var running: bool

    constructor ()
      ensures processors == map[] && running
    {
      processors, running := map[], true;
    }

    method AddConnection(p: Handle)
      modifies this`processors
      ensures processors == if running then old(processors)[p := None] else old(processors)
    {
      if running {
        processors := processors[p := None];
      }
    }

    method DropConnection(p: Handle)
      modifies this`processors
      ensures processors == if running then old(processors) - {p} else old(processors)
    {
      if running {
        if p in processors {
          processors := processors - {p};
        }
      }
    }

    method DropAll()
      modifies this
      ensures processors == map[] && !running
    {
      running := false;
      processors := map[];
    }
  }

  /** proxymanager.cpp: the id index in front of the connection manager. */
  class ProxyManager {
    const cm: ConnectionManager
    var idToConn: map<int, seq<Handle>>

    function State(): RegistrySpec.Registry
      reads this, cm
    {
      RegistrySpec.Registry(cm.processors, cm.running, idToConn)
    }

    constructor ()
      ensures State() == NEW_REGISTRY && fresh(cm)
    {
      cm := new ConnectionManager();
      idToConn := map[];
    }

    method AddProxy(p: Handle)
      modifies cm
      ensures State() == Step(old(State()), Add(p))
    {
      cm.AddConnection(p);
    }

    /** The proxy stores its id and calls onIdRecv. */
    method OnIdRecv(id: int, p: Handle)
      requires p in cm.processors
      modifies this`idToConn, cm
      ensures State() == Step(old(State()), Announce(p, id))
    {
      cm.processors := cm.processors[p := Some(id)];
      idToConn := idToConn[id := (if id in idToConn then idToConn[id] else []) + [p]];
    }

    /** dropConnection, the close callback of a proxy. */
    method DropConnection(p: Handle)
      modifies this`idToConn, cm
      ensures State() == Step(old(State()), Gone(p))
    {
      if p in cm.processors {
        if IdOf(cm.processors[p]) >= 0 {
          idToConn := idToConn - {IdOf(cm.processors[p])};
        }
      }
      cm.DropConnection(p);
    }

    method DropAll()
      modifies this`idToConn, cm
      ensures State() == Step(old(State()), Event.DropAll)
    {
      cm.DropAll();
      idToConn := map[];
    }

    method DropById(id: int)
      modifies this`idToConn, cm
      ensures State() == Step(old(State()), Event.DropById(id))
    {
      if id !in idToConn {
        return;
      }
      var allProxies := idToConn[id];
      idToConn := idToConn - {id};
      for i := 0 to |allProxies|
        invariant cm.running == old(cm.running) && idToConn == old(idToConn) - {id}
        invariant cm.processors == if cm.running then Dropped(old(cm.processors), allProxies[..i])
                                   else old(cm.processors)
      {
        cm.DropConnection(allProxies[i]);
        assert allProxies[..i + 1] == allProxies[..i] + [allProxies[i]];
      }
      assert allProxies[..|allProxies|] == allProxies;
    }
  }

  /** The managers after a history of events. */
  method Replay(history: seq<Event>) returns (m: ProxyManager)
    requires IsHistory(history)
    ensures fresh(m) && fresh(m.cm) && m.State() == Run(history)
  {
    HistoryPrefixes(history);
    m := new ProxyManager();
    for i := 0 to |history|
      invariant fresh(m) && fresh(m.cm) && m.State() == Run(history[..i])
    {
      assert history[..i + 1][..i] == history[..i];
      match history[i]
      case Add(p) => m.AddProxy(p);
      case Announce(p, id) => m.OnIdRecv(id, p);
      case Gone(p) => m.DropConnection(p);
      case DropById(id) => m.DropById(id);
      case DropAll => m.DropAll();
    }
    assert history[..|history|] == history;
  }

  /** Every event of a history was possible after those before it. */
  lemma {:induction false} HistoryPrefixes(history: seq<Event>)
    requires IsHistory(history)
    ensures forall i :: 0 <= i < |history| ==> Possible(history[..i], history[i])
  {
    if history != [] {
      var before := history[..|history| - 1];
      HistoryPrefixes(before);
      forall i | 0 <= i < |before|
        ensures Possible(history[..i], history[i])
      {
        assert history[..i] == before[..i];
      }
    }
  }
}
