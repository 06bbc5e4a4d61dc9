/**
 The registry of live connections (connectionmanager.cpp, proxymanager.cpp) as a state
 machine: the set that owns the proxies, and the id index that only refers to them.
 */
module RegistrySpec {
  import opened Basics

  /** One proxy object, named once and for all. */
  type Handle = nat

  /** What the owning set holds of a proxy: the id it has announced, if it has. */
  type Owned = map<Handle, Option<int>>

  /** Proxy::id(): -1 until an id has been received. */
  function IdOf(announced: Option<int>): int {
    match announced
    case None => -1
    case Some(id) => id
  }

  /** processors owns the live proxies; index is the multimap from id to (weak) proxies. */
  datatype Registry = Registry(processors: Owned, running: bool, index: map<int, seq<Handle>>)

  const NEW_REGISTRY := Registry(map[], true, map[])

  datatype Event =
    | Add(proxy: Handle)
    | Announce(proxy: Handle, id: int)  // the proxy's first message named this id
    | Gone(proxy: Handle)               // the proxy closed
    | DropById(id: int)
    | DropAll

  function Entries(r: Registry, id: int): seq<Handle> {
    if id in r.index then r.index[id] else []
  }

  function Dropped(processors: Owned, proxies: seq<Handle>): Owned {
    processors - (set p | p in proxies)
  }

  function Step(r: Registry, e: Event): Registry {
    match e
    case Add(p) => if r.running then r.(processors := r.processors[p := None]) else r
    case Announce(p, id) =>
      r.(processors := r.processors[p := Some(id)], index := r.index[id := Entries(r, id) + [p]])
    case Gone(p) =>
      var index := if p in r.processors && IdOf(r.processors[p]) >= 0
                   then r.index - {IdOf(r.processors[p])}
                   else r.index;
      r.(index := index, processors := if r.running then r.processors - {p} else r.processors)
    case DropById(id) =>
      r.(index := r.index - {id},
         processors := if r.running then Dropped(r.processors, Entries(r, id)) else r.processors)
    case DropAll => Registry(map[], false, map[])
  }

  // Histories

  function Run(history: seq<Event>): Registry {
    if history == [] then NEW_REGISTRY else Step(Run(history[..|history| - 1]), history[|history| - 1])
  }

  predicate Added(history: seq<Event>, p: Handle) {
    exists i :: 0 <= i < |history| && history[i] == Add(p)
  }

  /** Objects are added once; only live proxies raise events, and each announces at most once. */
  predicate Possible(history: seq<Event>, e: Event) {
    match e
    case Add(p) => !Added(history, p)
    case Announce(p, _) => p in Run(history).processors && Run(history).processors[p].None?
    case Gone(p) => p in Run(history).processors
    case DropById(_) => true
    case DropAll => true
  }

  predicate IsHistory(history: seq<Event>) {
    history == [] ||
    (IsHistory(history[..|history| - 1]) && Possible(history[..|history| - 1], history[|history| - 1]))
  }

  /** The id a proxy has announced, by the history alone. */
  function AnnouncedId(history: seq<Event>, p: Handle): Option<int> {
    if history == [] then None
    else
      match history[|history| - 1]
      case Announce(q, id) => if q == p then Some(id) else AnnouncedId(history[..|history| - 1], p)
      case _ => AnnouncedId(history[..|history| - 1], p)
  }

  /** Does this event forget the whole key? */
  predicate Forgets(before: seq<Event>, e: Event, key: int) {
    || e == DropAll
    || e == DropById(key)
    || (e.Gone? && key >= 0 && AnnouncedId(before, e.proxy) == Some(key))
  }

  /** The proxies that announced the key since it was last forgotten, listed as the model lists entries. */
  function Remembered(history: seq<Event>, key: int): seq<Handle> {
    if history == [] then []
    else
      var before, e := history[..|history| - 1], history[|history| - 1];
      if Forgets(before, e, key) then []
      else if e.Announce? && e.id == key then Remembered(before, key) + [e.proxy]
      else Remembered(before, key)
  }

  // The state agrees with the history

  lemma {:induction false} LiveWasAdded(history: seq<Event>, p: Handle)
    requires IsHistory(history)
    ensures p in Run(history).processors ==> Added(history, p)
    ensures p in Run(history).processors ==> Run(history).processors[p] == AnnouncedId(history, p)
    ensures !Added(history, p) ==> AnnouncedId(history, p).None?
    ensures AnnouncedId(history, p).Some? ==> Added(history, p)
  {
    if history != [] {
      var before, e := history[..|history| - 1], history[|history| - 1];
      LiveWasAdded(before, p);
      assert Added(before, p) ==> Added(history, p) by {
        if Added(before, p) {
          var i :| 0 <= i < |before| && before[i] == Add(p);
          assert history[i] == Add(p);
        }
      }
      assert e == Add(p) ==> Added(history, p);
      if e.Announce? {
        LiveWasAdded(before, e.proxy);
      }
    }
  }

  // The live set by its history

  lemma {:induction false} RunningIff(history: seq<Event>)
    ensures Run(history).running <==> DropAll !in history
  {
    if history != [] {
      var before, e := history[..|history| - 1], history[|history| - 1];
      RunningIff(before);
      assert history == before + [e];
    }
  }

  /** Does this event end p, given what happened before? */
  predicate EndsLife(before: seq<Event>, e: Event, p: Handle) {
    e == Gone(p) || e == DropAll || (e.DropById? && p in Remembered(before, e.id))
  }

  /** Event i added p to running managers, and nothing has ended it since. */
  predicate LivesSince(history: seq<Event>, i: nat, p: Handle) {
    && i < |history| && history[i] == Add(p) && DropAll !in history[..i]
    && forall j :: i < j < |history| ==> !EndsLife(history[..j], history[j], p)
  }

  lemma LivesSinceGrows(before: seq<Event>, e: Event, i: nat, p: Handle)
    requires i < |before|
    ensures LivesSince(before + [e], i, p) <==> LivesSince(before, i, p) && !EndsLife(before, e, p)
  {
    var history := before + [e];
    assert history[..i] == before[..i];
    assert forall j :: 0 <= j < |before| ==> history[..j] == before[..j] && history[j] == before[j];
    assert history[..|before|] == before && history[|before|] == e;
  }

  /**
   A proxy is owned if and only if it was added while the managers were running and has since neither
   closed, nor been remembered under an id that was dropped, nor met a dropAll; and it is owned with
   the id it has announced, if it has.
   */
  lemma {:induction false} LivesIff(history: seq<Event>, p: Handle)
    requires IsHistory(history)
    ensures p in Run(history).processors <==> exists i :: LivesSince(history, i, p)
    ensures p in Run(history).processors ==> Run(history).processors[p] == AnnouncedId(history, p)
  {
    LiveWasAdded(history, p);
    if history != [] {
      var before, e := history[..|history| - 1], history[|history| - 1];
      assert history == before + [e];
      LivesIff(before, p);
      RunningIff(before);
      forall i: nat | i < |before|
        ensures LivesSince(history, i, p) <==> LivesSince(before, i, p) && !EndsLife(before, e, p)
      {
        LivesSinceGrows(before, e, i, p);
      }
      assert history[..|before|] == before;
      assert LivesSince(history, |before|, p) <==> e == Add(p) && DropAll !in before;
      if e.DropById? {
        IndexIsRemembered(before, e.id);
      }
      if e.Announce? {
        LiveWasAdded(before, e.proxy);
      }
      StepLives(before, e, p);
    }
  }

  lemma StepLives(before: seq<Event>, e: Event, p: Handle)
    requires Possible(before, e)
    requires e.DropById? ==> Entries(Run(before), e.id) == Remembered(before, e.id)
    requires Run(before).running || p !in Run(before).processors
    ensures p in Step(Run(before), e).processors <==>
              || (p in Run(before).processors && !EndsLife(before, e, p))
              || (e == Add(p) && Run(before).running)
  {
  }

  /** The index is the history, entry by entry; the model keeps entries in the order of announcement. */
  lemma {:induction false} IndexIsRemembered(history: seq<Event>, key: int)
    requires IsHistory(history)
    ensures Entries(Run(history), key) == Remembered(history, key)
  {
    if history != [] {
      var before, e := history[..|history| - 1], history[|history| - 1];
      IndexIsRemembered(before, key);
      if e.Gone? {
        LiveWasAdded(before, e.proxy);
      }
    }
  }

  /** A remembered proxy announced the key itself; under a key of at least 0 it is still alive. */
  lemma {:induction false} RememberedIsLive(history: seq<Event>, key: int, p: Handle)
    requires IsHistory(history) && p in Remembered(history, key)
    ensures AnnouncedId(history, p) == Some(key)
    ensures key >= 0 ==> p in Run(history).processors && Run(history).processors[p] == Some(key)
  {
    var before, e := history[..|history| - 1], history[|history| - 1];
    if e == Announce(p, key) {
    } else {
      assert p in Remembered(before, key);
      RememberedIsLive(before, key, p);
      match e
      case Announce(q, id) => LiveWasAdded(before, p);
      case Add(q) => LiveWasAdded(before, p);
      case Gone(q) =>
      case DropById(id) =>
        IndexIsRemembered(before, id);
        if p in Remembered(before, id) && id != key {
          RememberedIsLive(before, id, p);
          assert false;
        }
      case DropAll =>
    }
  }

  /** No proxy is indexed twice, neither under one key nor under two. */
  lemma {:induction false} IndexedOnce(history: seq<Event>, key: int)
    requires IsHistory(history)
    ensures forall i, j :: 0 <= i < j < |Remembered(history, key)| ==>
                             Remembered(history, key)[i] != Remembered(history, key)[j]
    ensures forall p, other :: p in Remembered(history, key) && p in Remembered(history, other) ==> other == key
  {
    if history != [] {
      var before, e := history[..|history| - 1], history[|history| - 1];
      IndexedOnce(before, key);
      if e.Announce? && e.proxy in Remembered(before, key) {
        RememberedIsLive(before, key, e.proxy);
        LiveWasAdded(before, e.proxy);
        assert false;
      }
    }
    forall p, other | p in Remembered(history, key) && p in Remembered(history, other)
      ensures other == key
    {
      RememberedIsLive(history, key, p);
      RememberedIsLive(history, other, p);
    }
  }

  /**
   In every reachable state, an index entry under a key of at least 0 names a live proxy whose
   own id is the key, and no proxy is indexed twice.
   */
  lemma IndexAgreesWithLiveSet(history: seq<Event>, key: int)
    requires IsHistory(history)
    ensures var r := Run(history);
            && (key >= 0 ==> forall p :: p in Entries(r, key) ==> p in r.processors && r.processors[p] == Some(key))
            && (forall i, j :: 0 <= i < j < |Entries(r, key)| ==> Entries(r, key)[i] != Entries(r, key)[j])
            && (forall p, other :: p in Entries(r, key) && p in Entries(r, other) ==> other == key)
  {
    IndexIsRemembered(history, key);
    IndexedOnce(history, key);
    var r := Run(history);
    forall p | p in Entries(r, key) && key >= 0
      ensures p in r.processors && r.processors[p] == Some(key)
    {
      RememberedIsLive(history, key, p);
    }
    forall p, other | p in Entries(r, key) && p in Entries(r, other)
      ensures other == key
    {
      IndexIsRemembered(history, other);
    }
  }

  /** After this history, every index entry under the key is alive. */
  ghost predicate EntriesAreLive(history: seq<Event>, key: int) {
    forall p :: p in Entries(Run(history), key) ==> p in Run(history).processors
  }

  /** Under a negative key an entry can outlive its proxy, so the key's sign is the exact condition. */
  lemma EntriesAreLiveIff(key: int)
    ensures (forall history :: IsHistory(history) ==> EntriesAreLive(history, key)) <==> key >= 0
  {
    if key < 0 {
      var h1 := [Add(0)];
      var h2 := h1 + [Announce(0, key)];
      var h3 := h2 + [Gone(0)];
      assert h1[..0] == [] && h2[..1] == h1 && h3[..2] == h2;
      assert Run(h1) == Step(NEW_REGISTRY, Add(0));
      assert !Added([], 0);
      assert IsHistory(h1);
      assert Run(h2) == Step(Run(h1), Announce(0, key)) && IsHistory(h2);
      assert Run(h3) == Step(Run(h2), Gone(0)) && IsHistory(h3);
      assert 0 in Entries(Run(h3), key) && 0 !in Run(h3).processors;
      assert !EntriesAreLive(h3, key);
    } else {
      forall history | IsHistory(history)
        ensures EntriesAreLive(history, key)
      {
        IndexAgreesWithLiveSet(history, key);
      }
    }
  }

  // Dropping by id

  predicate LiveWithId(r: Registry, p: Handle, id: int) {
    p in r.processors && r.processors[p] == Some(id)
  }

  /** dropById ends exactly the remembered proxies and no other, and leaves nothing under the key. */
  lemma DropByIdEndsTheRemembered(history: seq<Event>, id: int)
    requires IsHistory(history) && Run(history).running
    ensures var r, after := Run(history), Run(history + [DropById(id)]);
            && after.processors.Keys == r.processors.Keys - (set p | p in Remembered(history, id))
            && (forall p :: p in after.processors ==> after.processors[p] == r.processors[p])
            && Entries(after, id) == []
            && (forall key :: key != id ==> Entries(after, key) == Entries(r, key))
  {
    IndexIsRemembered(history, id);
    assert (history + [DropById(id)])[..|history|] == history;
  }

  /** The id-k proxies that a dropById(k) would leave alive: those forgotten by a neighbour's close. */
  predicate Orphan(history: seq<Event>, p: Handle, id: int) {
    LiveWithId(Run(history), p, id) && p !in Remembered(history, id)
  }

  /** Has a proxy with this id closed on its own since p announced it? */
  predicate ClosedAfter(history: seq<Event>, p: Handle, id: int) {
    if history == [] then false
    else
      var before, e := history[..|history| - 1], history[|history| - 1];
      if e == Announce(p, id) then false
      else (e.Gone? && id >= 0 && AnnouncedId(before, e.proxy) == Some(id)) || ClosedAfter(before, p, id)
  }

  /** A live proxy has been forgotten exactly when another with its id closed after it announced. */
  lemma {:induction false} OrphanIffClosedAfter(history: seq<Event>, p: Handle, id: int)
    requires IsHistory(history) && LiveWithId(Run(history), p, id)
    ensures p !in Remembered(history, id) <==> ClosedAfter(history, p, id)
  {
    var before, e := history[..|history| - 1], history[|history| - 1];
    if e != Announce(p, id) {
      OrphanIffClosedAfter(before, p, id);
      if e == DropById(id) {
        IndexIsRemembered(before, id);
        RunningOrEmpty(before);
      }
    }
  }

  predicate Survives(history: seq<Event>, p: Handle, id: int) {
    LiveWithId(Run(history + [DropById(id)]), p, id)
  }

  /** The survivors of dropById are exactly the forgotten: those that saw another one close. */
  lemma SurvivorsAreOrphans(history: seq<Event>, id: int, p: Handle)
    requires IsHistory(history)
    ensures Survives(history, p, id) <==> Orphan(history, p, id)
    ensures Orphan(history, p, id) <==> LiveWithId(Run(history), p, id) && ClosedAfter(history, p, id)
  {
    assert (history + [DropById(id)])[..|history|] == history;
    IndexIsRemembered(history, id);
    RunningOrEmpty(history);
    if LiveWithId(Run(history), p, id) {
      OrphanIffClosedAfter(history, p, id);
    }
  }

  predicate NeverForgotten(history: seq<Event>, p: Handle, id: int) {
    LiveWithId(Run(history), p, id) ==> !ClosedAfter(history, p, id)
  }

  /** dropById ends every live proxy with the id exactly when none of them saw another one close. */
  lemma DropByIdEndsAllIff(history: seq<Event>, id: int)
    requires IsHistory(history)
    ensures (forall p :: !Survives(history, p, id)) <==> (forall p :: NeverForgotten(history, p, id))
  {
    forall p
      ensures Survives(history, p, id) <==> !NeverForgotten(history, p, id)
    {
      SurvivorsAreOrphans(history, id, p);
    }
  }

  /** There are orphans: two proxies with one id, the first closes, dropById misses the second. */
  lemma DropByIdCanMiss(id: int)
    requires id >= 0
    ensures exists history, p :: IsHistory(history) && Orphan(history, p, id)
  {
    var h1 := [Add(0)];
    var h2 := h1 + [Add(1)];
    var h3 := h2 + [Announce(0, id)];
    var h4 := h3 + [Announce(1, id)];
    var h5 := h4 + [Gone(0)];
    assert h1[..0] == [] && h2[..1] == h1 && h3[..2] == h2 && h4[..3] == h3 && h5[..4] == h4;
    assert Run(h1) == Step(NEW_REGISTRY, Add(0)) && Run(h2) == Step(Run(h1), Add(1));
    assert !Added([], 0) && !Added(h1, 1);
    assert IsHistory(h1) && IsHistory(h2);
    assert Run(h3) == Step(Run(h2), Announce(0, id)) && IsHistory(h3);
    assert Run(h4) == Step(Run(h3), Announce(1, id)) && IsHistory(h4);
    assert Run(h5) == Step(Run(h4), Gone(0)) && IsHistory(h5);
    assert AnnouncedId(h4, 0) == Some(id) by {
      assert AnnouncedId(h3, 0) == Some(id);
    }
    assert Remembered(h5, id) == [];
    assert Orphan(h5, 1, id);
  }

  // After dropAll

  lemma {:induction false} RunningOrEmpty(history: seq<Event>)
    requires IsHistory(history)
    ensures !Run(history).running ==> Run(history).processors == map[] && Run(history).index == map[]
  {
    if history != [] {
      RunningOrEmpty(history[..|history| - 1]);
    }
  }

  /** Once everything has been dropped, nothing is ever live or indexed again. */
  lemma {:induction false} DropAllIsFinal(history: seq<Event>)
    requires IsHistory(history) && DropAll in history
    ensures Run(history).processors == map[] && Run(history).index == map[]
  {
    NotRunningAfterDropAll(history);
    RunningOrEmpty(history);
  }

  lemma {:induction false} NotRunningAfterDropAll(history: seq<Event>)
    requires DropAll in history
    ensures !Run(history).running
  {
    if history[|history| - 1] != DropAll {
      assert history == history[..|history| - 1] + [history[|history| - 1]];
      NotRunningAfterDropAll(history[..|history| - 1]);
    }
  }
}
