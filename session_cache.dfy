/** The session cache of NoSqlSessionManager seen as values: the cluster-id keyed
    map, the two ConcurrentMap operations the manager applies to it, the calls the
    manager makes into code outside this model (recorded as events), and the
    specifications of getSession's load race and of the stop-time drain. */
module SessionCache {

  datatype Option<T> = None | Some(value: T)

  /** An in-memory session. Identity matters (after a lost load race one copy is
      kept and the other discarded), so besides its cluster id, the only part of
      a session the manager looks at, a session carries an instance number that
      stands for Java object identity: two copies of one session differ in it. */
  datatype NoSqlSession = NoSqlSession(clusterId: string, instance: nat)

  /** A call the manager makes into code that is not part of this model. */
  datatype Event =
    | LoadCalled(id: string)                  // the loadSession hook
    | SaveCalled(session: NoSqlSession)       // the save hook
    | RefreshCalled(session: NoSqlSession)    // the refresh hook
    | RemoveCalled(session: NoSqlSession)     // the remove hook
    | WillPassivate(session: NoSqlSession)    // session.willPassivate()
    | ClearAttributes(session: NoSqlSession)  // session.clearAttributes()
    | SavedOnStop(session: NoSqlSession)      // session.save(false)
    | Invalidated(session: NoSqlSession)      // session.invalidate()

  /** What the remove hook did: returned a boolean, or threw. */
  datatype RemoveOutcome = Returned(deleted: bool) | Threw

  /** The manager's map from cluster id to session. */
  type Cache = map<string, NoSqlSession>

  /** Every entry is filed under its own session's cluster id. */
  predicate KeysMatch(m: Cache)
  {
    forall k :: k in m ==> m[k].clusterId == k
  }

  /** `m` and `m'` hold the same entries on every key except `id`. */
  ghost predicate AgreeExcept(m: Cache, m': Cache, id: string)
  {
    forall k :: k != id ==> (k in m <==> k in m') && (k in m ==> m[k] == m'[k])
  }

  /** Java's `map.get(id)`: the entry, or null (None) if there is none. */
  function Get(m: Cache, id: string): Option<NoSqlSession>
  {
    if id in m then Some(m[id]) else None
  }

  /** ConcurrentMap.putIfAbsent: the second component is the entry that was
      already there (None for null); only an absent key is filled. */
  function PutIfAbsent(m: Cache, id: string, s: NoSqlSession): (r: (Cache, Option<NoSqlSession>))
    ensures r.1.None? <==> id !in m
    ensures id in m ==> r.1 == Some(m[id]) && r.0 == m
    ensures id in r.0 && r.0[id] == (if id in m then m[id] else s)
    ensures AgreeExcept(m, r.0, id)
  {
    if id in m then (m, Some(m[id])) else (m[id := s], None)
  }

  /** ConcurrentMap.remove: the second component is the entry removed (None for null). */
  function MapRemove(m: Cache, id: string): (r: (Cache, Option<NoSqlSession>))
    ensures id !in r.0
    ensures AgreeExcept(m, r.0, id)
    ensures r.1.Some? <==> id in m
    ensures r.1.Some? ==> r.1.value == m[id]
    ensures KeysMatch(m) ==> KeysMatch(r.0)
  {
    (m - {id}, Get(m, id))
  }

  /** The result of a getSession miss once loadSession has returned `loaded` and
      the cache has become `cache`. */
  datatype Resolution = Resolution(session: Option<NoSqlSession>, cache: Cache, events: seq<Event>)

  /** What getSession does after a miss: a null load is returned as it is; a
      loaded session is offered with putIfAbsent, and if another entry is there
      already the loaded copy is passivated and cleared and the cached one wins. */
  function Resolve(id: string, loaded: Option<NoSqlSession>, cache: Cache): (r: Resolution)
    ensures r.session.Some? ==> id in r.cache && r.cache[id] == r.session.value
    ensures loaded.None? ==> r == Resolution(None, cache, [])
    ensures loaded.Some? && id in cache ==>
              r == Resolution(Some(cache[id]), cache, [WillPassivate(loaded.value), ClearAttributes(loaded.value)])
    ensures loaded.Some? && id !in cache ==>
              r.session == loaded && r.events == [] && AgreeExcept(cache, r.cache, id)
    ensures loaded.Some? && loaded.value.clusterId == id && KeysMatch(cache) ==> KeysMatch(r.cache)
  {
    match loaded
    case None => Resolution(None, cache, [])
    case Some(s) =>
      var (cache', race) := PutIfAbsent(cache, id, s);
      if race.Some? then Resolution(race, cache', [WillPassivate(s), ClearAttributes(s)])
      else Resolution(loaded, cache', [])
  }

  /** `ss` lists exactly the sessions held in `m`. */
  predicate Lists(ss: seq<NoSqlSession>, m: Cache)
  {
    && (forall s :: s in ss ==> s in m.Values)
    && (forall k :: k in m ==> m[k] in ss)
  }

  /** No two sessions of `ss` share a cluster id. */
  predicate DistinctIds(ss: seq<NoSqlSession>)
  {
    forall i, j :: 0 <= i < j < |ss| ==> ss[i].clusterId != ss[j].clusterId
  }

  /** `ss` is a snapshot of `m`: its sessions, once each. */
  predicate SnapshotOf(ss: seq<NoSqlSession>, m: Cache)
  {
    Lists(ss, m) && DistinctIds(ss)
  }

  lemma ListsEmpty(ss: seq<NoSqlSession>, m: Cache)
    requires Lists(ss, m)
    ensures ss == [] <==> m == map[]
  {
    if m != map[] {
      var k :| k in m;
      assert m[k] in m.Values;
    }
    if ss != [] {
      assert ss[0] in ss;
    }
  }

  /** `new ArrayList(_sessions.values())`: one element per entry of the map. */
  method Snapshot(m: Cache) returns (ss: seq<NoSqlSession>)
    ensures Lists(ss, m)
    ensures |ss| == |m|
    ensures KeysMatch(m) ==> DistinctIds(ss)
  {
    var rest := m.Keys;
    ss := [];
    while rest != {}
      invariant rest <= m.Keys
      invariant |ss| + |rest| == |m.Keys|
      invariant forall s :: s in ss <==> exists k :: k in m.Keys - rest && m[k] == s
      invariant KeysMatch(m) ==> DistinctIds(ss) && forall s :: s in ss ==> s.clusterId !in rest
      decreases rest
    {
      var k :| k in rest;
      ss := ss + [m[k]];
      rest := rest - {k};
    }
    forall s | s in m.Values
      ensures s in ss
    {
      var k :| k in m && m[k] == s;
      assert k in m.Keys - rest;
    }
  }

  /** The cluster ids of the sessions in `ss`. */
  function ClusterIds(ss: seq<NoSqlSession>): set<string>
  {
    if ss == [] then {} else ClusterIds(ss[..|ss| - 1]) + {ss[|ss| - 1].clusterId}
  }

  /** A cluster id is in ClusterIds(ss) exactly when some session of `ss` has it. */
  lemma {:induction false} ClusterIdsMembers(ss: seq<NoSqlSession>, id: string)
    ensures id in ClusterIds(ss) <==> exists j :: 0 <= j < |ss| && ss[j].clusterId == id
  {
    if ss != [] {
      var init := ss[..|ss| - 1];
      ClusterIdsMembers(init, id);
      if id in ClusterIds(init) {
        var j :| 0 <= j < |init| && init[j].clusterId == id;
        assert ss[j] == init[j];
      }
      if exists j :: 0 <= j < |ss| && ss[j].clusterId == id {
        var j :| 0 <= j < |ss| && ss[j].clusterId == id;
        if j < |init| {
          assert init[j] == ss[j];
        }
      }
    }
  }

  /** The cache after `removeSession(s.getClusterId())` for each `s` of `ss` in turn. */
  function RemoveAll(m: Cache, ss: seq<NoSqlSession>): (r: Cache)
    ensures r.Keys == m.Keys - ClusterIds(ss)
    ensures forall k :: k in r ==> r[k] == m[k]
  {
    if ss == [] then m
    else MapRemove(RemoveAll(m, ss[..|ss| - 1]), ss[|ss| - 1].clusterId).0
  }

  /** Removing one more session removes exactly its cluster id from what the
      earlier removals left. */
  lemma RemoveAllSnoc(start: Cache, ss: seq<NoSqlSession>, i: nat)
    requires i < |ss|
    ensures RemoveAll(start, ss[..i + 1]) == MapRemove(RemoveAll(start, ss[..i]), ss[i].clusterId).0
  {
    assert ss[..i + 1][..i] == ss[..i];
  }

  /** Removing the cluster id of every session a cache holds leaves it empty. */
  lemma RemoveAllEmpties(m: Cache, ss: seq<NoSqlSession>)
    requires KeysMatch(m)
    requires forall s :: s in m.Values ==> s in ss
    ensures RemoveAll(m, ss) == map[]
  {
    forall k | k in m
      ensures k in ClusterIds(ss)
    {
      assert m[k] in m.Values;
      var j :| 0 <= j < |ss| && ss[j] == m[k];
      ClusterIdsMembers(ss, k);
    }
  }

  /** When a stop pass comes to session i of `ss`, having removed the sessions
      before it, that session is still cached under its cluster id. */
  ghost predicate CachedInTurn(m: Cache, ss: seq<NoSqlSession>, i: nat)
    requires i < |ss|
  {
    var before := RemoveAll(m, ss[..i]);
    ss[i].clusterId in before && before[ss[i].clusterId] == ss[i]
  }

  /** Removing the snapshot's sessions one by one: each is still cached when its
      turn comes, and at the end the cache is empty. */
  lemma RemovalOrder(m: Cache, ss: seq<NoSqlSession>)
    requires KeysMatch(m) && Lists(ss, m) && DistinctIds(ss)
    ensures forall i :: 0 <= i < |ss| ==> CachedInTurn(m, ss, i)
    ensures RemoveAll(m, ss) == map[]
  {
    forall i | 0 <= i < |ss|
      ensures CachedInTurn(m, ss, i)
    {
      var s := ss[i];
      assert s in m.Values;
      var k :| k in m && m[k] == s;
      ClusterIdsMembers(ss[..i], s.clusterId);
    }
    RemoveAllEmpties(m, ss);
  }

  /** The calls one drain pass makes for one session of its snapshot. */
  function SessionEvents(s: NoSqlSession, stopping: bool, preserve: bool): seq<Event>
  {
    if stopping then [SavedOnStop(s)] + (if preserve then [] else [RemoveCalled(s)])
    else [Invalidated(s)]
  }

  /** The calls one drain pass makes over its snapshot `ss`, in order. */
  function PassEvents(ss: seq<NoSqlSession>, stopping: bool, preserve: bool): seq<Event>
  {
    if ss == [] then []
    else PassEvents(ss[..|ss| - 1], stopping, preserve) + SessionEvents(ss[|ss| - 1], stopping, preserve)
  }

  /** Extending a pass's snapshot by one session extends its calls by that session's. */
  lemma PassEventsSnoc(ss: seq<NoSqlSession>, i: nat, stopping: bool, preserve: bool)
    requires i < |ss|
    ensures PassEvents(ss[..i + 1], stopping, preserve)
            == PassEvents(ss[..i], stopping, preserve) + SessionEvents(ss[i], stopping, preserve)
  {
    assert ss[..i + 1][..i] == ss[..i];
  }

  /** The calls of a whole drain whose passes took the snapshots `snaps`. */
  function DrainEvents(snaps: seq<seq<NoSqlSession>>, stopping: bool, preserve: bool): seq<Event>
  {
    if snaps == [] then []
    else DrainEvents(snaps[..|snaps| - 1], stopping, preserve) + PassEvents(snaps[|snaps| - 1], stopping, preserve)
  }

  /** Associativity of sequence concatenation. This is not a property of the
      manager; it is stated once so that the drain proofs can regroup their logs
      cheaply instead of comparing them element by element. */
  lemma AppendAssoc<T>(a: seq<T>, b: seq<T>, c: seq<T>)
    ensures a + (b + c) == (a + b) + c
  {
  }

  /** One more pass appends that pass's calls to the drain's. */
  lemma DrainEventsSnoc(snaps: seq<seq<NoSqlSession>>, ss: seq<NoSqlSession>, stopping: bool, preserve: bool)
    ensures DrainEvents(snaps + [ss], stopping, preserve)
            == DrainEvents(snaps, stopping, preserve) + PassEvents(ss, stopping, preserve)
  {
  }

  /** On stop, session i of the snapshot is saved, and then (unless sessions are
      preserved) removed, before session i + 1 is touched. */
  lemma {:induction false} StopPassOrder(ss: seq<NoSqlSession>, preserve: bool, i: nat)
    requires i < |ss|
    ensures preserve ==> |PassEvents(ss, true, preserve)| == |ss|
                         && PassEvents(ss, true, preserve)[i] == SavedOnStop(ss[i])
    ensures !preserve ==> |PassEvents(ss, true, preserve)| == 2 * |ss|
                          && PassEvents(ss, true, preserve)[2 * i] == SavedOnStop(ss[i])
                          && PassEvents(ss, true, preserve)[2 * i + 1] == RemoveCalled(ss[i])
  {
    var init := ss[..|ss| - 1];
    if i < |ss| - 1 {
      StopPassOrder(init, preserve, i);
      assert init[i] == ss[i];
    } else if init != [] {
      StopPassOrder(init, preserve, 0);
    }
  }

  /** Outside stop, the pass invalidates the snapshot's sessions one by one, in order. */
  lemma {:induction false} InvalidatePassOrder(ss: seq<NoSqlSession>, preserve: bool, i: nat)
    requires i < |ss|
    ensures |PassEvents(ss, false, preserve)| == |ss|
    ensures PassEvents(ss, false, preserve)[i] == Invalidated(ss[i])
  {
    var init := ss[..|ss| - 1];
    if i < |ss| - 1 {
      InvalidatePassOrder(init, preserve, i);
      assert init[i] == ss[i];
    } else if init != [] {
      InvalidatePassOrder(init, preserve, 0);
    }
  }

  /** The event a drain pass makes first for each snapshot session. */
  function DrainStep(s: NoSqlSession, stopping: bool): Event
  {
    if stopping then SavedOnStop(s) else Invalidated(s)
  }

  /** Every session of a pass's snapshot gets its save (on stop) or its invalidation. */
  lemma {:induction false} PassCovers(ss: seq<NoSqlSession>, stopping: bool, preserve: bool)
    ensures forall s :: s in ss ==> DrainStep(s, stopping) in PassEvents(ss, stopping, preserve)
  {
    if ss != [] {
      var init := ss[..|ss| - 1];
      PassCovers(init, stopping, preserve);
      assert ss == init + [ss[|ss| - 1]];
    }
  }

  /** A drain that made at least one pass over the sessions of `m` saved (on stop)
      or invalidated every one of them. */
  lemma EverySessionHandled(snaps: seq<seq<NoSqlSession>>, m: Cache, stopping: bool, preserve: bool)
    requires snaps != []
    requires Lists(snaps[|snaps| - 1], m)
    ensures forall s :: s in m.Values ==> DrainStep(s, stopping) in DrainEvents(snaps, stopping, preserve)
  {
    PassCovers(snaps[|snaps| - 1], stopping, preserve);
  }

  /** The only calls a stop drain makes are save(false) and, unless sessions are
      preserved, remove; the only calls any other drain makes are invalidate(). */
  predicate DrainKind(e: Event, stopping: bool, preserve: bool)
  {
    if stopping then e.SavedOnStop? || (!preserve && e.RemoveCalled?) else e.Invalidated?
  }

  lemma {:induction false} PassKinds(ss: seq<NoSqlSession>, stopping: bool, preserve: bool)
    ensures forall e :: e in PassEvents(ss, stopping, preserve) ==> DrainKind(e, stopping, preserve)
  {
    if ss != [] {
      PassKinds(ss[..|ss| - 1], stopping, preserve);
    }
  }

  lemma {:induction false} DrainKinds(snaps: seq<seq<NoSqlSession>>, stopping: bool, preserve: bool)
    ensures forall e :: e in DrainEvents(snaps, stopping, preserve) ==> DrainKind(e, stopping, preserve)
  {
    if snaps != [] {
      DrainKinds(snaps[..|snaps| - 1], stopping, preserve);
      PassKinds(snaps[|snaps| - 1], stopping, preserve);
    }
  }
}
