/** NoSqlSessionManager: the in-memory cache of HTTP sessions keyed by cluster id,
    kept in front of a persistence backend reached through four hooks
    (loadSession, save, refresh, remove), with the manager's six tunables.
    Concurrency is modelled sequentially: the sessions other request threads
    install while a load is blocked on the backend sit in `pending` and enter the
    cache during the load, which is what makes getSession's race branch reachable. */
module NoSql {
  import opened SessionCache

  /** Java's `int`. */
  newtype int32 = x: int | -0x8000_0000 <= x < 0x8000_0000

  /** The lifecycle states of the Jetty component the manager extends. */
  datatype LifeCycle = Stopped | Starting | Started | Stopping | Failed

  class NoSqlSessionManager {
    /** `_sessions`: cluster id to cached session. */
    var sessions: Cache

    var stalePeriod: int32
    var savePeriod: int32
    var idlePeriod: int32
    var invalidateOnStop: bool
    var preserveOnStop: bool
    var saveAllAttributes: bool

    /** Lifecycle state, owned by the Jetty superclass. */
    var lifeCycle: LifeCycle

    /** The environment behind the hooks: the rows of the backend, whether the
        backend answers a delete or throws, and the sessions other threads
        install while a load is in flight. */
    var stored: Cache
    var storeReachable: bool
    var pending: Cache

    /** Calls made into code outside this model, oldest first. */
    ghost var log: seq<Event>

    /** What the latest loadSession call returned, and the cache as it left it. */
    ghost var lastLoad: Option<NoSqlSession>
    ghost var lastLoadCache: Cache

    /** What the latest remove call did. */
    ghost var lastRemove: RemoveOutcome

    /** Every cached (and every pending) session is filed under its own cluster id. */
    ghost predicate Valid()
      reads this`sessions, this`pending
    {
      KeysMatch(sessions) && KeysMatch(pending)
    }

    predicate IsRunning()
      reads this`lifeCycle
    {
      lifeCycle == Started || lifeCycle == Starting
    }

    predicate IsStopping()
      reads this`lifeCycle
    {
      lifeCycle == Stopping
    }

    /** A stopped manager with an empty cache and the default settings. */
    constructor ()
      ensures Valid()
      ensures sessions == map[] && lifeCycle == Stopped && log == []
      ensures stalePeriod == 0 && savePeriod == 0 && idlePeriod == -1
      ensures !invalidateOnStop && !preserveOnStop && !saveAllAttributes
      ensures stored == map[] && storeReachable && pending == map[]
    {
      sessions := map[];
      stalePeriod, savePeriod, idlePeriod := 0, 0, -1;
      invalidateOnStop, preserveOnStop, saveAllAttributes := false, false, false;
      lifeCycle := Stopped;
      stored, storeReachable, pending := map[], true, map[];
      log := [];
      lastLoad, lastLoadCache, lastRemove := None, map[], Returned(false);
    }

    /** Registers a session, only while the manager is running. */
    method AddSession(s: NoSqlSession)
      requires Valid()
      modifies this`sessions
      ensures Valid()
      ensures !IsRunning() ==> sessions == old(sessions)
      ensures IsRunning() ==> s.clusterId in sessions && sessions[s.clusterId] == s
      ensures AgreeExcept(old(sessions), sessions, s.clusterId)
    {
      if IsRunning() {
        sessions := sessions[s.clusterId := s];
      }
    }

    /** Read-through lookup. On a miss the outcome is `Resolve` of what the
        load returned and of the cache as the load left it. */
    method GetSession(id: string) returns (r: Option<NoSqlSession>)
      requires Valid()
      modifies this`sessions, this`pending, this`log, this`lastLoad, this`lastLoadCache
      ensures Valid()
      ensures r.Some? ==> id in sessions && sessions[id] == r.value
      ensures old(id in sessions) ==>
                r == Some(old(sessions[id])) && sessions == old(sessions)
                && pending == old(pending) && log == old(log)
      ensures old(id !in sessions) ==>
                var res := Resolve(id, lastLoad, lastLoadCache);
                r == res.session && sessions == res.cache
                && log == old(log) + [LoadCalled(id)] + res.events
      ensures old(id !in sessions) && lastLoad.Some? ==> lastLoad.value.clusterId == id
    {
      var s := Get(sessions, id);
      if s.None? {
        s := LoadSession(id);
        if s.Some? {
          var put := PutIfAbsent(sessions, id, s.value);
          sessions := put.0;
          if put.1.Some? {
            log := log + [WillPassivate(s.value), ClearAttributes(s.value)];
            s := put.1;
          }
        }
      }
      r := s;
    }

    /** Stop-time drain: re-snapshot the cache and make a pass over it, at most
        100 times, until a snapshot is empty. `passes` counts the passes and
        `snapshots` holds the snapshot each pass worked on. */
    method InvalidateSessions() returns (ghost passes: nat, ghost snapshots: seq<seq<NoSqlSession>>)
      requires Valid()
      modifies this`sessions, this`stored, this`log, this`lastRemove
      ensures Valid()
      ensures passes <= 100 && |snapshots| == passes
      ensures forall i :: 0 <= i < passes ==> SnapshotOf(snapshots[i], old(sessions))
      ensures log == old(log) + DrainEvents(snapshots, IsStopping(), preserveOnStop)
      ensures IsStopping() && !preserveOnStop ==>
                sessions == map[] && passes == (if old(sessions) == map[] then 0 else 1)
      // On stop with preserveOnStop nothing leaves the cache, as in the source.
      ensures IsStopping() && preserveOnStop ==>
                sessions == old(sessions) && passes == (if old(sessions) == map[] then 0 else 100)
      // Outside stop, invalidate() is only recorded: its removal of the session
      // through the Jetty superclass is not modelled, so this clause reflects that
      // abstraction and not the program, whose drain ends after one pass.
      ensures !IsStopping() ==>
                sessions == old(sessions) && passes == (if old(sessions) == map[] then 0 else 100)
    {
      var snapshot := Snapshot(sessions);
      var loop := 100;
      snapshots := [];
      while |snapshot| > 0 && loop > 0
        invariant 0 <= loop <= 100 && |snapshots| == 100 - loop
        invariant Draining(old(sessions), old(log), snapshots, snapshot)
        decreases loop
      {
        loop := loop - 1;
        var next := DrainRound(old(sessions), old(log), snapshots, snapshot);
        snapshots, snapshot := snapshots + [snapshot], next;
      }
      assert sessions == map[] || loop == 0 by {
        ListsEmpty(snapshot, sessions);
      }
      passes := |snapshots|;
    }

    /** What holds between the passes of the drain that started from the cache
        `start` and the log `log0`: `snapshots` are the passes made so far, each
        over the whole of `start`, the log holds their calls, and `snapshot` is
        the next one, taken from the cache as it now is. Removing passes empty
        the cache at once; the others leave it as it was. */
    ghost predicate Draining(start: Cache, log0: seq<Event>, snapshots: seq<seq<NoSqlSession>>,
                             snapshot: seq<NoSqlSession>)
      reads this`sessions, this`pending, this`log, this`lifeCycle, this`preserveOnStop
    {
      && Valid()
      && SnapshotOf(snapshot, sessions)
      && (forall i :: 0 <= i < |snapshots| ==> SnapshotOf(snapshots[i], start))
      && log == log0 + DrainEvents(snapshots, IsStopping(), preserveOnStop)
      && sessions == (if IsStopping() && !preserveOnStop && snapshots != [] then map[] else start)
      && (snapshots != [] ==> start != map[] && (IsStopping() && !preserveOnStop ==> |snapshots| == 1))
    }

    /** One round of the drain loop: a pass over a non-empty snapshot, then a
        fresh snapshot of what is left. */
    method DrainRound(ghost start: Cache, ghost log0: seq<Event>, ghost snapshots: seq<seq<NoSqlSession>>,
                      snapshot: seq<NoSqlSession>) returns (next: seq<NoSqlSession>)
      requires Draining(start, log0, snapshots, snapshot) && snapshot != []
      modifies this`sessions, this`stored, this`log, this`lastRemove
      ensures Draining(start, log0, snapshots + [snapshot], next)
    {
      assert sessions != map[] by {
        ListsEmpty(snapshot, sessions);
      }
      assert SnapshotOf(snapshot, start);
      ghost var stopping, preserve := IsStopping(), preserveOnStop;
      DrainPass(snapshot);
      assert log == log0 + DrainEvents(snapshots + [snapshot], stopping, preserve) by {
        DrainEventsSnoc(snapshots, snapshot, stopping, preserve);
        AppendAssoc(log0, DrainEvents(snapshots, stopping, preserve), PassEvents(snapshot, stopping, preserve));
      }
      next := Snapshot(sessions);
    }

    /** One pass of the drain over `snapshot`: on stop, save(false) each session and,
        unless sessions are preserved, remove it; otherwise invalidate each one. */
    method DrainPass(snapshot: seq<NoSqlSession>)
      requires Valid()
      requires Lists(snapshot, sessions) && DistinctIds(snapshot)
      modifies this`sessions, this`stored, this`log, this`lastRemove
      ensures Valid()
      ensures log == old(log) + PassEvents(snapshot, IsStopping(), preserveOnStop)
      ensures sessions == if IsStopping() && !preserveOnStop then map[] else old(sessions)
    {
      if IsStopping() {
        RemovalOrder(sessions, snapshot);
        StopPass(snapshot);
      } else {
        InvalidatePass(snapshot);
      }
    }

    /** The stopping branch of a pass: save(false) each session of the snapshot
        and, unless sessions are preserved, remove it at once. */
    method StopPass(snapshot: seq<NoSqlSession>)
      requires Valid()
      requires forall i :: 0 <= i < |snapshot| ==> CachedInTurn(sessions, snapshot, i)
      requires RemoveAll(sessions, snapshot) == map[]
      modifies this`sessions, this`stored, this`log, this`lastRemove
      ensures Valid()
      ensures log == old(log) + PassEvents(snapshot, true, preserveOnStop)
      ensures sessions == if preserveOnStop then old(sessions) else map[]
    {
      ghost var start := sessions;
      ghost var preserve := preserveOnStop;
      for i := 0 to |snapshot|
        invariant preserveOnStop == preserve && Valid()
        invariant sessions == if preserve then start else RemoveAll(start, snapshot[..i])
        invariant log == old(log) + PassEvents(snapshot[..i], true, preserve)
      {
        assert snapshot[i].clusterId in sessions && sessions[snapshot[i].clusterId] == snapshot[i] by {
          assert CachedInTurn(start, snapshot, i);
        }
        StopOne(snapshot[i]);
        assert log == old(log) + PassEvents(snapshot[..i+1], true, preserve) by {
          PassEventsSnoc(snapshot, i, true, preserve);
          AppendAssoc(old(log), PassEvents(snapshot[..i], true, preserve), SessionEvents(snapshot[i], true, preserve));
        }
        assert !preserve ==> sessions == RemoveAll(start, snapshot[..i+1]) by {
          RemoveAllSnoc(start, snapshot, i);
        }
      }
      assert snapshot[..|snapshot|] == snapshot;
    }

    /** The stopping step for one session: save(false), then (unless sessions
        are preserved) removeSession(session, false), which reaches
        removeSession(clusterId). */
    method StopOne(s: NoSqlSession)
      requires Valid()
      requires s.clusterId in sessions && sessions[s.clusterId] == s
      modifies this`sessions, this`stored, this`log, this`lastRemove
      ensures Valid()
      ensures log == old(log) + SessionEvents(s, true, preserveOnStop)
      ensures sessions == if preserveOnStop then old(sessions) else MapRemove(old(sessions), s.clusterId).0
    {
      log := log + [SavedOnStop(s)];
      if !preserveOnStop {
        var removed := RemoveSession(s.clusterId);
      }
    }

    /** The other branch of a pass: invalidate each session of the snapshot. */
    method InvalidatePass(snapshot: seq<NoSqlSession>)
      modifies this`log
      ensures log == old(log) + PassEvents(snapshot, false, preserveOnStop)
    {
      for i := 0 to |snapshot|
        invariant log == old(log) + PassEvents(snapshot[..i], false, preserveOnStop)
      {
        PassEventsSnoc(snapshot, i, false, preserveOnStop);
        log := log + [Invalidated(snapshot[i])];
      }
      assert snapshot[..|snapshot|] == snapshot;
    }

    /** Removes the entry for `id` and, if there was one, deletes it from the
        backend; a failing delete is swallowed and counts as removed. */
    method RemoveSession(id: string) returns (removed: bool)
      requires Valid()
      modifies this`sessions, this`stored, this`log, this`lastRemove
      ensures Valid()
      ensures sessions == MapRemove(old(sessions), id).0
      ensures old(id !in sessions) ==>
                !removed && log == old(log) && stored == old(stored) && lastRemove == old(lastRemove)
      ensures old(id in sessions) ==>
                log == old(log) + [RemoveCalled(old(sessions)[id])]
                && removed == (lastRemove.Threw? || lastRemove.deleted)
    {
      var taken := MapRemove(sessions, id);
      sessions := taken.0;
      if taken.1.Some? {
        var outcome := Remove(taken.1.value);
        match outcome
        case Returned(deleted) => removed := deleted;
        case Threw => removed := true;
      } else {
        removed := false;
      }
    }

    /** Same as RemoveSession without a result; other cluster nodes are not told. */
    method InvalidateSession(id: string)
      requires Valid()
      modifies this`sessions, this`stored, this`log, this`lastRemove
      ensures Valid()
      ensures sessions == MapRemove(old(sessions), id).0
      ensures old(id !in sessions) ==>
                log == old(log) && stored == old(stored) && lastRemove == old(lastRemove)
      ensures old(id in sessions) ==> log == old(log) + [RemoveCalled(old(sessions)[id])]
    {
      var taken := MapRemove(sessions, id);
      sessions := taken.0;
      if taken.1.Some? {
        var outcome := Remove(taken.1.value);
      }
    }

    function GetStalePeriod(): int32
      reads this`stalePeriod
    {
      stalePeriod
    }

    method SetStalePeriod(v: int32)
      modifies this`stalePeriod
      ensures GetStalePeriod() == v
    {
      stalePeriod := v;
    }

    function GetSavePeriod(): int32
      reads this`savePeriod
    {
      savePeriod
    }

    method SetSavePeriod(v: int32)
      modifies this`savePeriod
      ensures GetSavePeriod() == v
    {
      savePeriod := v;
    }

    function GetIdlePeriod(): int32
      reads this`idlePeriod
    {
      idlePeriod
    }

    method SetIdlePeriod(v: int32)
      modifies this`idlePeriod
      ensures GetIdlePeriod() == v
    {
      idlePeriod := v;
    }

    function IsInvalidateOnStop(): bool
      reads this`invalidateOnStop
    {
      invalidateOnStop
    }

    method SetInvalidateOnStop(v: bool)
      modifies this`invalidateOnStop
      ensures IsInvalidateOnStop() == v
    {
      invalidateOnStop := v;
    }

    function IsPreserveOnStop(): bool
      reads this`preserveOnStop
    {
      preserveOnStop
    }

    method SetPreserveOnStop(v: bool)
      modifies this`preserveOnStop
      ensures IsPreserveOnStop() == v
    {
      preserveOnStop := v;
    }

    function IsSaveAllAttributes(): bool
      reads this`saveAllAttributes
    {
      saveAllAttributes
    }

    method SetSaveAllAttributes(v: bool)
      modifies this`saveAllAttributes
      ensures IsSaveAllAttributes() == v
    {
      saveAllAttributes := v;
    }

    // The persistence hooks. Each contract is all the manager may rely on; the
    // bodies bind the hooks to the environment fields so that they can run.

    /** loadSession: may return null or a session with the requested cluster id;
        meanwhile other threads may have changed the cache. */
    method LoadSession(id: string) returns (s: Option<NoSqlSession>)
      requires Valid()
      modifies this`sessions, this`pending, this`log, this`lastLoad, this`lastLoadCache
      ensures Valid()
      ensures s.Some? ==> s.value.clusterId == id
      ensures log == old(log) + [LoadCalled(id)]
      ensures lastLoad == s && lastLoadCache == sessions
    {
      s := if id in stored && stored[id].clusterId == id then Some(stored[id]) else None;
      sessions := sessions + pending;
      pending := map[];
      log := log + [LoadCalled(id)];
      lastLoad, lastLoadCache := s, sessions;
    }

    /** save: writes the session and returns its new version token. */
    method Save(s: NoSqlSession, version: Option<nat>, activateAfterSave: bool) returns (newVersion: Option<nat>)
      modifies this`stored, this`log
      ensures log == old(log) + [SaveCalled(s)]
    {
      stored := stored[s.clusterId := s];
      newVersion := Some(if version.Some? then version.value + 1 else 0);
      log := log + [SaveCalled(s)];
    }

    /** refresh: re-reads the session and returns the version token now current. */
    method Refresh(s: NoSqlSession, version: Option<nat>) returns (newVersion: Option<nat>)
      modifies this`log
      ensures log == old(log) + [RefreshCalled(s)]
    {
      newVersion := version;
      log := log + [RefreshCalled(s)];
    }

    /** remove: deletes the session's row, answering whether it did, or throws. */
    method Remove(s: NoSqlSession) returns (outcome: RemoveOutcome)
      modifies this`stored, this`log, this`lastRemove
      ensures log == old(log) + [RemoveCalled(s)]
      ensures lastRemove == outcome
    {
      if storeReachable {
        outcome := Returned(s.clusterId in stored);
        stored := stored - {s.clusterId};
      } else {
        outcome := Threw;
      }
      log := log + [RemoveCalled(s)];
      lastRemove := outcome;
    }
  }
}
