# NoSqlSessionManager session cache, in Dafny

This project models the in-memory session cache of `NoSqlSessionManager`. That
class is the Jetty session manager the bigtable repository copies from
`jetty-nosql`. The manager keeps a concurrent map from cluster id to session.
It reaches a persistence backend through four abstract hooks: `loadSession`,
`save`, `refresh` and `remove`. It also holds six tunables with getters and
setters.

The project has two modules:

- `SessionCache` (`session_cache.dfy`) holds the value side:
  - sessions, and the calls the manager makes into code outside the model, recorded as `Event`s;
  - the two `ConcurrentMap` operations the manager uses (`putIfAbsent`, `remove`);
  - `Resolve`, which says what `getSession` does once a load has returned;
  - the snapshot `new ArrayList(_sessions.values())`;
  - the specification of the shutdown drain (`RemoveAll`, `PassEvents`, `DrainEvents`) and the lemmas about it.
- `NoSql` (`nosql_session_manager.dfy`) holds the class `NoSqlSessionManager`:
  - the cache and the settings are fields that its methods update in place;
  - a ghost `log` records every call into hidden code, oldest first;
  - `Valid()` is the class invariant: every session is filed under its own cluster id.

Concurrency is modelled sequentially. Other request threads act only while
`loadSession` is blocked. The sessions they install sit in the field `pending`
and enter the cache during the load, so `getSession`'s lost-race branch is
reachable. The four hooks are methods. Their contracts state only what the
manager may rely on. Their bodies bind them to the fields `stored` (the
backend's rows), `storeReachable` (when false, `remove` throws) and `pending`.

## Model

| member | source | states |
|---|---|---|
| NoSql.NoSqlSessionManager.constructor | bigtable-jetty-session-manager/src/main/java/com/altamiracorp/bigtable/jetty/NoSqlSessionManager.java:23-30 | The cache starts empty. The defaults are stalePeriod 0, savePeriod 0, idlePeriod -1, and invalidateOnStop, preserveOnStop and saveAllAttributes all false. |
| NoSql.NoSqlSessionManager.AddSession | bigtable-jetty-session-manager/src/main/java/com/altamiracorp/bigtable/jetty/NoSqlSessionManager.java:45-49 | When the manager is not running, the cache is unchanged. When it is running, the session is filed under its cluster id, overwriting any old entry. No other key changes. The class invariant is kept. |
| NoSql.NoSqlSessionManager.GetSession | bigtable-jetty-session-manager/src/main/java/com/altamiracorp/bigtable/jetty/NoSqlSessionManager.java:53-76 | On a hit, it returns the cached entry without calling loadSession, and the cache and the log are unchanged. On a miss, it calls loadSession exactly once. The result, the new cache and the calls that follow are `Resolve` of the session that call returned and of the cache as that call left it. A non-null result is the cache's entry for the id afterwards. |
| SessionCache.Resolve | bigtable-jetty-session-manager/src/main/java/com/altamiracorp/bigtable/jetty/NoSqlSessionManager.java:59-75 | A null load returns null and leaves the cache as it is. A load whose id is still absent is inserted under the id and returned, and no other key changes. If an entry got there first, that entry is returned and kept, and only the loaded copy gets willPassivate then clearAttributes. A non-null result is the cache's entry for the id. |
| SessionCache.PutIfAbsent | bigtable-jetty-session-manager/src/main/java/com/altamiracorp/bigtable/jetty/NoSqlSessionManager.java:65 | It returns null exactly when the key was absent, and only then is the map changed. Afterwards the key holds the old entry if there was one, otherwise the new session. Every other key keeps its entry. |
| SessionCache.MapRemove | bigtable-jetty-session-manager/src/main/java/com/altamiracorp/bigtable/jetty/NoSqlSessionManager.java:125 | Afterwards the key is absent and every other key keeps its entry. It returns the removed entry, non-null exactly when the key was present. It keeps every session filed under its own id. |
| NoSql.NoSqlSessionManager.RemoveSession | bigtable-jetty-session-manager/src/main/java/com/altamiracorp/bigtable/jetty/NoSqlSessionManager.java:121-141 | Afterwards the id is absent and other keys are untouched. The remove hook is called, with the removed session, only if an entry existed. The result is false when nothing was cached. Otherwise it is what that remove call returned, or true if it threw. The exception does not propagate. |
| NoSql.NoSqlSessionManager.InvalidateSession | bigtable-jetty-session-manager/src/main/java/com/altamiracorp/bigtable/jetty/NoSqlSessionManager.java:144-167 | Afterwards the id is absent and other keys are untouched. The remove hook is called only if an entry existed. An exception from remove does not propagate. |
| NoSql.NoSqlSessionManager.InvalidateSessions | bigtable-jetty-session-manager/src/main/java/com/altamiracorp/bigtable/jetty/NoSqlSessionManager.java:80-109 | It makes at most 100 passes and stops at the first empty snapshot. Each pass works on a duplicate-free snapshot of the cache as it was on entry. The calls made are exactly `DrainEvents` of those snapshots. A stop that does not preserve sessions empties the cache in one pass. A stop that preserves sessions leaves the cache as it was and makes 100 passes, unless the cache was empty, as the source does. Outside stop the model does the same; this follows from recording invalidate() without its effect (see Left out), not from the program. |
| NoSql.NoSqlSessionManager.DrainRound | bigtable-jetty-session-manager/src/main/java/com/altamiracorp/bigtable/jetty/NoSqlSessionManager.java:86-106 | One iteration of the drain loop keeps the drain's invariant: one pass over the current snapshot, then a fresh snapshot of what is left. |
| NoSql.NoSqlSessionManager.DrainPass | bigtable-jetty-session-manager/src/main/java/com/altamiracorp/bigtable/jetty/NoSqlSessionManager.java:88-104 | A pass logs exactly `PassEvents` of its snapshot. It empties the cache when stopping without preserving sessions, and otherwise leaves the cache as it was. |
| NoSql.NoSqlSessionManager.StopPass | bigtable-jetty-session-manager/src/main/java/com/altamiracorp/bigtable/jetty/NoSqlSessionManager.java:90-98 | Each snapshot session is saved with save(false) and, unless preserveOnStop is set, removed, one after another. Each session is still cached when its turn comes. At the end the cache is empty, or unchanged if sessions are preserved. |
| NoSql.NoSqlSessionManager.StopOne | bigtable-jetty-session-manager/src/main/java/com/altamiracorp/bigtable/jetty/NoSqlSessionManager.java:93-97 | save(false) is called for the session. Then, unless sessions are preserved, removeSession drops exactly its cluster id and calls the remove hook. |
| NoSql.NoSqlSessionManager.InvalidatePass | bigtable-jetty-session-manager/src/main/java/com/altamiracorp/bigtable/jetty/NoSqlSessionManager.java:100-104 | invalidate() is called for each snapshot session, in snapshot order, and nothing else is called. |
| SessionCache.Snapshot | bigtable-jetty-session-manager/src/main/java/com/altamiracorp/bigtable/jetty/NoSqlSessionManager.java:83 | The snapshot holds every session in the map and nothing else, and has as many elements as the map has entries. When the map files sessions under their own ids, no cluster id repeats, so there is exactly one element per entry. |
| SessionCache.ListsEmpty | bigtable-jetty-session-manager/src/main/java/com/altamiracorp/bigtable/jetty/NoSqlSessionManager.java:85 | A snapshot is empty exactly when the map it lists is empty. This is the `sessions.size()>0` test of the drain loop. |
| SessionCache.RemoveAll | bigtable-jetty-session-manager/src/main/java/com/altamiracorp/bigtable/jetty/NoSqlSessionManager.java:91-98 | Removing the cluster ids of a sequence of sessions leaves exactly the keys not among those ids, each with its original entry. |
| SessionCache.ClusterIdsMembers | bigtable-jetty-session-manager/src/main/java/com/altamiracorp/bigtable/jetty/NoSqlSessionManager.java:96 | An id is among a sequence's cluster ids exactly when some session of the sequence carries it. |
| SessionCache.RemoveAllEmpties | bigtable-jetty-session-manager/src/main/java/com/altamiracorp/bigtable/jetty/NoSqlSessionManager.java:91-98 | Removing the id of every session a cache holds leaves the cache empty. |
| SessionCache.RemovalOrder | bigtable-jetty-session-manager/src/main/java/com/altamiracorp/bigtable/jetty/NoSqlSessionManager.java:91-98 | In a stop pass over a snapshot of the cache, every session is still cached under its id when its turn comes, and the cache is empty at the end. |
| SessionCache.PassEventsSnoc | bigtable-jetty-session-manager/src/main/java/com/altamiracorp/bigtable/jetty/NoSqlSessionManager.java:91-104 | A pass's calls grow one session at a time, in snapshot order. |
| SessionCache.DrainEventsSnoc | bigtable-jetty-session-manager/src/main/java/com/altamiracorp/bigtable/jetty/NoSqlSessionManager.java:85-106 | A drain's calls grow one pass at a time, in pass order. |
| SessionCache.StopPassOrder | bigtable-jetty-session-manager/src/main/java/com/altamiracorp/bigtable/jetty/NoSqlSessionManager.java:91-98 | In a stop pass, call 2i is save(false) of session i and call 2i+1 is remove of session i. With preserveOnStop, call i is save(false) of session i and nothing is removed. So each session is saved before it is removed, and before the next session is touched. |
| SessionCache.InvalidatePassOrder | bigtable-jetty-session-manager/src/main/java/com/altamiracorp/bigtable/jetty/NoSqlSessionManager.java:100-104 | Outside stop, a pass makes exactly one call per session: call i is invalidate() of session i. |
| SessionCache.PassCovers | bigtable-jetty-session-manager/src/main/java/com/altamiracorp/bigtable/jetty/NoSqlSessionManager.java:88-104 | Every session of a pass's snapshot is saved (on stop) or invalidated (otherwise). |
| SessionCache.EverySessionHandled | bigtable-jetty-session-manager/src/main/java/com/altamiracorp/bigtable/jetty/NoSqlSessionManager.java:80-109 | A drain that made a pass over a snapshot of the cache saved (on stop) or invalidated every session the cache held. |
| SessionCache.PassKinds | bigtable-jetty-session-manager/src/main/java/com/altamiracorp/bigtable/jetty/NoSqlSessionManager.java:88-104 | A stop pass calls only save(false) and, unless sessions are preserved, remove. Any other pass calls only invalidate(). |
| SessionCache.DrainKinds | bigtable-jetty-session-manager/src/main/java/com/altamiracorp/bigtable/jetty/NoSqlSessionManager.java:80-109 | The same holds for the calls of the whole drain. |
| SessionCache.RemoveAllSnoc | bigtable-jetty-session-manager/src/main/java/com/altamiracorp/bigtable/jetty/NoSqlSessionManager.java:91-98 | Removing one more snapshot session removes exactly its cluster id from what the earlier removals left. |
| NoSql.NoSqlSessionManager.SetStalePeriod | bigtable-jetty-session-manager/src/main/java/com/altamiracorp/bigtable/jetty/NoSqlSessionManager.java:195-198 | Only stalePeriod changes, and getStalePeriod then returns the value set. |
| NoSql.NoSqlSessionManager.SetSavePeriod | bigtable-jetty-session-manager/src/main/java/com/altamiracorp/bigtable/jetty/NoSqlSessionManager.java:229-232 | Only savePeriod changes, and getSavePeriod then returns the value set. |
| NoSql.NoSqlSessionManager.SetIdlePeriod | bigtable-jetty-session-manager/src/main/java/com/altamiracorp/bigtable/jetty/NoSqlSessionManager.java:255-258 | Only idlePeriod changes, and getIdlePeriod then returns the value set. |
| NoSql.NoSqlSessionManager.SetInvalidateOnStop | bigtable-jetty-session-manager/src/main/java/com/altamiracorp/bigtable/jetty/NoSqlSessionManager.java:285-288 | Only invalidateOnStop changes, and isInvalidateOnStop then returns the value set. |
| NoSql.NoSqlSessionManager.SetPreserveOnStop | bigtable-jetty-session-manager/src/main/java/com/altamiracorp/bigtable/jetty/NoSqlSessionManager.java:295-298 | Only preserveOnStop changes, and isPreserveOnStop then returns the value set. |
| NoSql.NoSqlSessionManager.SetSaveAllAttributes | bigtable-jetty-session-manager/src/main/java/com/altamiracorp/bigtable/jetty/NoSqlSessionManager.java:315-318 | Only saveAllAttributes changes, and isSaveAllAttributes then returns the value set. |
| NoSql.NoSqlSessionManager.LoadSession | bigtable-jetty-session-manager/src/main/java/com/altamiracorp/bigtable/jetty/NoSqlSessionManager.java:321 | The loadSession hook returns null or a session with the requested cluster id. The call is logged, and its result and the cache it leaves are recorded. Meanwhile the cache may gain entries from other threads. |
| NoSql.NoSqlSessionManager.Save | bigtable-jetty-session-manager/src/main/java/com/altamiracorp/bigtable/jetty/NoSqlSessionManager.java:324 | The save hook: the call is logged, and its result is unconstrained. |
| NoSql.NoSqlSessionManager.Refresh | bigtable-jetty-session-manager/src/main/java/com/altamiracorp/bigtable/jetty/NoSqlSessionManager.java:327 | The refresh hook: the call is logged, and its result is unconstrained. |
| NoSql.NoSqlSessionManager.Remove | bigtable-jetty-session-manager/src/main/java/com/altamiracorp/bigtable/jetty/NoSqlSessionManager.java:330 | The remove hook: the call is logged and its outcome recorded. It returns a boolean or throws (`Threw`), and either is possible. |

## Left out

- Concurrency: `ConcurrentHashMap` and the `synchronized (this)` blocks become sequential updates. Other threads act only through `pending`, during `loadSession`. No session is created while a drain runs, so its re-snapshot never finds one.
- Jetty's lifecycle: `isRunning()` and `isStopping()` are read from a `lifeCycle` field. The field does not change during a drain.
- `NoSqlSession` behaviour: `save(false)`, `invalidate()`, `willPassivate()` and `clearAttributes()` are only recorded in the log. `invalidate()` removes the session through `AbstractSessionManager`, which is not part of this model. So in the model, a drain outside stop leaves the cache as it is and makes all 100 passes.
- With preserveOnStop set, a stop drain never empties the cache, so it makes all 100 passes and saves every session 100 times. The source behaves the same way; `InvalidateSessions` states it.
- `removeSession(session, false)` lives in `AbstractSessionManager`. It is modelled as reaching `removeSession(clusterId)`. Its statistics and id-manager effects are not modelled.
- The stale, save and idle periods are stored and read back. Their timing semantics live in `NoSqlSession`, which is not part of this model.
- `newSession` (a wall-clock read and the construction of a `NoSqlSession`) and `doStart` (a call to the superclass) are not modelled.
- Exceptions other than one thrown by `remove` are not modelled. A null id would make the map's `get`, `put` or `remove` throw. For `removeSession`, that throw comes before the try block. An exception from `loadSession` would propagate out of `getSession`. A throwing `save(false)` or `invalidate()` would abort `invalidateSessions` mid-pass, leaving the rest of the snapshot unsaved and unremoved. In the model, ids are strings, never null, and only `remove` can fail.
- SLF4J logging, including the warning logged when `remove` throws, is not modelled.
- NoSql.NoSqlSessionManager.LoadSession: its contract promises that a loaded session carries the requested cluster id. Java does not check this. It is what keeps every session filed under its own id.
- NoSql.NoSqlSessionManager.Save: the Java hook is abstract. This body is an in-memory binding so the model can run, and the contract deliberately promises no more than the call being logged.
- NoSql.NoSqlSessionManager.Refresh: the Java hook is abstract. This body is an in-memory binding so the model can run, and the contract deliberately promises no more than the call being logged.
- NoSql.NoSqlSessionManager.Remove: the Java hook is abstract. This body is an in-memory binding so the model can run. The contract promises only that the call is logged and its outcome recorded in `lastRemove`; which outcome it is stays unconstrained.
- Java object identity of sessions is an `instance` number carried by each session value.
- The Accumulo session test in the same repository exercises code outside this class and is not modelled.
