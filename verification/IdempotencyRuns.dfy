/**
 What every interleaving of requests keeps: one handler per key at a time, at most one success per key and ttl,
 and replays that repeat an earlier success.
 */
module IdempotencyRuns {
  import opened Common
  import opened Responses
  import opened IdempotencySpec

  // ---------------------------------------------------------------- the store and the running handlers

  // Every running handler has claimed its key, with its fingerprint, and no other handler has.
  ghost predicate RunsClaim(s: State) {
    (forall n :: n in s.running ==>
      n < s.next && s.running[n].key in s.store.inflight && s.store.inflight[s.running[n].key] == s.running[n].hash) &&
    (forall n, m :: n in s.running && m in s.running && s.running[n].key == s.running[m].key ==> n == m)
  }

  ghost predicate HasRun(running: map<nat, Claim>, key: string) {
    exists n :: n in running && running[n].key == key
  }

  ghost predicate ClaimsRun(s: State) {
    forall k :: k in s.store.inflight ==> HasRun(s.running, k)
  }

  // In-flight and cached keys are disjoint, and every in-flight key has exactly one running handler, with its
  // fingerprint.
  ghost predicate Exclusive(s: State) {
    s.store.inflight.Keys !! s.store.cache.Keys && RunsClaim(s) && ClaimsRun(s)
  }

  lemma {:induction false} EnterExclusive(s: State, key: string, hash: string, now: real)
    requires Exclusive(s)
    ensures Exclusive(Enter(s, key, hash, now))
  {
    if Answer(s.store, key, hash) == RunHandler {
      var s' := Enter(s, key, hash, now);
      forall k | k in s'.store.inflight ensures HasRun(s'.running, k) {
        if k in s.store.inflight {
          var n :| n in s.running && s.running[n].key == k;
          assert n in s'.running && s'.running[n].key == k;
        } else {
          assert s.next in s'.running && s'.running[s.next].key == k;
        }
      }
    }
  }

  lemma {:induction false} FinishClaimsRun(s: State, run: nat, result: Result, now: real)
    requires ClaimsRun(s) && run in s.running
    ensures ClaimsRun(Finish(s, run, result, now))
  {
    var s' := Finish(s, run, result, now);
    forall k | k in s'.store.inflight ensures HasRun(s'.running, k) {
      var n :| n in s.running && s.running[n].key == k;
      assert n in s'.running && s'.running[n].key == k;
    }
  }

  lemma {:induction false} FinishExclusive(s: State, run: nat, result: Result, now: real)
    requires Exclusive(s) && run in s.running
    ensures Exclusive(Finish(s, run, result, now))
  {
    FinishClaimsRun(s, run, result, now);
  }

  // ---------------------------------------------------------------- the cache and the log

  predicate StoredAs(e: Entry, key: string, c: Cached) {
    e.Stored? && e.key == key && e.hash == c.requestHash && e.response == c.response && e.at == c.createdAt
  }

  // Everything cached was stored by a successful run with that key and fingerprint.
  ghost predicate Sourced(cache: map<string, Cached>, log: seq<Entry>) {
    forall k :: k in cache ==>
      Successful(cache[k].response) && exists i :: 0 <= i < |log| && StoredAs(log[i], k, cache[k])
  }

  // A stored success is still cached, or replaced by a newer one, unless more than ttl has passed since.
  ghost predicate Remembered(cache: map<string, Cached>, log: seq<Entry>, now: real, ttl: real) {
    forall i {:trigger log[i].Stored?} :: 0 <= i < |log| && log[i].Stored? ==>
      (log[i].key in cache && log[i].at <= cache[log[i].key].createdAt) || now - log[i].at > ttl
  }

  // What the last eviction left was not older than ttl then, and nothing is dated in the future.
  ghost predicate Dated(s: Store, log: seq<Entry>, now: real, ttl: real) {
    s.lastEviction <= now &&
    (forall k :: k in s.cache ==> s.cache[k].createdAt <= now && s.lastEviction - s.cache[k].createdAt <= ttl) &&
    (forall i :: 0 <= i < |log| ==> log[i].at <= now)
  }

  lemma SourcedAppend(cache: map<string, Cached>, log: seq<Entry>, e: Entry)
    requires Sourced(cache, log)
    ensures Sourced(cache, log + [e])
  {
    forall k | k in cache
      ensures exists i :: 0 <= i < |log + [e]| && StoredAs((log + [e])[i], k, cache[k])
    {
      var i :| 0 <= i < |log| && StoredAs(log[i], k, cache[k]);
      assert (log + [e])[i] == log[i];
    }
  }

  // ---------------------------------------------------------------- what the log promises

  // A run starts, and a run succeeds, only when every earlier success with its key is more than ttl old.
  ghost predicate AtMostOncePerTtl(log: seq<Entry>, ttl: real) {
    (forall i, j {:trigger log[i].Stored?, log[j].Started?} ::
      0 <= i < j < |log| && log[i].Stored? && log[j].Started? && log[i].key == log[j].key ==>
          log[j].at - log[i].at > ttl) &&
    (forall i, j {:trigger log[i].Stored?, log[j].Stored?} ::
      0 <= i < j < |log| && log[i].Stored? && log[j].Stored? && log[i].key == log[j].key ==>
          log[j].at - log[i].at > ttl)
  }

  ghost predicate IsReplayOf(replay: Entry, e: Entry)
    requires replay.Replayed?
  {
    e.Stored? && e.key == replay.key && e.hash == replay.hash && 200 <= e.response.status <= 299 &&
    Replays(replay.response, e.response)
  }

  // Every replay repeats an earlier stored success with the same key and fingerprint, less than ttl + 600 s old.
  ghost predicate FaithfulReplays(log: seq<Entry>, ttl: real) {
    forall j {:trigger log[j].Replayed?} :: 0 <= j < |log| && log[j].Replayed? ==>
      exists i :: 0 <= i < j && IsReplayOf(log[j], log[i]) && log[j].at - log[i].at < ttl + EVICTION_PERIOD
  }

  predicate Ends(e: Entry, run: nat) {
    (e.Stored? || e.Ended?) && e.run == run
  }

  ghost predicate EndedAfter(log: seq<Entry>, i: nat, run: nat) {
    exists m :: i < m < |log| && Ends(log[m], run)
  }

  // Every started run is still running, with its own key and fingerprint, or its end is in the log.
  ghost predicate Accounted(s: State) {
    forall i {:trigger s.log[i].Started?} :: 0 <= i < |s.log| && s.log[i].Started? ==>
      (s.log[i].run in s.running && s.running[s.log[i].run] == Claim(s.log[i].key, s.log[i].hash)) ||
      EndedAfter(s.log, i, s.log[i].run)
  }

  // Between two starts for one key the first run ends.
  ghost predicate NoOverlap(log: seq<Entry>) {
    forall i, j {:trigger log[i].Started?, log[j].Started?} ::
      0 <= i < j < |log| && log[i].Started? && log[j].Started? && log[i].key == log[j].key ==>
      EndedAfter(log[..j], i, log[i].run)
  }

  lemma EndedAppend(log: seq<Entry>, e: Entry, i: nat, run: nat)
    requires EndedAfter(log, i, run)
    ensures EndedAfter(log + [e], i, run)
  {
    var m :| i < m < |log| && Ends(log[m], run);
    assert (log + [e])[m] == log[m];
  }

  lemma NoOverlapAppend(log: seq<Entry>, e: Entry)
    requires NoOverlap(log)
    requires e.Started? ==> forall i :: 0 <= i < |log| && log[i].Started? && log[i].key == e.key ==>
        EndedAfter(log, i, log[i].run)
    ensures NoOverlap(log + [e])
  {
    var l := log + [e];
    forall i, j | 0 <= i < j < |l| && l[i].Started? && l[j].Started? && l[i].key == l[j].key
      ensures EndedAfter(l[..j], i, l[i].run)
    {
      assert l[..j] == log[..j];
      if j == |log| { assert log[..j] == log; }
    }
  }

  lemma FaithfulAppend(log: seq<Entry>, e: Entry, ttl: real)
    requires FaithfulReplays(log, ttl)
    requires e.Replayed? ==>
      exists i :: 0 <= i < |log| && IsReplayOf(e, log[i]) && e.at - log[i].at < ttl + EVICTION_PERIOD
    ensures FaithfulReplays(log + [e], ttl)
  {
    var l := log + [e];
    forall j | 0 <= j < |l| && l[j].Replayed?
      ensures exists i :: 0 <= i < j && IsReplayOf(l[j], l[i]) && l[j].at - l[i].at < ttl + EVICTION_PERIOD
    {
      if j < |log| {
        assert l[j] == log[j];
        var i :| 0 <= i < j && IsReplayOf(log[j], log[i]) && log[j].at - log[i].at < ttl + EVICTION_PERIOD;
        assert l[i] == log[i];
      } else {
        var i :| 0 <= i < |log| && IsReplayOf(e, log[i]) && e.at - log[i].at < ttl + EVICTION_PERIOD;
        assert l[i] == log[i];
      }
    }
  }

  // ---------------------------------------------------------------- the invariant

  ghost predicate StoreInv(s: Store, log: seq<Entry>, now: real, ttl: real) {
    Sourced(s.cache, log) && Remembered(s.cache, log, now, ttl) && Dated(s, log, now, ttl)
  }

  ghost predicate LogInv(log: seq<Entry>, ttl: real) {
    AtMostOncePerTtl(log, ttl) && FaithfulReplays(log, ttl) && NoOverlap(log)
  }

  ghost predicate Inv(s: State, now: real, ttl: real) {
    Exclusive(s) && Accounted(s) && StoreInv(s.store, s.log, now, ttl) && LogInv(s.log, ttl)
  }

  lemma StoreLater(s: Store, log: seq<Entry>, now: real, later: real, ttl: real)
    ensures StoreInv(s, log, now, ttl) && now <= later ==> StoreInv(s, log, later, ttl)
  {
  }

  // Every response left by the eviction step of a request is younger than ttl + 600 s.
  lemma EvictStore(s: Store, log: seq<Entry>, now: real, ttl: real)
    ensures StoreInv(s, log, now, ttl) ==>
      (StoreInv(Evict(s, now, ttl), log, now, ttl) &&
      (forall k :: k in Evict(s, now, ttl).cache ==>
        now - Evict(s, now, ttl).cache[k].createdAt < ttl + EVICTION_PERIOD))
  {
  }

  lemma {:induction false} EvictKeeps(s: State, now: real, ttl: real)
    requires Inv(s, now, ttl)
    ensures Inv(Evicted(s, now, ttl), now, ttl)
    ensures forall k :: k in Evicted(s, now, ttl).store.cache ==>
              now - Evicted(s, now, ttl).store.cache[k].createdAt < ttl + EVICTION_PERIOD
  {
    EvictStore(s.store, s.log, now, ttl);
  }

  // Entries other than stores leave the relation between cache and log alone.
  lemma StoreAppend(s: Store, inflight: map<string, string>, log: seq<Entry>, e: Entry, now: real, ttl: real)
    requires StoreInv(s, log, now, ttl) && !e.Stored? && e.at == now
    ensures StoreInv(s.(inflight := inflight), log + [e], now, ttl)
  {
    SourcedAppend(s.cache, log, e);
  }

  lemma StoredAppend(s: Store, inflight: map<string, string>, log: seq<Entry>, run: nat, key: string, c: Cached,
      now: real, ttl: real)
    requires StoreInv(s, log, now, ttl) && Successful(c.response) && c.createdAt == now && ttl >= 0.0
    ensures StoreInv(Store(s.cache[key := c], inflight, s.lastEviction),
                     log + [Stored(run, key, c.requestHash, c.response, now)], now, ttl)
  {
    var e := Stored(run, key, c.requestHash, c.response, now);
    SourcedAppend(s.cache, log, e);
    assert (log + [e])[|log|] == e;
  }

  lemma AtMostOnceAppend(log: seq<Entry>, e: Entry, ttl: real)
    ensures
      AtMostOncePerTtl(log, ttl) &&
      (e.Started? || e.Stored? ==>
        forall i {:trigger log[i].Stored?} :: 0 <= i < |log| && log[i].Stored? && log[i].key == e.key ==>
            e.at - log[i].at > ttl) ==>
      AtMostOncePerTtl(log + [e], ttl)
  {
  }

  lemma StartLog(s: State, key: string, hash: string, now: real, ttl: real)
    requires Inv(s, now, ttl) && Answer(s.store, key, hash) == RunHandler
    ensures LogInv(s.log + [Started(s.next, key, hash, now)], ttl)
  {
    var e := Started(s.next, key, hash, now);
    forall i | 0 <= i < |s.log| && s.log[i].Started? && s.log[i].key == key ensures EndedAfter(s.log, i, s.log[i].run) {
      assert s.log[i].run in s.running ==> s.running[s.log[i].run].key in s.store.inflight;
    }
    NoOverlapAppend(s.log, e);
    FaithfulAppend(s.log, e, ttl);
    AtMostOnceAppend(s.log, e, ttl);
  }

  lemma {:induction false} ReplayLog(s: State, key: string, hash: string, now: real, ttl: real)
    requires Inv(s, now, ttl) && Answer(s.store, key, hash).Replay?
    requires now - s.store.cache[key].createdAt < ttl + EVICTION_PERIOD
    ensures LogInv(s.log + [Replayed(key, hash, AsReplay(s.store.cache[key].response), now)], ttl)
  {
    var e := Replayed(key, hash, AsReplay(s.store.cache[key].response), now);
    var i :| 0 <= i < |s.log| && StoredAs(s.log[i], key, s.store.cache[key]);
    AsReplayReplays(s.log[i].response);
    assert IsReplayOf(e, s.log[i]);
    NoOverlapAppend(s.log, e);
    FaithfulAppend(s.log, e, ttl);
    AtMostOnceAppend(s.log, e, ttl);
  }

  // Appending an entry keeps every run accounted for: a run that stops running has its end in the new entry.
  lemma AccountedAppend(s: State, e: Entry, running: map<nat, Claim>)
    requires Accounted(s) && Exclusive(s)
    requires forall n :: n in s.running ==> (n in running && running[n] == s.running[n]) || Ends(e, n)
    requires e.Started? ==> e.run in running && running[e.run] == Claim(e.key, e.hash)
    ensures Accounted(State(s.store, running, s.next, s.log + [e]))
  {
    var l := s.log + [e];
    forall i | 0 <= i < |l| && l[i].Started?
      ensures (l[i].run in running && running[l[i].run] == Claim(l[i].key, l[i].hash)) || EndedAfter(l, i, l[i].run)
    {
      if i < |s.log| {
        assert l[i] == s.log[i];
        if EndedAfter(s.log, i, s.log[i].run) {
          EndedAppend(s.log, e, i, s.log[i].run);
        } else if Ends(e, l[i].run) {
          assert l[|s.log|] == e;
        }
      }
    }
  }

  lemma EnterKeeps(s: State, key: string, hash: string, now: real, ttl: real)
    requires Inv(s, now, ttl)
    requires key in s.store.cache ==> now - s.store.cache[key].createdAt < ttl + EVICTION_PERIOD
    ensures Inv(Enter(s, key, hash, now), now, ttl)
  {
    EnterExclusive(s, key, hash, now);
    match Answer(s.store, key, hash)
    case RunHandler =>
      var e, s' := Started(s.next, key, hash, now), Enter(s, key, hash, now);
      StartLog(s, key, hash, now, ttl);
      StoreAppend(s.store, s'.store.inflight, s.log, e, now, ttl);
      AccountedAppend(s, e, s'.running);
    case Replay(response) =>
      var e := Replayed(key, hash, response, now);
      ReplayLog(s, key, hash, now, ttl);
      StoreAppend(s.store, s.store.inflight, s.log, e, now, ttl);
      AccountedAppend(s, e, s.running);
    case Conflict =>
    case InProgress =>
  }

  lemma FinishKeeps(s: State, run: nat, result: Result, now: real, ttl: real)
    requires Inv(s, now, ttl) && ttl >= 0.0 && run in s.running
    ensures Inv(Finish(s, run, result, now), now, ttl)
  {
    FinishExclusive(s, run, result, now);
    var c, s' := s.running[run], Finish(s, run, result, now);
    var e := EndOf(run, c, result, now);
    if e.Stored? {
      StoredAppend(s.store, s'.store.inflight, s.log, run, c.key, Cached(result.response, c.hash, now), now, ttl);
    } else {
      StoreAppend(s.store, s'.store.inflight, s.log, e, now, ttl);
    }
    FaithfulAppend(s.log, e, ttl);
    NoOverlapAppend(s.log, e);
    AtMostOnceAppend(s.log, e, ttl);
    AccountedAppend(s, e, s'.running);
  }

  lemma ArriveKeeps(s: State, key: string, hash: string, now: real, ttl: real)
    requires Inv(s, now, ttl)
    ensures Inv(Enter(Evicted(s, now, ttl), key, hash, now), now, ttl)
  {
    EvictKeeps(s, now, ttl);
    var v := Evicted(s, now, ttl);
    EnterKeeps(v, key, hash, now, ttl);
  }

  lemma ReturnKeeps(s: State, e: Event, ttl: real)
    requires Inv(s, e.now, ttl) && ttl >= 0.0 && e.Return?
    ensures Inv(Step(s, e, ttl), e.now, ttl)
  {
    if e.run in s.running {
      FinishKeeps(s, e.run, e.result, e.now, ttl);
    }
  }

  lemma {:induction false} LaterKeeps(s: State, now: real, later: real, ttl: real)
    requires Inv(s, now, ttl) && now <= later
    ensures Inv(s, later, ttl)
  {
    StoreLater(s.store, s.log, now, later, ttl);
  }

  // Every run of the middleware keeps all of the above.
  lemma {:induction false} AlwaysInv(start: real, events: seq<Event>, ttl: real, now: real)
    requires Monotone(start, events) && ttl >= 0.0
    requires start <= now && (events != [] ==> events[|events| - 1].now <= now)
    ensures Inv(After(start, events, ttl), now, ttl)
  {
    if events != [] {
      var e, front := events[|events| - 1], events[..|events| - 1];
      AlwaysInv(start, front, ttl, e.now);
      if e.Arrive? {
        ArriveKeeps(After(start, front, ttl), e.key, e.hash, e.now, ttl);
      } else {
        ReturnKeeps(After(start, front, ttl), e, ttl);
      }
      LaterKeeps(After(start, events, ttl), e.now, now, ttl);
    }
  }

  // ---------------------------------------------------------------- main results

  // At most once: in every interleaving, no handler starts for a key within ttl of an earlier success with that key.
  lemma AtMostOnce(start: real, events: seq<Event>, ttl: real)
    requires Monotone(start, events) && ttl >= 0.0
    ensures AtMostOncePerTtl(After(start, events, ttl).log, ttl)
    ensures NoOverlap(After(start, events, ttl).log)
  {
    AlwaysInv(start, events, ttl, if events == [] then start else events[|events| - 1].now);
  }

  lemma {:induction false} ExclusiveAlways(start: real, events: seq<Event>, ttl: real)
    requires Monotone(start, events) && ttl >= 0.0
    ensures Exclusive(After(start, events, ttl))
  {
    AlwaysInv(start, events, ttl, if events == [] then start else events[|events| - 1].now);
  }

  lemma ReplaysAreFaithful(start: real, events: seq<Event>, ttl: real)
    requires Monotone(start, events) && ttl >= 0.0
    ensures FaithfulReplays(After(start, events, ttl).log, ttl)
  {
    AlwaysInv(start, events, ttl, if events == [] then start else events[|events| - 1].now);
  }

  lemma {:induction false} SuccessStaysCached(s: Store, log: seq<Entry>, i: nat, now: real, ttl: real)
    requires StoreInv(s, log, now, ttl) && AtMostOncePerTtl(log, ttl) && ttl >= 0.0
    requires i < |log| && log[i].Stored? && now - log[i].at <= ttl
    ensures log[i].key in s.cache && s.cache[log[i].key] == Cached(log[i].response, log[i].hash, log[i].at)
  {
    var key := log[i].key;
    var j :| 0 <= j < |log| && StoredAs(log[j], key, s.cache[key]);
    assert log[j].Stored? && log[j].at <= now;
  }

  // A success within ttl decides every later request with its key: the same request is answered with that
  // response, any other is refused, and none is run.
  lemma CachedSuccessDecides(start: real, events: seq<Event>, ttl: real, i: nat, key: string, hash: string, now: real)
    requires Monotone(start, events) && ttl >= 0.0
    requires start <= now && (events != [] ==> events[|events| - 1].now <= now)
    requires var log := After(start, events, ttl).log;
             i < |log| && log[i].Stored? && log[i].key == key && now - log[i].at <= ttl
    ensures var log := After(start, events, ttl).log;
            var reply := Admit(After(start, events, ttl).store, key, hash, now, ttl).1;
            if hash == log[i].hash
            then reply.Replay? && Replays(reply.response, log[i].response) && 200 <= log[i].response.status <= 299
            else reply == Conflict
  {
    AlwaysInv(start, events, ttl, now);
    var s := After(start, events, ttl);
    SuccessStaysCached(s.store, s.log, i, now, ttl);
    AsReplayReplays(s.log[i].response);
  }

  // A running handler decides every other request with its key: with the same fingerprint it is told that the first is
  // in progress, with another one it is refused as a conflict. Nobody else is told so.
  lemma {:induction false} RunningDecides(
      start: real, events: seq<Event>, ttl: real, key: string, hash: string, now: real)
    requires Monotone(start, events) && ttl >= 0.0
    ensures var s := After(start, events, ttl);
      var reply := Admit(s.store, key, hash, now, ttl).1;
      (forall n :: n in s.running && s.running[n].key == key ==>
        reply == if s.running[n].hash == hash then InProgress else Conflict) &&
      (reply == InProgress ==> exists n :: n in s.running && s.running[n].key == key && s.running[n].hash == hash)
  {
    ExclusiveAlways(start, events, ttl);
    RunningAnswers(After(start, events, ttl), key, hash, now, ttl);
  }

  lemma {:induction false} RunningAnswers(s: State, key: string, hash: string, now: real, ttl: real)
    requires Exclusive(s)
    ensures var reply := Admit(s.store, key, hash, now, ttl).1;
      (forall n :: n in s.running && s.running[n].key == key ==>
        reply == if s.running[n].hash == hash then InProgress else Conflict) &&
      (reply == InProgress ==> exists n :: n in s.running && s.running[n].key == key && s.running[n].hash == hash)
  {
    if key in s.store.inflight {
      var n :| n in s.running && s.running[n].key == key;
      assert s.store.inflight[key] == s.running[n].hash;
    }
  }

  // ---- replays after ttl

  // The documentation promises replays for ttl seconds. In every run, a request that finds an older entry reaches the
  // handler exactly when an eviction is due.
  lemma {:induction false} ExpiredEntryRunsIff(
      start: real, events: seq<Event>, ttl: real, key: string, hash: string, now: real)
    requires Monotone(start, events) && ttl >= 0.0
    requires start <= now && (events != [] ==> events[|events| - 1].now <= now)
    requires var cache := After(start, events, ttl).store.cache; key in cache && now - cache[key].createdAt > ttl
    ensures var s := After(start, events, ttl).store;
            Admit(s, key, hash, now, ttl).1 == RunHandler <==> now - s.lastEviction >= 600.0
  {
    AlwaysInv(start, events, ttl, now);
    assert Exclusive(After(start, events, ttl));
  }

  // Entry j replays entry i, the last one stored for its key.
  ghost predicate ReplaysLast(log: seq<Entry>, i: nat, j: nat) {
    i < j < |log| && log[j].Replayed? && IsReplayOf(log[j], log[i]) &&
    forall k {:trigger log[k].Stored?} :: i < k < j && log[k].Stored? ==> log[k].key != log[j].key
  }

  // Some run replays a response that is this old.
  ghost predicate CanReplayAt(age: real, ttl: real) {
    exists start: real, events: seq<Event>, i: nat, j: nat
        {:trigger ReplaysLast(After(start, events, ttl).log, i, j)} ::
      Monotone(start, events) && ReplaysLast(After(start, events, ttl).log, i, j) &&
      After(start, events, ttl).log[j].at - After(start, events, ttl).log[i].at == age
  }

  // Exactly how old a replayed response can be.
  lemma {:induction false} ReplayAgesIff(age: real, ttl: real)
    requires ttl >= 0.0 && age >= 0.0
    ensures CanReplayAt(age, ttl) <==> age < ttl + 600.0
  {
    if age < ttl + EVICTION_PERIOD {
      ReplayAfterTtl(Response(200, "", None, map[]), age, ttl);
    } else if CanReplayAt(age, ttl) {
      var start: real, events: seq<Event>, i: nat, j: nat :|
        Monotone(start, events) && ReplaysLast(After(start, events, ttl).log, i, j) &&
        After(start, events, ttl).log[j].at - After(start, events, ttl).log[i].at == age;
      AtMostOnce(start, events, ttl);
      ReplaysAreFaithful(start, events, ttl);
      ReplayNotOlder(After(start, events, ttl).log, ttl, i, j);
    }
  }

  lemma {:induction false} ReplayNotOlder(log: seq<Entry>, ttl: real, i: nat, j: nat)
    requires AtMostOncePerTtl(log, ttl) && FaithfulReplays(log, ttl) && ReplaysLast(log, i, j) && ttl >= 0.0
    ensures log[j].at - log[i].at < ttl + EVICTION_PERIOD
  {
    assert log[j].Replayed?;
    var k :| 0 <= k < j && IsReplayOf(log[j], log[k]) && log[j].at - log[k].at < ttl + EVICTION_PERIOD;
    assert log[k].Stored? && log[i].Stored?;
  }

  // For each such age a run: an eviction just before the entry expires keeps the next one away for 600 s.
  lemma {:induction false} ReplayAfterTtl(r: Response, age: real, ttl: real)
    requires Successful(r) && ttl >= 0.0 && 0.0 <= age < ttl + EVICTION_PERIOD
    ensures var events := LateRun(r, age, ttl);
            var log := After(0.0, events, ttl).log;
            Monotone(0.0, events) && ReplaysLast(log, 1, 3) && log[3].at - log[1].at == age
  {
    var e := LateRun(r, age, ttl);
    LateLog(e[0], e[1], e[2], e[3], r, ttl);
    assert e == [e[0], e[1], e[2], e[3]];
  }

  lemma {:induction false} LateLog(a: Event, b: Event, c: Event, d: Event, r: Response, ttl: real)
    requires Successful(r) && a == Arrive("k", "h", 0.0) && b == Return(0, Responded(r), 600.0)
    requires c.Arrive? && c.key == "k" && c.hash == "h" && 600.0 <= c.now <= 600.0 + ttl
    requires d.Arrive? && d.key == "k" && d.hash == "h" && d.now < c.now + EVICTION_PERIOD
    ensures After(0.0, [a, b, c, d], ttl).log ==
      [Started(0, "k", "h", 0.0), Stored(0, "k", "h", r, 600.0), Replayed("k", "h", AsReplay(r), c.now),
       Replayed("k", "h", AsReplay(r), d.now)]
  {
    var cached := Cached(r, "h", 600.0);
    assert [a, b, c, d][..3] == [a, b, c] && [a, b, c][..2] == [a, b];
    LateStored(a, b, r, ttl);
    ReplayStep(After(0.0, [a, b], ttl), "k", "h", cached, c.now, ttl);
    ReplayStep(After(0.0, [a, b, c], ttl), "k", "h", cached, d.now, ttl);
  }

  function LateRun(r: Response, age: real, ttl: real): seq<Event> {
    [Arrive("k", "h", 0.0), Return(0, Responded(r), 600.0), Arrive("k", "h", 600.0 + RealMin(age, ttl)),
     Arrive("k", "h", 600.0 + age)]
  }

  lemma {:induction false} LateStored(a: Event, b: Event, r: Response, ttl: real)
    requires Successful(r) && a == Arrive("k", "h", 0.0) && b == Return(0, Responded(r), 600.0)
    ensures var s := After(0.0, [a, b], ttl);
            s.store == Store(map["k" := Cached(r, "h", 600.0)], map[], 0.0) &&
            s.log == [Started(0, "k", "h", 0.0), Stored(0, "k", "h", r, 600.0)]
  {
    assert [a, b][..1] == [a] && [a][..0] == [];
    var s := State(Store(map[], map["k" := "h"], 0.0), map[0 := Claim("k", "h")], 1, [Started(0, "k", "h", 0.0)]);
    assert After(0.0, [a], ttl) == s;
    assert Finish(s, 0, Responded(r), 600.0).store.inflight == map[];
  }

  // A request for a cached key that the eviction leaves is answered from it.
  lemma {:induction false} ReplayStep(s: State, key: string, hash: string, c: Cached, now: real, ttl: real)
    requires s.store.cache == map[key := c] && c.requestHash == hash
    requires now - s.store.lastEviction < EVICTION_PERIOD || now - c.createdAt <= ttl
    ensures var t := Step(s, Arrive(key, hash, now), ttl);
            t.store.cache == map[key := c] && t.log == s.log + [Replayed(key, hash, AsReplay(c.response), now)] &&
            t.store.lastEviction == if now - s.store.lastEviction < EVICTION_PERIOD then s.store.lastEviction else now
  {
    assert Evict(s.store, now, ttl).cache == map[key := c];
  }
}
