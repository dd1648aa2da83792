/**
 When a stored success can be run again: the exact condition on the state, over every way the run can go on.
 */
module IdempotencyRedisReruns {
  import opened Common
  import opened Responses
  import opened IdempotencyRedisSpec
  import opened IdempotencyRedisRuns
  import opened IdempotencyRedisLog

  // ---------------------------------------------------------------- the condition

  // The request whose token the lock of this key carries has not released it yet.
  predicate OwnerHolds(s: System, key: string) {
    key in s.locks &&
    var n := s.locks[key].token;
    n < |s.workers| && s.workers[n].key == key && Holds(s.workers[n])
  }

  predicate AboutToDelete(w: Worker, key: string) {
    w.key == key && w.phase.Deleting?
  }

  // The lock of this key can come free before time d: it is free or ends in time, or someone can still delete it.
  ghost predicate CanComeFree(s: System, key: string, d: real) {
    !LiveLock(s, key) || s.locks[key].until < d || OwnerHolds(s, key) ||
    exists n :: 0 <= n < |s.workers| && AboutToDelete(s.workers[n], key)
  }

  predicate WaitsFor(w: Worker, key: string) {
    w.key == key && w.phase.Missed?
  }

  predicate HasLocked(w: Worker, key: string) {
    w.key == key && w.phase.Locked?
  }

  // Some request has the lock and is about to call its handler, or has missed the data key and can get the lock.
  ghost predicate RerunReady(s: System, key: string, d: real) {
    (exists n :: 0 <= n < |s.workers| && HasLocked(s.workers[n], key)) ||
    ((exists n :: 0 <= n < |s.workers| && WaitsFor(s.workers[n], key)) && CanComeFree(s, key, d))
  }

  // A handler for this key starts before time d, in the part of the log from this index on.
  ghost predicate StartsBefore(log: seq<Record>, from: nat, key: string, d: real) {
    exists j {:trigger log[j].Start?} :: from <= j < |log| && log[j].Start? && log[j].key == key && log[j].at < d
  }

  // The run can go on so that a handler for this key starts before time d.
  ghost predicate CanRerun(events: seq<Event>, key: string, d: real, ttl: real) {
    exists rest: seq<Event> :: StartsBefore(After(events + rest, ttl).log, |After(events, ttl).log|, key, d)
  }

  // ---------------------------------------------------------------- without it no handler starts

  // The lock stays taken up to d: its owner is gone and nobody is about to delete it.
  ghost predicate StaysTaken(s: System, key: string, d: real) {
    key in s.locks && d <= s.locks[key].until && !OwnerHolds(s, key) &&
    forall n {:trigger s.workers[n]} :: 0 <= n < |s.workers| ==> !AboutToDelete(s.workers[n], key)
  }

  // A response is stored up to d, no request has the lock, and those that want it find it taken.
  ghost predicate Blocked(s: System, key: string, d: real) {
    key in s.data && d <= s.data[key].until &&
    (forall n {:trigger s.workers[n]} :: 0 <= n < |s.workers| ==> !HasLocked(s.workers[n], key)) &&
    ((exists n :: 0 <= n < |s.workers| && WaitsFor(s.workers[n], key)) ==> StaysTaken(s, key, d))
  }

  // What one step of request n leaves of everything but its own key: the other requests, locks and responses.
  lemma {:induction false} OneRequestMoves(s: System, e: Event, n: nat, ttl: real)
    requires !e.Arrive? && !e.Tick? && n == e.worker < |s.workers|
    ensures var t, k := WorkerStep(s, e, n, ttl), s.workers[n].key;
      t.now == s.now && t.workers == s.workers[n := t.workers[n]] && t.workers[n].key == k &&
      (forall key :: key != k ==>
        (key in t.locks <==> key in s.locks) && (key in s.locks ==> t.locks[key] == s.locks[key])) &&
      (forall key :: key != k ==> (key in t.data <==> key in s.data) && (key in s.data ==> t.data[key] == s.data[key]))
  {
    assert s.workers == s.workers[n := s.workers[n]];
  }

  lemma {:induction false} OtherKeyStaysBlocked(s: System, e: Event, n: nat, key: string, d: real, ttl: real)
    requires Blocked(s, key, d) && !e.Arrive? && !e.Tick? && n == e.worker < |s.workers| && s.workers[n].key != key
    ensures Blocked(WorkerStep(s, e, n, ttl), key, d)
  {
    var t := WorkerStep(s, e, n, ttl);
    OneRequestMoves(s, e, n, ttl);
    forall m | 0 <= m < |t.workers| ensures !HasLocked(t.workers[m], key) {
      assert m == n || t.workers[m] == s.workers[m];
    }
    if m :| 0 <= m < |t.workers| && WaitsFor(t.workers[m], key) {
      assert WaitsFor(s.workers[m], key);
      forall i | 0 <= i < |t.workers| ensures !AboutToDelete(t.workers[i], key) {
        assert i == n || t.workers[i] == s.workers[i];
      }
    }
  }

  // The step of a request on the blocked key, by itself: it waits only if it did before, and neither gets the lock
  // nor frees it.
  lemma {:induction false} OwnPhase(s: System, e: Event, n: nat, ttl: real)
    ensures !e.Arrive? && !e.Tick? && n == e.worker < |s.workers| ==>
      var w, w', lock := s.workers[n], WorkerStep(s, e, n, ttl).workers[n], s.workers[n].key;
        (w'.phase.Missed? ==> w.phase.Missed?) && (Holds(w') ==> Holds(w) || w.phase.Missed?) &&
        (w'.phase.Locked? ==> w.phase.Locked? || (w.phase.Missed? && !LiveLock(s, lock))) &&
        (w'.phase.Deleting? ==> w.phase.Deleting? || (Holds(w) && LiveLock(s, lock) && s.locks[lock].token == n))
  {
  }

  lemma {:induction false} OwnLock(s: System, e: Event, n: nat, ttl: real)
    ensures
      !e.Arrive? && !e.Tick? && n == e.worker < |s.workers| &&
      (var w := s.workers[n];
        LiveLock(s, w.key) && !w.phase.Deleting? && (Holds(w) ==> s.locks[w.key].token != n)) ==>
      var t, key := WorkerStep(s, e, n, ttl), s.workers[n].key;
        key in t.locks && t.locks[key].token == s.locks[key].token &&
        (t.locks[key].until == s.locks[key].until || t.locks[key].until == s.now + LOCK_TTL)
  {
  }

  lemma {:induction false} OwnData(s: System, e: Event, n: nat, ttl: real)
    ensures !e.Arrive? && !e.Tick? && n == e.worker < |s.workers| && s.workers[n].key in s.data ==>
      var t, key := WorkerStep(s, e, n, ttl), s.workers[n].key;
        key in t.data && (t.data[key] == s.data[key] || t.data[key].until == s.now + ttl)
  {
  }

  lemma {:induction false} OwnKeyStaysBlocked(s: System, e: Event, n: nat, d: real, ttl: real)
    requires !e.Arrive? && !e.Tick? && n == e.worker < |s.workers|
    requires Blocked(s, s.workers[n].key, d) && LeasesBounded(s) && s.now < d <= s.now + ttl
    ensures Blocked(WorkerStep(s, e, n, ttl), s.workers[n].key, d)
  {
    var t, key := WorkerStep(s, e, n, ttl), s.workers[n].key;
    OneRequestMoves(s, e, n, ttl);
    OwnPhase(s, e, n, ttl);
    OwnData(s, e, n, ttl);
    forall m | 0 <= m < |t.workers| ensures !HasLocked(t.workers[m], key) {
      assert !HasLocked(s.workers[m], key);
      if m == n { assert WaitsFor(s.workers[n], key) ==> StaysTaken(s, key, d); }
    }
    if m :| 0 <= m < |t.workers| && WaitsFor(t.workers[m], key) {
      assert WaitsFor(s.workers[m], key);
      TakenStaysTaken(s, e, n, d, ttl);
    }
  }

  lemma {:induction false} TakenStaysTaken(s: System, e: Event, n: nat, d: real, ttl: real)
    requires !e.Arrive? && !e.Tick? && n == e.worker < |s.workers|
    requires StaysTaken(s, s.workers[n].key, d) && LeasesBounded(s) && s.now < d
    requires !s.workers[n].phase.Locked?
    ensures StaysTaken(WorkerStep(s, e, n, ttl), s.workers[n].key, d)
  {
    var t, key := WorkerStep(s, e, n, ttl), s.workers[n].key;
    assert !AboutToDelete(s.workers[n], key);
    OneRequestMoves(s, e, n, ttl);
    OwnPhase(s, e, n, ttl);
    OwnLock(s, e, n, ttl);
    forall i | 0 <= i < |t.workers| ensures !AboutToDelete(t.workers[i], key) {
      assert !AboutToDelete(s.workers[i], key);
    }
  }

  lemma {:induction false} ArrivalStaysBlocked(s: System, k: string, hash: string, key: string, d: real)
    requires Blocked(s, key, d) && s.now < d
    ensures Blocked(ArriveStep(s, k, hash), key, d)
  {
    var t := ArriveStep(s, k, hash);
    assert k == key ==> LiveData(s, key);
    assert forall m :: 0 <= m < |t.workers| && t.workers[m].key == key ==>
        m < |s.workers| && t.workers[m] == s.workers[m];
    if m :| 0 <= m < |t.workers| && WaitsFor(t.workers[m], key) {
      assert WaitsFor(s.workers[m], key);
    }
  }

  lemma {:induction false} StepStaysBlocked(s: System, e: Event, key: string, d: real, ttl: real)
    requires Blocked(s, key, d) && LeasesBounded(s) && s.now < d <= s.now + ttl
    ensures Blocked(Step(s, e, ttl), key, d) || Step(s, e, ttl).now >= d
  {
    if e.Arrive? {
      ArrivalStaysBlocked(s, e.key, e.hash, key, d);
    } else if e.Tick? || e.worker >= |s.workers| {
      QuietStaysBlocked(s, Step(s, e, ttl), key, d);
    } else if s.workers[e.worker].key == key {
      OwnKeyStaysBlocked(s, e, e.worker, d, ttl);
    } else {
      OtherKeyStaysBlocked(s, e, e.worker, key, d, ttl);
    }
  }

  lemma {:induction false} QuietStaysBlocked(s: System, t: System, key: string, d: real)
    ensures Blocked(s, key, d) && t.data == s.data && t.locks == s.locks && t.workers == s.workers ==>
      Blocked(t, key, d)
  {
  }

  // A step logs at most one record, dated now; only a request that has the lock logs a start.
  lemma {:induction false} StepLogs(s: System, e: Event, key: string, ttl: real)
    ensures var log := Step(s, e, ttl).log;
      log == s.log ||
      (|log| == |s.log| + 1 && log[..|s.log|] == s.log && log[|s.log|].at == s.now &&
       (log[|s.log|].Start? && log[|s.log|].key == key ==>
         exists n :: 0 <= n < |s.workers| && HasLocked(s.workers[n], key)))
  {
    if !e.Arrive? && !e.Tick? && e.worker < |s.workers| && e.CallHandler? && s.workers[e.worker].phase.Locked? {
      assert s.workers[e.worker].key == key ==> HasLocked(s.workers[e.worker], key);
    }
  }

  lemma {:induction false} TimePasses(s: System, e: Event, ttl: real)
    ensures Step(s, e, ttl).now >= s.now
  {
  }

  // However a blocked run goes on, no handler for the key starts in time.
  lemma {:induction false} BlockedRun(events: seq<Event>, rest: seq<Event>, key: string, d: real, ttl: real)
    requires var s := After(events, ttl); Blocked(s, key, d) && s.now < d <= s.now + ttl
    ensures var s, t := After(events, ttl), After(events + rest, ttl);
      (Blocked(t, key, d) || t.now >= d) && t.now >= s.now && |s.log| <= |t.log| &&
      !StartsBefore(t.log, |s.log|, key, d)
    decreases |rest|
  {
    if rest == [] {
      assert events + rest == events;
    } else {
      var n := |rest| - 1;
      var e, t := rest[n], After(events + rest[..n], ttl);
      BlockedRun(events, rest[..n], key, d, ttl);
      assert events + rest == (events + rest[..n]) + [e];
      Snoc(events + rest[..n], e, ttl);
      TimePasses(t, e, ttl);
      if t.now < d {
        BoundedAlways(events + rest[..n], ttl);
        StepStaysBlocked(t, e, key, d, ttl);
      }
      StepLogs(t, e, key, ttl);
      NoneStarts(t.log, Step(t, e, ttl).log, |After(events, ttl).log|, key, d);
    }
  }

  lemma {:induction false} NoneStarts(log: seq<Record>, longer: seq<Record>, from: nat, key: string, d: real)
    requires from <= |log| && !StartsBefore(log, from, key, d)
    requires longer == log ||
      (|longer| == |log| + 1 && longer[..|log|] == log &&
       (longer[|log|].Start? && longer[|log|].key == key ==> longer[|log|].at >= d))
    ensures !StartsBefore(longer, from, key, d)
  {
    forall j | from <= j < |longer| ensures !(longer[j].Start? && longer[j].key == key && longer[j].at < d) {
      if j < |log| { assert longer[..|log|][j] == log[j]; }
    }
  }

  // ---------------------------------------------------------------- with it one can

  function Run(s: System, es: seq<Event>, ttl: real): System
    decreases |es|
  {
    if es == [] then s else Run(Step(s, es[0], ttl), es[1..], ttl)
  }

  lemma {:induction false} RunFromReachable(events: seq<Event>, rest: seq<Event>, ttl: real)
    ensures After(events + rest, ttl) == Run(After(events, ttl), rest, ttl)
    decreases |rest|
  {
    if rest == [] {
      assert events + rest == events;
    } else {
      assert events + rest == (events + [rest[0]]) + rest[1..];
      Snoc(events, rest[0], ttl);
      RunFromReachable(events + [rest[0]], rest[1..], ttl);
    }
  }

  lemma {:induction false} RunJoin(s: System, a: seq<Event>, b: seq<Event>, ttl: real)
    ensures Run(s, a + b, ttl) == Run(Run(s, a, ttl), b, ttl)
    decreases |a|
  {
    if a == [] {
      assert a + b == b;
    } else {
      assert (a + b)[1..] == a[1..] + b;
      RunJoin(Step(s, a[0], ttl), a[1..], b, ttl);
    }
  }

  lemma {:induction false} RunOne(s: System, e: Event, ttl: real)
    ensures Run(s, [e], ttl) == Step(s, e, ttl)
  {
    assert [e][1..] == [];
  }

  lemma {:induction false} RunTwo(s: System, e: Event, f: Event, ttl: real)
    ensures Run(s, [e, f], ttl) == Step(Step(s, e, ttl), f, ttl)
  {
    assert [e, f] == [e] + [f];
    RunJoin(s, [e], [f], ttl);
    RunOne(s, e, ttl);
    RunOne(Step(s, e, ttl), f, ttl);
  }

  // t is s with the lock free and request n still waiting, before time d.
  predicate Freed(s: System, t: System, n: nat, key: string, d: real)
    requires n < |s.workers|
  {
    t.now < d && !LiveLock(t, key) && n < |t.workers| && t.workers[n] == s.workers[n] && t.log == s.log
  }

  // The owner of the lock gives it up.
  lemma {:induction false} OwnerReleases(s: System, n: nat, key: string, d: real, ttl: real) returns (es: seq<Event>)
    requires n < |s.workers| && WaitsFor(s.workers[n], key) && s.now < d
    requires OwnerHolds(s, key) && LiveLock(s, key) && !s.workers[s.locks[key].token].phase.Locked?
    ensures Freed(s, Run(s, es, ttl), n, key, d)
  {
    var m := s.locks[key].token;
    match s.workers[m].phase
    case Deleting =>
      es := [ReleaseDelete(m)];
      RunOne(s, es[0], ttl);
    case Leaving =>
      es := [ReleaseByScript(m)];
      RunOne(s, es[0], ttl);
    case Running =>
      es := [HandlerEnds(m, Raised), ReleaseByScript(m)];
      RunTwo(s, es[0], es[1], ttl);
    case Storing(_) =>
      es := [SetEx(m, false), ReleaseByScript(m)];
      RunTwo(s, es[0], es[1], ttl);
  }

  lemma {:induction false} LockFreed(s: System, n: nat, key: string, d: real, ttl: real) returns (es: seq<Event>)
    requires n < |s.workers| && WaitsFor(s.workers[n], key) && CanComeFree(s, key, d) && s.now < d
    requires forall m {:trigger s.workers[m]} :: 0 <= m < |s.workers| ==> !HasLocked(s.workers[m], key)
    ensures Freed(s, Run(s, es, ttl), n, key, d)
  {
    if !LiveLock(s, key) {
      es := [];
    } else if s.locks[key].until < d {
      es := [Tick(s.locks[key].until - s.now)];
      RunOne(s, es[0], ttl);
    } else if OwnerHolds(s, key) {
      assert !HasLocked(s.workers[s.locks[key].token], key);
      es := OwnerReleases(s, n, key, d, ttl);
    } else {
      var m :| 0 <= m < |s.workers| && AboutToDelete(s.workers[m], key);
      es := [ReleaseDelete(m)];
      RunOne(s, es[0], ttl);
    }
  }

  lemma {:induction false} LockedStarts(s: System, n: nat, key: string, d: real, ttl: real)
    requires n < |s.workers| && HasLocked(s.workers[n], key) && s.now < d
    ensures StartsBefore(Run(s, [CallHandler(n)], ttl).log, |s.log|, key, d)
  {
    RunOne(s, CallHandler(n), ttl);
    assert Step(s, CallHandler(n), ttl).log[|s.log|].Start?;
  }

  lemma {:induction false} WaiterStarts(s: System, n: nat, key: string, d: real, ttl: real)
    requires n < |s.workers| && WaitsFor(s.workers[n], key) && !LiveLock(s, key) && s.now < d
    ensures StartsBefore(Run(s, [SetNx(n), CallHandler(n)], ttl).log, |s.log|, key, d)
  {
    RunTwo(s, SetNx(n), CallHandler(n), ttl);
    var t := Step(s, SetNx(n), ttl);
    assert t.workers[n].phase == Locked && t.log == s.log;
    assert Step(t, CallHandler(n), ttl).log[|s.log|].Start?;
  }

  lemma {:induction false} ReadyReruns(s: System, key: string, d: real, ttl: real) returns (es: seq<Event>)
    requires RerunReady(s, key, d) && s.now < d
    ensures StartsBefore(Run(s, es, ttl).log, |s.log|, key, d)
  {
    if n :| 0 <= n < |s.workers| && HasLocked(s.workers[n], key) {
      es := [CallHandler(n)];
      LockedStarts(s, n, key, d, ttl);
    } else {
      var n :| 0 <= n < |s.workers| && WaitsFor(s.workers[n], key);
      var frees := LockFreed(s, n, key, d, ttl);
      WaiterStarts(Run(s, frees, ttl), n, key, d, ttl);
      RunJoin(s, frees, [SetNx(n), CallHandler(n)], ttl);
      es := frees + [SetNx(n), CallHandler(n)];
    }
  }

  lemma {:induction false} ReadyCanRerun(events: seq<Event>, key: string, d: real, ttl: real)
    requires RerunReady(After(events, ttl), key, d) && After(events, ttl).now < d
    ensures CanRerun(events, key, d, ttl)
  {
    var rest := ReadyReruns(After(events, ttl), key, d, ttl);
    RunFromReachable(events, rest, ttl);
  }

  lemma {:induction false} BlockedCannotRerun(events: seq<Event>, key: string, d: real, ttl: real)
    requires var s := After(events, ttl); Blocked(s, key, d) && s.now < d <= s.now + ttl
    ensures !CanRerun(events, key, d, ttl)
  {
    forall rest: seq<Event> ensures !StartsBefore(After(events + rest, ttl).log, |After(events, ttl).log|, key, d) {
      BlockedRun(events, rest, key, d, ttl);
    }
  }

  lemma {:induction false} UnreadyIsBlocked(s: System, i: nat, ttl: real)
    requires DataLogged(s, ttl) && i < |s.log| && s.log[i].Success? && s.now < s.log[i].at + ttl
    requires !RerunReady(s, s.log[i].key, s.log[i].at + ttl)
    ensures Blocked(s, s.log[i].key, s.log[i].at + ttl) && s.log[i].at <= s.now
  {
    var key, d := s.log[i].key, s.log[i].at + ttl;
    assert s.log[i].Success? && d <= s.data[key].until;
    if m :| 0 <= m < |s.workers| && WaitsFor(s.workers[m], key) {
      assert !CanComeFree(s, key, d);
    }
  }

  // ---------------------------------------------------------------- main result

  // While a success is unexpired, a handler for its key can start again before it expires if and only if some request
  // already has the lock, or has missed the data key and the lock can come free in time.
  lemma {:induction false} RerunIff(events: seq<Event>, i: nat, ttl: real)
    requires var s := After(events, ttl); i < |s.log| && s.log[i].Success? && s.now < s.log[i].at + ttl
    ensures var s := After(events, ttl);
      var key, d := s.log[i].key, s.log[i].at + ttl;
      CanRerun(events, key, d, ttl) <==> RerunReady(s, key, d)
  {
    var s := After(events, ttl);
    var key, d := s.log[i].key, s.log[i].at + ttl;
    if RerunReady(s, key, d) {
      ReadyCanRerun(events, key, d, ttl);
    } else {
      AlwaysInv(events, ttl);
      UnreadyIsBlocked(s, i, ttl);
      BlockedCannotRerun(events, key, d, ttl);
    }
  }
}
