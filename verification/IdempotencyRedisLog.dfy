/**
 The log of the Redis form: where stored responses come from, and which requests can run a handler while a
 response for their key is stored. Nothing here depends on leases.
 */
module IdempotencyRedisLog {
  import opened Common
  import opened Responses
  import opened IdempotencyRedisSpec
  import opened IdempotencyRedisRuns

  // ---------------------------------------------------------------- what the log promises

  // A data key is found absent only when every earlier success with it has expired.
  ghost predicate MissesAfterExpiry(log: seq<Record>, ttl: real) {
    forall i, r {:trigger log[i].Success?, log[r].Miss?} ::
      0 <= i < r < |log| && log[i].Success? && log[r].Miss? && log[i].key == log[r].key ==> log[i].at + ttl <= log[r].at
  }

  // Every started handler belongs to a request that had read the data key, no later.
  predicate ReadFirst(log: seq<Record>, j: nat)
    requires j < |log| && log[j].Start?
  {
    var s := log[j];
    s.read < j && log[s.read].Miss? && log[s.read].worker == s.worker && log[s.read].key == s.key &&
    log[s.read].at <= s.at
  }

  // Every stored success is the 2xx response of a started handler with that key and fingerprint.
  predicate RanFirst(log: seq<Record>, j: nat)
    requires j < |log| && log[j].Success?
  {
    var s := log[j];
    200 <= s.response.status <= 299 && s.started < j && log[s.started].Start? &&
    log[s.started].worker == s.worker && log[s.started].key == s.key && log[s.started].hash == s.hash
  }

  // Every replay repeats a success with that key and fingerprint that has not expired.
  ghost predicate Repeats(log: seq<Record>, j: nat, ttl: real)
    requires j < |log| && log[j].Served?
  {
    var s := log[j];
    s.source < j && log[s.source].Success? && log[s.source].key == s.key && log[s.source].hash == s.hash &&
    Replays(s.response, log[s.source].response) && s.at < log[s.source].at + ttl
  }

  ghost predicate LogSound(log: seq<Record>, ttl: real) {
    MissesAfterExpiry(log, ttl) &&
    (forall j {:trigger log[j].Start?} :: 0 <= j < |log| && log[j].Start? ==> ReadFirst(log, j)) &&
    (forall j {:trigger log[j].Success?} :: 0 <= j < |log| && log[j].Success? ==> RanFirst(log, j)) &&
    (forall j {:trigger log[j].Served?} :: 0 <= j < |log| && log[j].Served? ==> Repeats(log, j, ttl))
  }

  lemma {:induction false} LogAppend(log: seq<Record>, e: Record, ttl: real)
    requires LogSound(log, ttl)
    requires e.Miss? ==> forall i {:trigger log[i].Success?} ::
               0 <= i < |log| && log[i].Success? && log[i].key == e.key ==> log[i].at + ttl <= e.at
    requires e.Start? ==> ReadFirst(log + [e], |log|)
    requires e.Success? ==> RanFirst(log + [e], |log|)
    requires e.Served? ==> Repeats(log + [e], |log|, ttl)
    ensures LogSound(log + [e], ttl)
  {
    var l := log + [e];
    forall j | 0 <= j < |l| && l[j].Start? ensures ReadFirst(l, j) { if j < |log| { assert log[j].Start?; } }
    forall j | 0 <= j < |l| && l[j].Success? ensures RanFirst(l, j) { if j < |log| { assert log[j].Success?; } }
    forall j | 0 <= j < |l| && l[j].Served? ensures Repeats(l, j, ttl) { if j < |log| { assert log[j].Served?; } }
  }

  // ---------------------------------------------------------------- the stored data and the requests

  predicate DataFrom(log: seq<Record>, key: string, d: Data, ttl: real) {
    d.stored < |log| && log[d.stored].Success? && Successful(d.response) &&
    log[d.stored].key == key && log[d.stored].hash == d.hash && log[d.stored].response == d.response &&
    d.until == log[d.stored].at + ttl
  }

  ghost predicate DataLogged(s: System, ttl: real) {
    (forall k :: k in s.data ==> DataFrom(s.log, k, s.data[k], ttl)) &&
    (forall i {:trigger s.log[i].Success?} :: 0 <= i < |s.log| && s.log[i].Success? ==>
      s.log[i].key in s.data && s.log[i].at + ttl <= s.data[s.log[i].key].until) &&
    (forall i :: 0 <= i < |s.log| ==> s.log[i].at <= s.now)
  }

  predicate WorkerLogged(log: seq<Record>, n: nat, w: Worker) {
    w.read < |log| && log[w.read].Miss? && log[w.read].worker == n && log[w.read].key == w.key &&
    (w.phase.Storing? ==> Successful(w.phase.response)) &&
    (w.phase.Running? || w.phase.Storing? ==>
      w.started < |log| && log[w.started].Start? && log[w.started].worker == n &&
      log[w.started].key == w.key && log[w.started].hash == w.hash)
  }

  ghost predicate WorkersLogged(s: System) {
    forall n {:trigger s.workers[n]} :: 0 <= n < |s.workers| ==> WorkerLogged(s.log, n, s.workers[n])
  }

  ghost predicate Inv(s: System, ttl: real) {
    LogSound(s.log, ttl) && DataLogged(s, ttl) && WorkersLogged(s)
  }

  // One request changes phase, or nothing but the locks and the clock does.
  lemma QuietStep(s: System, s': System, ttl: real)
    ensures
      Inv(s, ttl) &&
      s'.log == s.log && s'.data == s.data && s.now <= s'.now && |s'.workers| == |s.workers| &&
      (forall n {:trigger s'.workers[n]} :: 0 <= n < |s.workers| ==> WorkerLogged(s.log, n, s'.workers[n])) ==>
      Inv(s', ttl)
  {
  }

  lemma {:induction false} DataStaysLogged(s: System, e: Record, workers: seq<Worker>, ttl: real)
    requires DataLogged(s, ttl) && !e.Success? && e.at == s.now
    ensures DataLogged(s.(workers := workers, log := s.log + [e]), ttl)
  {
    forall k | k in s.data ensures DataFrom(s.log + [e], k, s.data[k], ttl) {
      assert DataFrom(s.log, k, s.data[k], ttl);
    }
  }

  // A log entry that is not a success, with a change to one request or a new one.
  lemma {:induction false} EntryStep(s: System, e: Record, workers: seq<Worker>, ttl: real)
    requires Inv(s, ttl) && !e.Success? && e.at == s.now && LogSound(s.log + [e], ttl)
    requires forall n {:trigger workers[n]} :: 0 <= n < |workers| ==>
               WorkerLogged(s.log + [e], n, workers[n]) || (n < |s.workers| && workers[n] == s.workers[n])
    ensures Inv(s.(workers := workers, log := s.log + [e]), ttl)
  {
    DataStaysLogged(s, e, workers, ttl);
    forall n | 0 <= n < |workers| ensures WorkerLogged(s.log + [e], n, workers[n]) {
      if n < |s.workers| && workers[n] == s.workers[n] { assert WorkerLogged(s.log, n, s.workers[n]); }
    }
  }

  lemma {:induction false} ArriveLog(s: System, key: string, hash: string, ttl: real)
    requires LogSound(s.log, ttl) && DataLogged(s, ttl)
    ensures LogSound(ArriveStep(s, key, hash).log, ttl)
  {
    LogAppend(s.log, ArriveStep(s, key, hash).log[|s.log|], ttl);
  }

  lemma {:induction false} ArriveWorkers(s: System, key: string, hash: string)
    ensures WorkersLogged(s) ==>
      var s' := ArriveStep(s, key, hash);
        |s.workers| <= |s'.workers| && s'.workers[..|s.workers|] == s.workers &&
        forall n {:trigger s'.workers[n]} :: |s.workers| <= n < |s'.workers| ==> WorkerLogged(s'.log, n, s'.workers[n])
  {
  }

  lemma {:induction false} ArriveKeeps(s: System, key: string, hash: string, ttl: real)
    requires Inv(s, ttl)
    ensures Inv(ArriveStep(s, key, hash), ttl)
  {
    var s' := ArriveStep(s, key, hash);
    ArriveLog(s, key, hash, ttl);
    ArriveWorkers(s, key, hash);
    EntryStep(s, s'.log[|s.log|], s'.workers, ttl);
  }

  // What the SETEX of request n appends to the log.
  function Stored(s: System, n: nat): Record
    requires n < |s.workers| && s.workers[n].phase.Storing?
  {
    var w := s.workers[n];
    Success(n, w.key, w.hash, w.phase.response, w.started, s.now)
  }

  lemma {:induction false} StoreLog(s: System, n: nat, ttl: real)
    requires LogSound(s.log, ttl) && n < |s.workers| && s.workers[n].phase.Storing?
    requires WorkerLogged(s.log, n, s.workers[n])
    ensures LogSound(s.log + [Stored(s, n)], ttl)
  {
    LogAppend(s.log, Stored(s, n), ttl);
  }

  lemma {:induction false} StoreData(s: System, n: nat, ttl: real)
    requires DataLogged(s, ttl) && n < |s.workers| && s.workers[n].phase.Storing? &&
        Successful(s.workers[n].phase.response)
    ensures DataLogged(StoreStep(s, n, s.workers[n].phase.response, ttl), ttl)
  {
    var w, s' := s.workers[n], StoreStep(s, n, s.workers[n].phase.response, ttl);
    forall k | k in s'.data ensures DataFrom(s'.log, k, s'.data[k], ttl) {
      if k != w.key { assert DataFrom(s.log, k, s.data[k], ttl); }
    }
    forall i | 0 <= i < |s'.log| && s'.log[i].Success?
      ensures s'.log[i].key in s'.data && s'.log[i].at + ttl <= s'.data[s'.log[i].key].until
    {
      if i < |s.log| { assert s.log[i].Success?; }
    }
  }

  lemma {:induction false} StoreWorkers(s: System, n: nat, ttl: real)
    requires WorkersLogged(s) && n < |s.workers| && s.workers[n].phase.Storing?
    ensures WorkersLogged(StoreStep(s, n, s.workers[n].phase.response, ttl))
  {
    var s' := StoreStep(s, n, s.workers[n].phase.response, ttl);
    forall m | 0 <= m < |s'.workers| ensures WorkerLogged(s'.log, m, s'.workers[m]) {
      assert WorkerLogged(s.log, m, s.workers[m]);
    }
  }

  lemma {:induction false} StoreKeeps(s: System, n: nat, ttl: real)
    requires Inv(s, ttl) && n < |s.workers| && s.workers[n].phase.Storing?
    ensures Inv(StoreStep(s, n, s.workers[n].phase.response, ttl), ttl)
  {
    assert WorkerLogged(s.log, n, s.workers[n]);
    StoreLog(s, n, ttl);
    StoreData(s, n, ttl);
    StoreWorkers(s, n, ttl);
  }

  lemma {:induction false} StartKeeps(s: System, n: nat, ttl: real)
    requires Inv(s, ttl) && n < |s.workers| && s.workers[n].phase.Locked?
    ensures Inv(WorkerStep(s, CallHandler(n), n, ttl), ttl)
  {
    var s' := WorkerStep(s, CallHandler(n), n, ttl);
    var e := s'.log[|s.log|];
    assert WorkerLogged(s.log, n, s.workers[n]);
    LogAppend(s.log, e, ttl);
    EntryStep(s, e, s'.workers, ttl);
  }

  lemma {:induction false} LookKeeps(s: System, n: nat, ttl: real)
    requires Inv(s, ttl) && n < |s.workers| && s.workers[n].phase.Refused?
    ensures Inv(WorkerStep(s, LookAtLock(n), n, ttl), ttl)
  {
    var s' := WorkerStep(s, LookAtLock(n), n, ttl);
    var e := s'.log[|s.log|];
    assert WorkerLogged(s.log, n, s.workers[n]);
    LogAppend(s.log, e, ttl);
    EntryStep(s, e, s'.workers, ttl);
  }

  predicate Logs(s: System, e: Event)
    requires !e.Arrive? && !e.Tick? && e.worker < |s.workers|
  {
    var phase := s.workers[e.worker].phase;
    (e.CallHandler? && phase.Locked?) || (e.SetEx? && e.succeeds && phase.Storing?) || (e.LookAtLock? && phase.Refused?)
  }

  // A step that logs nothing changes at most the locks and the phase, lease and renewal of its request.
  lemma {:induction false} SilentShape(s: System, e: Event, ttl: real)
    requires !e.Arrive? && !e.Tick? && e.worker < |s.workers| && !Logs(s, e)
    ensures var s' := WorkerStep(s, e, e.worker, ttl);
            var w, w' := s.workers[e.worker], s'.workers[e.worker];
            s' == s.(workers := s.workers[e.worker := w'], locks := s'.locks) &&
            w' == w.(phase := w'.phase, leaseEnd := w'.leaseEnd, renewal := w'.renewal)
  {
    assert s.workers == s.workers[e.worker := s.workers[e.worker]];
  }

  lemma {:induction false} SilentPhase(s: System, e: Event, ttl: real)
    ensures !e.Arrive? && !e.Tick? && e.worker < |s.workers| && !Logs(s, e) ==>
      var p, p' := s.workers[e.worker].phase, WorkerStep(s, e, e.worker, ttl).workers[e.worker].phase;
        (p'.Running? ==> p.Running?) &&
        (p'.Storing? ==> p == p' || (p.Running? && Successful(p'.response)))
  {
  }

  lemma {:induction false} SilentKeeps(s: System, e: Event, ttl: real)
    requires !e.Arrive? && !e.Tick? && e.worker < |s.workers| && !Logs(s, e)
    requires Inv(s, ttl)
    ensures Inv(WorkerStep(s, e, e.worker, ttl), ttl)
  {
    SilentShape(s, e, ttl);
    SilentPhase(s, e, ttl);
    var w' := WorkerStep(s, e, e.worker, ttl).workers[e.worker];
    var s' := s.(workers := s.workers[e.worker := w'], locks := WorkerStep(s, e, e.worker, ttl).locks);
    assert WorkerLogged(s.log, e.worker, s.workers[e.worker]);
    assert WorkerLogged(s.log, e.worker, w');
    QuietStep(s, s', ttl);
  }

  lemma {:induction false} StepKeeps(s: System, e: Event, ttl: real)
    requires Inv(s, ttl)
    ensures Inv(Step(s, e, ttl), ttl)
  {
    if e.Arrive? {
      ArriveKeeps(s, e.key, e.hash, ttl);
    } else if e.Tick? || e.worker >= |s.workers| {
      QuietStep(s, Step(s, e, ttl), ttl);
    } else if !Logs(s, e) {
      SilentKeeps(s, e, ttl);
    } else if e.CallHandler? {
      StartKeeps(s, e.worker, ttl);
    } else if e.SetEx? {
      StoreKeeps(s, e.worker, ttl);
    } else {
      LookKeeps(s, e.worker, ttl);
    }
  }

  lemma {:induction false} AlwaysInv(events: seq<Event>, ttl: real)
    ensures Inv(After(events, ttl), ttl)
  {
    if events != [] {
      AlwaysInv(events[..|events| - 1], ttl);
      StepKeeps(After(events[..|events| - 1], ttl), events[|events| - 1], ttl);
    }
  }

  // ---------------------------------------------------------------- main results

  lemma {:induction false} StartRead(log: seq<Record>, ttl: real, i: nat, j: nat)
    requires LogSound(log, ttl)
    requires i < |log| && j < |log| && log[i].Success? && log[j].Start? && log[i].key == log[j].key
    ensures log[j].read < j && (log[j].read < i || (log[j].read > i && log[i].at + ttl <= log[j].at))
  {
    assert ReadFirst(log, j);
    assert log[log[j].read].Miss?;
  }

  // The re-run condition: a handler that starts while an unexpired success is stored for its key belongs to a
  // request that had read the data key before that success was stored.
  lemma RerunOnlyByEarlierReader(events: seq<Event>, ttl: real, i: nat, j: nat)
    requires var log := After(events, ttl).log;
             i < j < |log| && log[i].Success? && log[j].Start? && log[i].key == log[j].key &&
             log[j].at < log[i].at + ttl
    ensures After(events, ttl).log[j].read < i
  {
    AlwaysInv(events, ttl);
    StartRead(After(events, ttl).log, ttl, i, j);
  }

  // So requests for one key that do not overlap succeed at most once per ttl: if the second read the data key after
  // the first had stored its success, its handler started no sooner than ttl after that.
  lemma NonOverlappingSucceedOncePerTtl(events: seq<Event>, ttl: real, i: nat, j: nat)
    requires var log := After(events, ttl).log;
             i < j < |log| && log[i].Success? && log[j].Success? && log[i].key == log[j].key &&
             log[j].started < |log| && log[log[j].started].Start? && i <= log[log[j].started].read
    ensures var log := After(events, ttl).log;
            log[i].at + ttl <= log[log[j].started].at
  {
    AlwaysInv(events, ttl);
    var log := After(events, ttl).log;
    SuccessRan(log, ttl, j);
    StartRead(log, ttl, i, log[j].started);
  }

  lemma {:induction false} SuccessRan(log: seq<Record>, ttl: real, j: nat)
    requires LogSound(log, ttl) && j < |log| && log[j].Success?
    ensures RanFirst(log, j)
  {
    assert log[j].Success?;
  }

  // Replays are faithful: the same key and fingerprint, a 2xx response of a handler that ran, not yet expired.
  lemma {:induction false} ReplaysAreFaithful(events: seq<Event>, ttl: real, j: nat)
    requires j < |After(events, ttl).log| && After(events, ttl).log[j].Served?
    ensures var log := After(events, ttl).log;
            Repeats(log, j, ttl) && RanFirst(log, log[j].source)
  {
    AlwaysInv(events, ttl);
    var log := After(events, ttl).log;
    assert log[j].Served?;
    SuccessRan(log, ttl, log[j].source);
  }

  // The data key is not read again after the lock is taken, so a success can be re-run although every lease is
  // respected: here request 1 read the data key before request 0 stored its success, and takes the lock after.
  lemma {:induction false} RerunHappens(r: Response, ttl: real)
    requires Successful(r) && ttl > 0.0
    ensures var s := After(RerunEvents(r), ttl);
            RenewedInTime(RerunEvents(r), ttl) &&
            s.log == [Miss(0, "k", 0.0), Miss(1, "k", 0.0), Start(0, "k", "h", 0, 0.0),
                      Success(0, "k", "h", r, 2, 0.0), Start(1, "k", "h", 1, 0.0)] &&
            s.now < s.log[3].at + ttl
  {
    FirstSucceeds(r, ttl);
    var e := FirstRun(r);
    Snoc(e, SetNx(1), ttl);
    Snoc(e + [SetNx(1)], CallHandler(1), ttl);
    assert e + [SetNx(1)] + [CallHandler(1)] == RerunEvents(r);
    NoTickRenewed(RerunEvents(r), ttl);
  }

  lemma {:induction false} NoTickRenewed(events: seq<Event>, ttl: real)
    requires forall i :: 0 <= i < |events| ==> !events[i].Tick?
    ensures RenewedInTime(events, ttl)
  {
    NoTickNoLapse(events, ttl);
    if events != [] { NoTickRenewed(events[..|events| - 1], ttl); }
  }

  function FirstRun(r: Response): seq<Event> {
    [Arrive("k", "h"), Arrive("k", "h"), SetNx(0), CallHandler(0)] +
    [HandlerEnds(0, Responded(r)), SetEx(0, true), ReleaseByScript(0)]
  }

  function RerunEvents(r: Response): seq<Event> {
    FirstRun(r) + [SetNx(1), CallHandler(1)]
  }

  lemma {:induction false} FirstSucceeds(r: Response, ttl: real)
    requires Successful(r)
    ensures var s := After(FirstRun(r), ttl);
            |s.workers| == 2 && s.workers[1] == Worker("k", "h", Missed, Stopped, 0.0, 1, 0) &&
            s.now == 0.0 && s.locks == map[] &&
            s.log == [Miss(0, "k", 0.0), Miss(1, "k", 0.0), Start(0, "k", "h", 0, 0.0), Success(0, "k", "h", r, 2, 0.0)]
  {
    var e := [Arrive("k", "h"), Arrive("k", "h")] + [SetNx(0)] + [CallHandler(0)];
    FirstStarted(ttl);
    Snoc(e, HandlerEnds(0, Responded(r)), ttl);
    Snoc(e + [HandlerEnds(0, Responded(r))], SetEx(0, true), ttl);
    Snoc(e + [HandlerEnds(0, Responded(r))] + [SetEx(0, true)], ReleaseByScript(0), ttl);
    assert e + [HandlerEnds(0, Responded(r))] + [SetEx(0, true)] + [ReleaseByScript(0)] == FirstRun(r);
    FirstStores(After(e, ttl), r, ttl);
  }

  lemma {:induction false} FirstStarted(ttl: real)
    ensures After([Arrive("k", "h"), Arrive("k", "h")] + [SetNx(0)] + [CallHandler(0)], ttl) ==
      System(0.0, map[], map["k" := Lock("h", 0, 300.0)],
             [Worker("k", "h", Running, Asleep, 300.0, 0, 2), Worker("k", "h", Missed, Stopped, 0.0, 1, 0)],
             [Miss(0, "k", 0.0), Miss(1, "k", 0.0), Start(0, "k", "h", 0, 0.0)])
  {
    var e := [Arrive("k", "h"), Arrive("k", "h")];
    TwoMisses(ttl);
    Snoc(e, SetNx(0), ttl);
    Snoc(e + [SetNx(0)], CallHandler(0), ttl);
  }

  lemma {:induction false} FirstStores(s: System, r: Response, ttl: real)
    requires Successful(r)
    requires s == System(0.0, map[], map["k" := Lock("h", 0, 300.0)],
             [Worker("k", "h", Running, Asleep, 300.0, 0, 2), Worker("k", "h", Missed, Stopped, 0.0, 1, 0)],
             [Miss(0, "k", 0.0), Miss(1, "k", 0.0), Start(0, "k", "h", 0, 0.0)])
    ensures var t := Step(Step(s, HandlerEnds(0, Responded(r)), ttl), SetEx(0, true), ttl);
            var u := Step(t, ReleaseByScript(0), ttl);
            |u.workers| == 2 && u.workers[1] == s.workers[1] && u.now == 0.0 && u.locks == map[] &&
            u.log == s.log + [Success(0, "k", "h", r, 2, 0.0)]
  {
    var t := Step(Step(s, HandlerEnds(0, Responded(r)), ttl), SetEx(0, true), ttl);
    assert t.workers[0].phase == Leaving && t.locks == s.locks && t.now == 0.0;
  }

  // While the clock stands still no lease ends.
  lemma {:induction false} NoTickNoLapse(events: seq<Event>, ttl: real)
    requires forall i :: 0 <= i < |events| ==> !events[i].Tick?
    ensures LeasesFull(After(events, ttl)) && After(events, ttl).now == 0.0
  {
    if events != [] {
      var n := |events| - 1;
      NoTickNoLapse(events[..n], ttl);
      NoTickStep(After(events[..n], ttl), events[n], ttl);
    }
  }

  ghost predicate LeasesFull(s: System) {
    forall n {:trigger s.workers[n]} :: 0 <= n < |s.workers| && Holds(s.workers[n]) ==>
        s.workers[n].leaseEnd == s.now + LOCK_TTL
  }

  lemma {:induction false} NoTickStep(s: System, e: Event, ttl: real)
    requires LeasesFull(s) && !e.Tick?
    ensures LeasesFull(Step(s, e, ttl)) && Step(s, e, ttl).now == s.now
  {
    if !e.Arrive? && e.worker < |s.workers| {
      NoTickShape(s, e, e.worker, ttl);
      var s' := WorkerStep(s, e, e.worker, ttl);
      forall n | 0 <= n < |s'.workers| && Holds(s'.workers[n]) ensures s'.workers[n].leaseEnd == s'.now + LOCK_TTL {
        assert Holds(s.workers[n]) ==> s.workers[n].leaseEnd == s.now + LOCK_TTL;
      }
    }
  }

  lemma {:induction false} NoTickShape(s: System, e: Event, n: nat, ttl: real)
    ensures !e.Arrive? && !e.Tick? && n == e.worker < |s.workers| ==>
      var s' := WorkerStep(s, e, n, ttl);
        s'.now == s.now && s'.workers == s.workers[n := s'.workers[n]] &&
        (Holds(s'.workers[n]) && s'.workers[n].leaseEnd != s.now + LOCK_TTL ==>
          Holds(s.workers[n]) && s'.workers[n].leaseEnd == s.workers[n].leaseEnd)
  {
  }
}
