/**
 How the Redis form answers each request: what an arrival gets from the stored response, what a contender gets from
 the lock, and that only the owner of a lock renews it.
 */
module IdempotencyRedisAnswers {
  import opened Common
  import opened Responses
  import opened IdempotencyRedisSpec
  import opened IdempotencyRedisRuns
  import opened IdempotencyRedisLog

  // ---------------------------------------------------------------- arrivals

  // Entry i is the latest success with this key.
  ghost predicate LastSuccess(log: seq<Record>, key: string, i: nat) {
    i < |log| && log[i].Success? && log[i].key == key &&
    forall j {:trigger log[j].Success?} :: i < j < |log| && log[j].Success? ==> log[j].key != key
  }

  // The answer to an arrival that finds the success e not expired.
  ghost predicate AnsweredBy(x: Record, e: Record, i: nat, key: string, hash: string) {
    if e.Success? && e.hash == hash
    then x.Served? && x.key == key && x.hash == hash && x.source == i && Replays(x.response, e.response)
    else x.Refusal? && x.conflict
  }

  // A request goes on past the data key exactly when all successes with its key have expired. Otherwise the latest of
  // them decides: its own fingerprint gets that response, any other is refused as a conflict.
  lemma {:induction false} ArrivalDecided(events: seq<Event>, ttl: real, key: string, hash: string)
    ensures var s, t := After(events, ttl), After(events + [Arrive(key, hash)], ttl);
      |t.log| == |s.log| + 1 && t.log[..|s.log|] == s.log &&
      var x := t.log[|s.log|];
      x.at == s.now &&
      (x.Miss? <==>
        forall i {:trigger s.log[i].Success?} :: 0 <= i < |s.log| && s.log[i].Success? && s.log[i].key == key ==>
          s.log[i].at + ttl <= s.now) &&
      (!x.Miss? ==>
        exists i: nat :: LastSuccess(s.log, key, i) && s.now < s.log[i].at + ttl &&
          AnsweredBy(x, s.log[i], i, key, hash))
  {
    Snoc(events, Arrive(key, hash), ttl);
    AlwaysInv(events, ttl);
    LatestAlways(events, ttl);
    Arrival(After(events, ttl), ttl, key, hash);
  }

  lemma {:induction false} Arrival(s: System, ttl: real, key: string, hash: string)
    requires DataLogged(s, ttl) && LatestStored(s)
    ensures var t := ArriveStep(s, key, hash);
      |t.log| == |s.log| + 1 && t.log[..|s.log|] == s.log &&
      var x := t.log[|s.log|];
      x.at == s.now && (x.Miss? <==> !LiveData(s, key)) &&
      (x.Miss? <==>
        forall i {:trigger s.log[i].Success?} :: 0 <= i < |s.log| && s.log[i].Success? && s.log[i].key == key ==>
          s.log[i].at + ttl <= s.now) &&
      (!x.Miss? ==>
        var i := s.data[key].stored;
          LastSuccess(s.log, key, i) && s.now < s.log[i].at + ttl && AnsweredBy(x, s.log[i], i, key, hash))
  {
    if LiveData(s, key) {
      var d := s.data[key];
      assert DataFrom(s.log, key, d, ttl) && s.log[d.stored].Success?;
      AsReplayReplays(d.response);
    }
  }

  // The data key names the latest success.
  ghost predicate LatestStored(s: System) {
    forall i {:trigger s.log[i].Success?} :: 0 <= i < |s.log| && s.log[i].Success? ==>
      (s.log[i].key in s.data && i <= s.data[s.log[i].key].stored)
  }

  lemma {:induction false} LatestAlways(events: seq<Event>, ttl: real)
    ensures LatestStored(After(events, ttl))
  {
    if events != [] {
      var n := |events| - 1;
      assert events == events[..n] + [events[n]];
      LatestAlways(events[..n], ttl);
      LatestStep(After(events[..n], ttl), events[n], ttl);
    }
  }

  lemma {:induction false} LatestStep(s: System, e: Event, ttl: real)
    requires LatestStored(s)
    ensures LatestStored(Step(s, e, ttl))
  {
    var t := Step(s, e, ttl);
    LogShape(s, e, ttl);
    forall i | 0 <= i < |t.log| && t.log[i].Success?
      ensures t.log[i].key in t.data && i <= t.data[t.log[i].key].stored {
      if i < |s.log| { assert s.log[i].Success?; }
    }
  }

  // A step adds at most one entry, and changes the stored responses only along with a success.
  lemma {:induction false} LogShape(s: System, e: Event, ttl: real)
    ensures var t := Step(s, e, ttl);
      (t.log == s.log && t.data == s.data) ||
      (|t.log| == |s.log| + 1 && t.log[..|s.log|] == s.log &&
       var x := t.log[|s.log|];
       if x.Success? then x.key in t.data && t.data == s.data[x.key := t.data[x.key]] && t.data[x.key].stored == |s.log|
       else t.data == s.data)
  {
  }

  // A success is stored, and a request that repeats it at once is served from it; what is no success leaves the stored
  // responses as they were.
  lemma {:induction false} SuccessIsServed(events: seq<Event>, ttl: real, n: nat, r: Response)
    requires ttl > 0.0 && n < |After(events, ttl).workers| && After(events, ttl).workers[n].phase.Running?
    ensures var s := After(events, ttl);
      var w, stored := s.workers[n], After(events + [HandlerEnds(n, Responded(r)), SetEx(n, true)], ttl);
      if 200 <= r.status <= 299 then
        stored.log == s.log + [Success(n, w.key, w.hash, r, w.started, s.now)] &&
        var x := ArriveStep(stored, w.key, w.hash).log[|s.log| + 1];
        x.Served? && x.source == |s.log| && Replays(x.response, r)
      else stored.log == s.log && stored.data == s.data
  {
    var a, b := HandlerEnds(n, Responded(r)), SetEx(n, true);
    Snoc(events, a, ttl);
    Snoc(events + [a], b, ttl);
    assert events + [a] + [b] == events + [a, b];
    AsReplayReplays(r);
    Stores(After(events, ttl), n, r, ttl);
  }

  lemma {:induction false} Stores(s: System, n: nat, r: Response, ttl: real)
    requires ttl > 0.0 && n < |s.workers| && s.workers[n].phase.Running?
    ensures var w, t := s.workers[n], Step(Step(s, HandlerEnds(n, Responded(r)), ttl), SetEx(n, true), ttl);
      if Successful(r) then
        t.log == s.log + [Success(n, w.key, w.hash, r, w.started, s.now)] &&
        ArriveStep(t, w.key, w.hash).log == t.log + [Served(w.key, w.hash, AsReplay(r), |s.log|, s.now)]
      else t.log == s.log && t.data == s.data
  {
  }

  // ---------------------------------------------------------------- contenders

  // Request m has the lock of this key, not expired.
  predicate HasLock(s: System, m: nat, key: string) {
    m < |s.workers| && s.workers[m].key == key && key in s.locks && s.locks[key].token == m &&
    s.now < s.locks[key].until
  }

  // Every lock was taken by the request it names, for its key and with its fingerprint.
  ghost predicate LocksOwned(s: System) {
    forall k :: k in s.locks ==>
      (s.locks[k].token < |s.workers| && s.workers[s.locks[k].token].key == k &&
       s.workers[s.locks[k].token].hash == s.locks[k].hash)
  }

  lemma {:induction false} OwnedAlways(events: seq<Event>, ttl: real)
    ensures LocksOwned(After(events, ttl))
  {
    if events != [] {
      var n := |events| - 1;
      assert events == events[..n] + [events[n]];
      OwnedAlways(events[..n], ttl);
      OwnedStep(After(events[..n], ttl), events[n], ttl);
    }
  }

  lemma {:induction false} OwnedStep(s: System, e: Event, ttl: real)
    requires LocksOwned(s)
    ensures LocksOwned(Step(s, e, ttl))
  {
    LockShape(s, e, ttl);
    SameRequests(s, e, ttl);
  }

  lemma {:induction false} LockShape(s: System, e: Event, ttl: real)
    ensures forall k :: k in Step(s, e, ttl).locks ==>
      var lock := Step(s, e, ttl).locks[k];
      (k in s.locks && lock.token == s.locks[k].token && lock.hash == s.locks[k].hash) ||
      (lock.token < |s.workers| && s.workers[lock.token].key == k && s.workers[lock.token].hash == lock.hash)
  {
  }

  lemma {:induction false} SameRequests(s: System, e: Event, ttl: real)
    ensures var t := Step(s, e, ttl);
      |s.workers| <= |t.workers| &&
      forall n {:trigger t.workers[n]} :: 0 <= n < |s.workers| ==>
        (t.workers[n].key == s.workers[n].key && t.workers[n].hash == s.workers[n].hash)
  {
    if !e.Arrive? && !e.Tick? && e.worker < |s.workers| { SameRequest(s, e, e.worker, ttl); }
  }

  lemma {:induction false} SameRequest(s: System, e: Event, n: nat, ttl: real)
    ensures n < |s.workers| && !e.Arrive? && !e.Tick? ==>
      var t := WorkerStep(s, e, n, ttl);
        |t.workers| == |s.workers| && t.workers == s.workers[n := t.workers[n]] &&
        t.workers[n].key == s.workers[n].key && t.workers[n].hash == s.workers[n].hash
  {
    if n < |s.workers| { assert s.workers == s.workers[n := s.workers[n]]; }
  }

  // A request takes the lock exactly when no request has it, for at most 300 s unless it is renewed.
  lemma {:induction false} LockTakenIff(events: seq<Event>, ttl: real, n: nat)
    requires n < |After(events, ttl).workers| && After(events, ttl).workers[n].phase.Missed?
    ensures var s, t := After(events, ttl), After(events + [SetNx(n)], ttl);
      var key := s.workers[n].key;
      n < |t.workers| &&
      if exists m: nat :: HasLock(s, m, key) then t.workers[n].phase.Refused? && t.locks == s.locks
      else t.workers[n].phase.Locked? && HasLock(t, n, key) && t.locks[key].until == s.now + 300.0
    ensures forall k :: k in After(events, ttl).locks ==>
        After(events, ttl).locks[k].until <= After(events, ttl).now + 300.0
  {
    Snoc(events, SetNx(n), ttl);
    OwnedAlways(events, ttl);
    BoundedAlways(events, ttl);
    var s := After(events, ttl);
    var key := s.workers[n].key;
    if LiveLock(s, key) { assert HasLock(s, s.locks[key].token, key); }
  }

  // A request that found the lock taken is refused as a conflict exactly when a request with another fingerprint, not
  // empty, has the lock now; otherwise as in progress.
  lemma {:induction false} ContenderDecided(events: seq<Event>, ttl: real, n: nat)
    requires n < |After(events, ttl).workers| && After(events, ttl).workers[n].phase.Refused?
    ensures var s, t := After(events, ttl), After(events + [LookAtLock(n)], ttl);
      |t.log| == |s.log| + 1 && t.log[..|s.log|] == s.log && t.log[|s.log|].Refusal? && t.log[|s.log|].worker == n &&
      (t.log[|s.log|].conflict <==>
        exists m: nat :: HasLock(s, m, s.workers[n].key) && s.workers[m].hash != "" &&
          s.workers[m].hash != s.workers[n].hash)
  {
    Snoc(events, LookAtLock(n), ttl);
    OwnedAlways(events, ttl);
    var s := After(events, ttl);
    var key := s.workers[n].key;
    if LiveLock(s, key) { assert HasLock(s, s.locks[key].token, key); }
  }

  // ---------------------------------------------------------------- renewals

  predicate RenewalOver(s: System, n: nat) {
    n < |s.workers| && s.workers[n].renewal.Stopped? && !s.workers[n].phase.Missed?
  }

  // A renewal task that does not find the lock to be its own never renews a lock again.
  lemma {:induction false} LostLockNotRenewed(events: seq<Event>, more: seq<Event>, ttl: real, n: nat, succeeds: bool)
    requires var s := After(events, ttl);
      n < |s.workers| && s.workers[n].renewal.Asleep? && Renews(s.workers[n]) && !HasLock(s, n, s.workers[n].key)
    ensures var before := After(events + [RenewGet(n)] + more, ttl);
      After(events + [RenewGet(n)] + more + [RenewExpire(n, succeeds)], ttl) == before
  {
    Snoc(events, RenewGet(n), ttl);
    assert RenewalOver(After(events + [RenewGet(n)], ttl), n);
    OverAlways(events + [RenewGet(n)], more, ttl, n);
    Snoc(events + [RenewGet(n)] + more, RenewExpire(n, succeeds), ttl);
  }

  // Nor does one whose EXPIRE failed.
  lemma {:induction false} FailedRenewalEnds(events: seq<Event>, more: seq<Event>, ttl: real, n: nat, succeeds: bool)
    requires var s := After(events, ttl);
      n < |s.workers| && s.workers[n].renewal.Checked? && !s.workers[n].phase.Missed?
    ensures var before := After(events + [RenewExpire(n, false)] + more, ttl);
      After(events + [RenewExpire(n, false)] + more + [RenewExpire(n, succeeds)], ttl) == before
  {
    Snoc(events, RenewExpire(n, false), ttl);
    assert RenewalOver(After(events + [RenewExpire(n, false)], ttl), n);
    OverAlways(events + [RenewExpire(n, false)], more, ttl, n);
    Snoc(events + [RenewExpire(n, false)] + more, RenewExpire(n, succeeds), ttl);
  }

  // A request that was cut off never runs its handler, stores or releases anything: its lock is left to expire.
  lemma {:induction false} AbandonedIsDone(events: seq<Event>, more: seq<Event>, ttl: real, n: nat)
    requires n < |After(events, ttl).workers|
    ensures After(events + [Abandon(n)], ttl).locks == After(events, ttl).locks
    ensures var t := After(events + [Abandon(n)] + more, ttl); n < |t.workers| && t.workers[n].phase.Done?
  {
    Snoc(events, Abandon(n), ttl);
    DoneAlways(events + [Abandon(n)], more, ttl, n);
  }

  predicate IsDone(s: System, n: nat) {
    n < |s.workers| && s.workers[n].phase.Done?
  }

  lemma {:induction false} DoneAlways(events: seq<Event>, more: seq<Event>, ttl: real, n: nat)
    requires IsDone(After(events, ttl), n)
    ensures IsDone(After(events + more, ttl), n)
  {
    if more == [] {
      assert events + more == events;
    } else {
      var k := |more| - 1;
      assert events + more == events + more[..k] + [more[k]];
      DoneAlways(events, more[..k], ttl, n);
      Snoc(events + more[..k], more[k], ttl);
      DoneStep(After(events + more[..k], ttl), more[k], ttl, n);
    }
  }

  lemma {:induction false} DoneStep(s: System, e: Event, ttl: real, n: nat)
    ensures IsDone(s, n) ==> IsDone(Step(s, e, ttl), n)
  {
  }

  lemma {:induction false} OverAlways(events: seq<Event>, more: seq<Event>, ttl: real, n: nat)
    requires RenewalOver(After(events, ttl), n)
    ensures RenewalOver(After(events + more, ttl), n)
  {
    if more == [] {
      assert events + more == events;
    } else {
      var k := |more| - 1;
      assert events + more == events + more[..k] + [more[k]];
      OverAlways(events, more[..k], ttl, n);
      Snoc(events + more[..k], more[k], ttl);
      OverStep(After(events + more[..k], ttl), more[k], ttl, n);
    }
  }

  lemma {:induction false} OverStep(s: System, e: Event, ttl: real, n: nat)
    ensures RenewalOver(s, n) ==> RenewalOver(Step(s, e, ttl), n)
  {
  }
}
