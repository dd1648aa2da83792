/**
 What every interleaving of the Redis form keeps: leases that exclude each other, and a log in which a success
 is re-run only by a request that had read the data key before it was stored.
 */
module IdempotencyRedisRuns {
  import opened Common
  import opened Responses
  import opened IdempotencyRedisSpec

  // ---------------------------------------------------------------- leases

  predicate LiveLease(s: System, n: nat)
    requires n < |s.workers|
  {
    Holds(s.workers[n]) && s.now < s.workers[n].leaseEnd
  }

  // A request inside its lease owns the lock of its key.
  ghost predicate LeasesHeld(s: System) {
    forall n {:trigger s.workers[n]} :: 0 <= n < |s.workers| && LiveLease(s, n) ==>
      var w := s.workers[n];
      w.key in s.locks && s.locks[w.key].token == n && w.leaseEnd <= s.locks[w.key].until
  }

  ghost predicate LeasesBounded(s: System) {
    (forall n {:trigger s.workers[n]} :: 0 <= n < |s.workers| ==> s.workers[n].leaseEnd <= s.now + LOCK_TTL) &&
    (forall k :: k in s.locks ==> s.locks[k].until <= s.now + LOCK_TTL)
  }

  predicate Deletes(s: System, e: Event) {
    e.ReleaseDelete? && e.worker < |s.workers| && s.workers[e.worker].phase.Deleting?
  }

  // A fallback DELETE comes before the lease of its request has ended.
  predicate TimelyDelete(s: System, e: Event) {
    Deletes(s, e) ==> s.now < s.workers[e.worker].leaseEnd
  }

  // A fallback DELETE finds no other request inside its lease for that key.
  ghost predicate HarmlessDelete(s: System, e: Event) {
    Deletes(s, e) ==>
      forall m {:trigger s.workers[m]} :: 0 <= m < |s.workers| && m != e.worker && LiveLease(s, m) ==>
        s.workers[m].key != s.workers[e.worker].key
  }

  // Steps that leave locks, clock and leases alone and let nobody newly hold a lock.
  lemma {:induction false} QuietLeaseStep(s: System, s': System)
    requires LeasesHeld(s) && LeasesBounded(s)
    requires s'.now == s.now && s'.locks == s.locks && |s.workers| <= |s'.workers|
    requires forall n {:trigger s'.workers[n]} :: 0 <= n < |s.workers| ==>
               s'.workers[n].key == s.workers[n].key && s'.workers[n].leaseEnd == s.workers[n].leaseEnd &&
               (Holds(s'.workers[n]) ==> Holds(s.workers[n]))
    requires forall n {:trigger s'.workers[n]} :: |s.workers| <= n < |s'.workers| ==>
               !Holds(s'.workers[n]) && s'.workers[n].leaseEnd <= s.now
    ensures LeasesHeld(s') && LeasesBounded(s')
  {
    forall n | 0 <= n < |s'.workers| && LiveLease(s', n)
      ensures var w := s'.workers[n];
              w.key in s'.locks && s'.locks[w.key].token == n && w.leaseEnd <= s'.locks[w.key].until
    {
      assert LiveLease(s, n) && s.workers[n].key == s'.workers[n].key;
    }
    forall n | 0 <= n < |s'.workers| ensures s'.workers[n].leaseEnd <= s'.now + LOCK_TTL {
      if n < |s.workers| { assert s.workers[n].leaseEnd == s'.workers[n].leaseEnd; }
    }
  }

  lemma {:induction false} TakeLeaseStep(s: System, n: nat, ttl: real)
    requires LeasesHeld(s) && LeasesBounded(s) && n < |s.workers| && s.workers[n].phase.Missed?
    requires !LiveLock(s, s.workers[n].key)
    ensures LeasesHeld(Step(s, SetNx(n), ttl)) && LeasesBounded(Step(s, SetNx(n), ttl))
  {
    var s' := Step(s, SetNx(n), ttl);
    forall m | 0 <= m < |s'.workers| && LiveLease(s', m)
      ensures var w := s'.workers[m];
              w.key in s'.locks && s'.locks[w.key].token == m && w.leaseEnd <= s'.locks[w.key].until
    {
      if m != n { assert LiveLease(s, m) && s.workers[m].key != s.workers[n].key; }
    }
  }

  lemma {:induction false} RenewLeaseStep(s: System, n: nat, ttl: real)
    requires LeasesHeld(s) && LeasesBounded(s) && n < |s.workers| && s.workers[n].renewal.Checked?
    ensures LeasesHeld(Step(s, RenewExpire(n, true), ttl)) && LeasesBounded(Step(s, RenewExpire(n, true), ttl))
  {
    var s' := Step(s, RenewExpire(n, true), ttl);
    forall m | 0 <= m < |s'.workers| && LiveLease(s', m)
      ensures var w := s'.workers[m];
              w.key in s'.locks && s'.locks[w.key].token == m && w.leaseEnd <= s'.locks[w.key].until
    {
      assert LiveLease(s, m) && s.workers[m].leaseEnd <= s.now + LOCK_TTL;
    }
  }

  // Request n stops holding, and the lock of its key goes away, of which nobody else is inside the lease.
  lemma {:induction false} ReleaseLeaseStep(s: System, n: nat, s': System)
    requires LeasesHeld(s) && LeasesBounded(s) && n < |s.workers|
    requires s' == Update(s, n, s.workers[n].(phase := Done)).(locks := s.locks - {s.workers[n].key})
    requires forall m {:trigger s.workers[m]} :: 0 <= m < |s.workers| && m != n && LiveLease(s, m) ==>
               s.workers[m].key != s.workers[n].key
    ensures LeasesHeld(s') && LeasesBounded(s')
  {
    forall m | 0 <= m < |s'.workers| && LiveLease(s', m)
      ensures var w := s'.workers[m];
              w.key in s'.locks && s'.locks[w.key].token == m && w.leaseEnd <= s'.locks[w.key].until
    {
      assert m != n && LiveLease(s, m) && s.workers[m] == s'.workers[m];
    }
  }

  // Whoever owns the lock is the only one inside a lease of its key.
  lemma {:induction false} OwnerAlone(s: System, n: nat)
    ensures
      LeasesHeld(s) && n < |s.workers| &&
      (s.workers[n].key in s.locks ==> s.locks[s.workers[n].key].token == n) ==>
      forall m {:trigger s.workers[m]} :: 0 <= m < |s.workers| && m != n && LiveLease(s, m) ==>
        s.workers[m].key != s.workers[n].key
  {
  }

  lemma {:induction false} TimelyIsHarmless(s: System, e: Event)
    requires LeasesHeld(s) && TimelyDelete(s, e)
    ensures HarmlessDelete(s, e)
  {
    if Deletes(s, e) {
      assert LiveLease(s, e.worker);
      OwnerAlone(s, e.worker);
    }
  }

  // The exact condition for a fallback DELETE, timely or late: it leaves every request inside its lease the owner of
  // its lock if and only if no other request is inside its lease for that key.
  lemma {:induction false} DeleteKeepsLeasesIff(s: System, e: Event, ttl: real)
    requires LeasesHeld(s) && LeasesBounded(s) && Deletes(s, e)
    ensures LeasesHeld(Step(s, e, ttl)) <==> HarmlessDelete(s, e)
  {
    var s' := Step(s, e, ttl);
    if HarmlessDelete(s, e) {
      ReleaseLeaseStep(s, e.worker, s');
    } else {
      var m :| 0 <= m < |s.workers| && m != e.worker && LiveLease(s, m) && s.workers[m].key == s.workers[e.worker].key;
      assert s'.workers[m] == s.workers[m] && LiveLease(s', m);
    }
  }

  lemma {:induction false} LeaseStep(s: System, e: Event, ttl: real)
    requires LeasesHeld(s) && LeasesBounded(s) && HarmlessDelete(s, e)
    ensures LeasesHeld(Step(s, e, ttl)) && LeasesBounded(Step(s, e, ttl))
  {
    if e.Tick? {
      TickLeaseStep(s, e, ttl);
    } else if !e.Arrive? && e.worker < |s.workers| {
      WorkerLeaseStep(s, e, e.worker, ttl);
    } else {
      QuietLeaseStep(s, Step(s, e, ttl));
    }
  }

  lemma {:induction false} WorkerLeaseStep(s: System, e: Event, n: nat, ttl: real)
    requires LeasesHeld(s) && LeasesBounded(s) && HarmlessDelete(s, e)
    requires !e.Arrive? && !e.Tick? && n == e.worker < |s.workers|
    ensures LeasesHeld(Step(s, e, ttl)) && LeasesBounded(Step(s, e, ttl))
  {
    var w := s.workers[n];
    if e.SetNx? && w.phase.Missed? && !LiveLock(s, w.key) {
      TakeLeaseStep(s, n, ttl);
    } else if e.RenewExpire? && e.succeeds && w.renewal.Checked? {
      RenewLeaseStep(s, n, ttl);
    } else if e.ReleaseByScript? && w.phase.Leaving? && LiveLock(s, w.key) && s.locks[w.key].token == n {
      OwnerAlone(s, n);
      ReleaseLeaseStep(s, n, Step(s, e, ttl));
    } else if e.ReleaseDelete? && w.phase.Deleting? {
      ReleaseLeaseStep(s, n, Step(s, e, ttl));
    } else {
      QuietWorkerShape(s, e, n, ttl);
      QuietLeaseStep(s, Step(s, e, ttl));
    }
  }

  // Every other step of a request leaves the locks, the clock and the leases alone.
  lemma QuietWorkerShape(s: System, e: Event, n: nat, ttl: real)
    ensures
      !e.Arrive? && !e.Tick? && n == e.worker < |s.workers| &&
      (var w := s.workers[n];
        !(e.SetNx? && w.phase.Missed? && !LiveLock(s, w.key)) &&
        !(e.RenewExpire? && e.succeeds && w.renewal.Checked?) &&
        !(e.ReleaseByScript? && w.phase.Leaving? && LiveLock(s, w.key) && s.locks[w.key].token == n) &&
        !(e.ReleaseDelete? && w.phase.Deleting?)) ==>
      var s' := Step(s, e, ttl);
        s'.now == s.now && s'.locks == s.locks && |s'.workers| == |s.workers| &&
        s'.workers == s.workers[n := s'.workers[n]] && s'.workers[n].key == s.workers[n].key &&
        s'.workers[n].leaseEnd == s.workers[n].leaseEnd && (Holds(s'.workers[n]) ==> Holds(s.workers[n]))
  {
  }

  lemma {:induction false} TickLeaseStep(s: System, e: Event, ttl: real)
    requires LeasesHeld(s) && LeasesBounded(s) && e.Tick?
    ensures LeasesHeld(Step(s, e, ttl)) && LeasesBounded(Step(s, e, ttl))
  {
    var s' := Step(s, e, ttl);
    forall n | 0 <= n < |s'.workers| && LiveLease(s', n) ensures LiveLease(s, n) {
    }
  }

  // Every fallback DELETE of a run is harmless; every one is timely.
  ghost predicate DeletesHarmless(events: seq<Event>, ttl: real) {
    events == [] ||
    var front := events[..|events| - 1];
    DeletesHarmless(front, ttl) && HarmlessDelete(After(front, ttl), events[|events| - 1])
  }

  predicate DeletesTimely(events: seq<Event>, ttl: real) {
    events == [] ||
    var front := events[..|events| - 1];
    DeletesTimely(front, ttl) && TimelyDelete(After(front, ttl), events[|events| - 1])
  }

  lemma {:induction false} LeasesAlways(events: seq<Event>, ttl: real)
    requires DeletesHarmless(events, ttl)
    ensures LeasesHeld(After(events, ttl)) && LeasesBounded(After(events, ttl))
  {
    if events != [] {
      var n := |events| - 1;
      LeasesAlways(events[..n], ttl);
      LeaseStep(After(events[..n], ttl), events[n], ttl);
    }
  }

  // Deletes that each come before their own lease has ended are all harmless.
  lemma {:induction false} TimelyDeletesAreHarmless(events: seq<Event>, ttl: real)
    requires DeletesTimely(events, ttl)
    ensures DeletesHarmless(events, ttl)
  {
    if events != [] {
      var n := |events| - 1;
      TimelyDeletesAreHarmless(events[..n], ttl);
      LeasesAlways(events[..n], ttl);
      TimelyIsHarmless(After(events[..n], ttl), events[n]);
    }
  }

  // Two requests inside their leases never hold the lock of one key, whatever became of other leases,
  // as long as every fallback DELETE is harmless. Script releases need no such condition.
  lemma {:induction false} LiveLeasesExclude(events: seq<Event>, ttl: real, m: nat, n: nat)
    requires DeletesHarmless(events, ttl)
    requires var s := After(events, ttl);
             m < |s.workers| && n < |s.workers| && s.workers[m].key == s.workers[n].key && LiveLease(s, m) &&
             LiveLease(s, n)
    ensures m == n
  {
    LeasesAlways(events, ttl);
    var s := After(events, ttl);
    assert s.workers[m].key == s.workers[n].key;
  }

  // Every renewal lands in time: no request is ever between taking and releasing the lock with its lease ended.
  ghost predicate RenewedInTime(events: seq<Event>, ttl: real) {
    HoldersLive(After(events, ttl)) && (events == [] || RenewedInTime(events[..|events| - 1], ttl))
  }

  ghost predicate HoldersLive(s: System) {
    forall n {:trigger s.workers[n]} :: 0 <= n < |s.workers| && Holds(s.workers[n]) ==> LiveLease(s, n)
  }

  lemma {:induction false} RenewedDeletesTimely(events: seq<Event>, ttl: real)
    requires RenewedInTime(events, ttl)
    ensures DeletesTimely(events, ttl)
  {
    if events != [] {
      var n := |events| - 1;
      RenewedDeletesTimely(events[..n], ttl);
      var s := After(events[..n], ttl);
      if Deletes(s, events[n]) { assert LiveLease(s, events[n].worker); }
    }
  }

  // Mutual exclusion: at most one request per key is between taking the lock and releasing it, by either release path.
  lemma {:induction false} MutualExclusion(events: seq<Event>, ttl: real, m: nat, n: nat)
    requires RenewedInTime(events, ttl)
    requires var s := After(events, ttl);
             m < |s.workers| && n < |s.workers| && s.workers[m].key == s.workers[n].key &&
             Holds(s.workers[m]) && Holds(s.workers[n])
    ensures m == n
  {
    RenewedDeletesTimely(events, ttl);
    TimelyDeletesAreHarmless(events, ttl);
    LiveLeasesExclude(events, ttl, m, n);
  }

  lemma {:induction false} BoundedAlways(events: seq<Event>, ttl: real)
    ensures LeasesBounded(After(events, ttl))
  {
    if events != [] {
      BoundedAlways(events[..|events| - 1], ttl);
      BoundedStep(After(events[..|events| - 1], ttl), events[|events| - 1], ttl);
    }
  }

  lemma {:induction false} BoundedStep(s: System, e: Event, ttl: real)
    requires LeasesBounded(s)
    ensures LeasesBounded(Step(s, e, ttl))
  {
    if !e.Arrive? && !e.Tick? && e.worker < |s.workers| { BoundedWorkerStep(s, e, e.worker, ttl); }
  }

  lemma {:induction false} BoundedWorkerStep(s: System, e: Event, n: nat, ttl: real)
    requires LeasesBounded(s) && !e.Arrive? && !e.Tick? && n == e.worker < |s.workers|
    ensures LeasesBounded(WorkerStep(s, e, n, ttl))
  {
    var s' := WorkerStep(s, e, n, ttl);
    WorkerLeaseShape(s, e, n, ttl);
    forall m | 0 <= m < |s'.workers| ensures s'.workers[m].leaseEnd <= s'.now + LOCK_TTL {
      assert s.workers[m].leaseEnd <= s.now + LOCK_TTL;
    }
  }

  // A step changes at most the lease of its request and the lock of its key.
  lemma {:induction false} WorkerLeaseShape(s: System, e: Event, n: nat, ttl: real)
    ensures !e.Arrive? && !e.Tick? && n == e.worker < |s.workers| ==>
      var s', key := WorkerStep(s, e, n, ttl), s.workers[n].key;
        s'.now == s.now && s'.workers == s.workers[n := s'.workers[n]] &&
        (s'.workers[n].leaseEnd == s.workers[n].leaseEnd || s'.workers[n].leaseEnd == s.now + LOCK_TTL) &&
        (forall k :: k in s'.locks && k != key ==> k in s.locks && s'.locks[k] == s.locks[k]) &&
        (key in s'.locks ==>
            (key in s.locks && s'.locks[key] == s.locks[key]) || s'.locks[key].until == s.now + LOCK_TTL)
  {
  }

  // In no run does a step of one request shorten, take or remove the live lock of another, lapsed leases or not:
  // the one exception is the DELETE of the fallback release.
  lemma ForeignLockSurvives(events: seq<Event>, e: Event, ttl: real, key: string)
    requires !e.Tick? && !e.ReleaseDelete?
    requires var s := After(events, ttl); LiveLock(s, key) && (!e.Arrive? ==> e.worker != s.locks[key].token)
    ensures var s, s' := After(events, ttl), After(events + [e], ttl);
            LiveLock(s', key) && s'.locks[key].token == s.locks[key].token && s.locks[key].until <= s'.locks[key].until
  {
    BoundedAlways(events, ttl);
    Snoc(events, e, ttl);
  }

  // Any harmful DELETE can be followed by two requests inside their leases for one key: another arrives, finds no
  // response and no lock, and takes the lock beside the one whose lock was deleted.
  lemma {:induction false} HarmfulDeleteAdmits(
      events: seq<Event>, e: Event, m: nat, hash: string, ttl: real)
    requires var s := After(events, ttl);
      Deletes(s, e) && m < |s.workers| && m != e.worker && LiveLease(s, m) &&
          s.workers[m].key == s.workers[e.worker].key &&
      !LiveData(s, s.workers[m].key)
    ensures var n, key := |After(events, ttl).workers|, After(events, ttl).workers[m].key;
      var t := After(events + [e] + [Arrive(key, hash)] + [SetNx(n)], ttl);
      n < |t.workers| && t.workers[m].key == t.workers[n].key && LiveLease(t, m) && LiveLease(t, n)
  {
    var s, key := After(events, ttl), After(events, ttl).workers[m].key;
    Snoc(events, e, ttl);
    Snoc(events + [e], Arrive(key, hash), ttl);
    Snoc(events + [e] + [Arrive(key, hash)], SetNx(|s.workers|), ttl);
    AdmitSteps(s, e, m, hash, ttl);
  }

  lemma {:induction false} AdmitSteps(s: System, e: Event, m: nat, hash: string, ttl: real)
    requires Deletes(s, e) && m < |s.workers| && m != e.worker && LiveLease(s, m)
    requires s.workers[m].key == s.workers[e.worker].key && !LiveData(s, s.workers[m].key)
    ensures var n, key := |s.workers|, s.workers[m].key;
      var t := Step(Step(Step(s, e, ttl), Arrive(key, hash), ttl), SetNx(n), ttl);
      n < |t.workers| && t.workers[m].key == t.workers[n].key && LiveLease(t, m) && LiveLease(t, n)
  {
    var n, key := |s.workers|, s.workers[m].key;
    var s1 := Step(s, e, ttl);
    assert s1.workers[m] == s.workers[m] && key !in s1.locks && !LiveData(s1, key);
    var s2 := Step(s1, Arrive(key, hash), ttl);
    assert s2.workers[m] == s.workers[m] && s2.workers[n].phase == Missed && s2.workers[n].key == key;
  }

  // An instance: without a timely DELETE the fallback release can remove another request's lock: here request 0
  // outlives its lease between its GET and its DELETE, and requests 1 and 2 end up inside their leases together.
  lemma LateFallbackDelete(ttl: real)
    ensures var s := After(LapsedDelete() + [SetNx(1), ReleaseDelete(0), SetNx(2)], ttl);
            |s.workers| == 3 && s.workers[1].key == s.workers[2].key && LiveLease(s, 1) && LiveLease(s, 2)
  {
    var e := LapsedDelete();
    LapsedDeleteState(ttl);
    Snoc(e, SetNx(1), ttl);
    Snoc(e + [SetNx(1)], ReleaseDelete(0), ttl);
    Snoc(e + [SetNx(1), ReleaseDelete(0)], SetNx(2), ttl);
    assert e + [SetNx(1)] + [ReleaseDelete(0)] == e + [SetNx(1), ReleaseDelete(0)];
    assert e + [SetNx(1), ReleaseDelete(0)] + [SetNx(2)] == e + [SetNx(1), ReleaseDelete(0), SetNx(2)];
  }

  function LapsedDelete(): seq<Event> {
    [Arrive("k", "h"), Arrive("k", "h"), Arrive("k", "h")] +
    [SetNx(0), CallHandler(0), HandlerEnds(0, Raised), ReleaseGet(0), Tick(300.0)]
  }

  lemma LapsedDeleteState(ttl: real)
    ensures var s := After(LapsedDelete(), ttl);
            var w := Worker("k", "h", Missed, Stopped, 0.0, 1, 0);
            |s.workers| == 3 && s.workers[1] == w && s.workers[2] == w.(read := 2) &&
            s.workers[0].key == "k" && s.workers[0].phase == Deleting &&
            s.now == 300.0 && s.locks == map["k" := Lock("h", 0, 300.0)]
  {
    ThreeMisses(ttl);
    var r := [Arrive("k", "h"), Arrive("k", "h"), Arrive("k", "h")];
    var b, c, d, f, g := SetNx(0), CallHandler(0), HandlerEnds(0, Raised), ReleaseGet(0), Tick(300.0);
    Snoc(r, b, ttl);
    Snoc(r + [b], c, ttl);
    Snoc(r + [b] + [c], d, ttl);
    Snoc(r + [b] + [c] + [d], f, ttl);
    Snoc(r + [b] + [c] + [d] + [f], g, ttl);
    assert r + [b] + [c] + [d] + [f] + [g] == LapsedDelete();
    LapseSteps(After(r, ttl), ttl);
  }

  lemma {:induction false} LapseSteps(s: System, ttl: real)
    requires var w := Worker("k", "h", Missed, Stopped, 0.0, 0, 0);
             s.now == 0.0 && s.locks == map[] && s.workers == [w, w.(read := 1), w.(read := 2)]
    ensures var s5 := Step(Step(Step(Step(Step(s, SetNx(0), ttl), CallHandler(0), ttl), HandlerEnds(0, Raised), ttl),
                                ReleaseGet(0), ttl), Tick(300.0), ttl);
            |s5.workers| == 3 && s5.workers[1] == s.workers[1] && s5.workers[2] == s.workers[2] &&
            s5.workers[0].key == "k" && s5.workers[0].phase == Deleting &&
            s5.now == 300.0 && s5.locks == map["k" := Lock("h", 0, 300.0)]
  {
    var s1 := Step(s, SetNx(0), ttl);
    assert s1.locks == map["k" := Lock("h", 0, 300.0)];
    var s2 := Step(s1, CallHandler(0), ttl);
    var s3 := Step(s2, HandlerEnds(0, Raised), ttl);
    assert s3.workers[0].phase == Leaving && s3.now == 0.0;
    var s4 := Step(s3, ReleaseGet(0), ttl);
  }

  lemma ThreeMisses(ttl: real)
    ensures var a, w := Arrive("k", "h"), Worker("k", "h", Missed, Stopped, 0.0, 0, 0);
            var s := After([a, a, a], ttl);
            s.now == 0.0 && s.locks == map[] && s.workers == [w, w.(read := 1), w.(read := 2)]
  {
    TwoMisses(ttl);
    var a := Arrive("k", "h");
    Snoc([a, a], a, ttl);
    assert [a, a] + [a] == [a, a, a];
  }

  lemma TwoMisses(ttl: real)
    ensures var a, w := Arrive("k", "h"), Worker("k", "h", Missed, Stopped, 0.0, 0, 0);
            After([a, a], ttl) ==
              System(0.0, map[], map[], [w, w.(read := 1)], [Miss(0, "k", 0.0), Miss(1, "k", 0.0)])
  {
    var a := Arrive("k", "h");
    Snoc([], a, ttl);
    assert [] + [a] == [a];
    var w := Worker("k", "h", Missed, Stopped, 0.0, 0, 0);
    assert After([a], ttl) == System(0.0, map[], map[], [w], [Miss(0, "k", 0.0)]);
    Snoc([a], a, ttl);
    assert [a] + [a] == [a, a];
  }

  lemma {:induction false} Snoc(events: seq<Event>, e: Event, ttl: real)
    ensures After(events + [e], ttl) == Step(After(events, ttl), e, ttl)
  {
    assert (events + [e])[..|events|] == events;
  }
}
