/**
 How stale an answer can be, and what an invalidation guarantees, over every interleaving.
 */
module PermissionCacheRuns {
  import opened Common
  import opened PermissionCacheSpec

  // A load proceeds by changing its own phase and appending at most its own reply.
  lemma {:induction false} LoadStepShape(s: System, n: nat, cacheFails: bool, ttl: real)
    requires n < |s.loads|
    ensures var s' := LoadStep(s, n, cacheFails, ttl);
            s'.loads == s.loads[n := s.loads[n].(phase := s'.loads[n].phase)] &&
            s'.now == s.now && s'.steps == s.steps && s'.source == s.source &&
            (s'.replies == s.replies ||
             exists x :: s'.replies == s.replies + [Reply(n, x, s.now)] && s'.loads[n].phase.Over?)
  {
    assert s.loads == s.loads[n := s.loads[n].(phase := s.loads[n].phase)];
  }

  // ---------------------------------------------------------------- every answer was the source's

  // What the source gives: a member's permissions, and none to whoever is not a member.
  predicate Gives(source: Member, permissions: Permissions) {
    match source
    case Member(p) => permissions == p
    case NotAMember => permissions == {}
  }

  // The source gave these permissions when the run had taken that many steps.
  predicate TrueSample(source: Member, events: seq<Event>, ttl: real, x: Sample) {
    x.step < |events| &&
    var s := After(source, events[..x.step], ttl);
    x.at == s.now && Gives(s.source, x.permissions)
  }

  predicate Carries(l: Load, x: Sample) {
    (Writing(l) || l.phase.Answer?) && l.phase.sample == x
  }

  // x is in a cache, in a load or in a reply.
  ghost predicate Holds(s: System, x: Sample) {
    (s.outer.Some? && s.outer.value.sample == x) || (s.inner.Some? && s.inner.value.sample == x) ||
    (exists n :: 0 <= n < |s.loads| && Carries(s.loads[n], x)) ||
    (exists i :: 0 <= i < |s.replies| && s.replies[i].sample == x)
  }

  // Proceeding introduces no sample but the source's present one.
  lemma {:induction false} ProceedSamples(s: System, n: nat, cacheFails: bool, ttl: real, x: Sample)
    requires n < |s.loads| && Holds(LoadStep(s, n, cacheFails, ttl), x)
    ensures Holds(s, x) || x == Sample(PermissionsOf(s.source), s.steps, s.now)
  {
    var s' := LoadStep(s, n, cacheFails, ttl);
    if Carries(s.loads[n], x) {
      assert Holds(s, x);
    } else if m :| 0 <= m < |s'.loads| && Carries(s'.loads[m], x) {
      PhaseSamples(s, n, cacheFails, ttl, x);
      if m != n { assert Carries(s.loads[m], x); }
    } else {
      CacheSamples(s, n, cacheFails, ttl, x);
    }
  }

  lemma {:induction false} PhaseSamples(s: System, n: nat, cacheFails: bool, ttl: real, x: Sample)
    ensures n < |s.loads| ==>
      var s' := LoadStep(s, n, cacheFails, ttl);
        |s'.loads| == |s.loads| && (forall m :: 0 <= m < |s.loads| && m != n ==> s'.loads[m] == s.loads[m]) &&
        (Carries(s'.loads[n], x) ==>
          Carries(s.loads[n], x) || (s.inner.Some? && s.inner.value.sample == x) ||
          (s.outer.Some? && s.outer.value.sample == x) ||
          x == Sample(PermissionsOf(s.source), s.steps, s.now))
  {
  }

  lemma {:induction false} CacheSamples(s: System, n: nat, cacheFails: bool, ttl: real, x: Sample)
    requires n < |s.loads| && !Carries(s.loads[n], x)
    ensures var s' := LoadStep(s, n, cacheFails, ttl);
            (s'.inner.Some? && s'.inner.value.sample == x ==> s.inner == s'.inner) &&
            (s'.outer.Some? && s'.outer.value.sample == x ==> s.outer == s'.outer) &&
            (forall i :: 0 <= i < |s'.replies| && s'.replies[i].sample == x ==>
              Holds(s, x) || x == Sample(PermissionsOf(s.source), s.steps, s.now))
  {
    var s' := LoadStep(s, n, cacheFails, ttl);
    forall i | 0 <= i < |s'.replies| && s'.replies[i].sample == x
      ensures Holds(s, x) || x == Sample(PermissionsOf(s.source), s.steps, s.now)
    {
      if i < |s.replies| { assert s.replies[i].sample == x; }
    }
  }

  lemma {:induction false} SamplesComeFromSource(s: System, e: Event, ttl: real, x: Sample)
    requires Holds(Step(s, e, ttl), x)
    ensures Holds(s, x) || x == Sample(PermissionsOf(s.source), s.steps, s.now)
  {
    var s' := Effect(s, e, ttl);
    assert Holds(s', x);
    if e.Proceed? && e.load < |s.loads| {
      ProceedSamples(s, e.load, e.cacheFails, ttl, x);
    } else if m :| 0 <= m < |s'.loads| && Carries(s'.loads[m], x) {
      assert m < |s.loads| && Carries(s.loads[m], x);
    }
  }

  lemma {:induction false} StepsCount(source: Member, events: seq<Event>, ttl: real)
    ensures After(source, events, ttl).steps == |events|
  {
    if events != [] { StepsCount(source, events[..|events| - 1], ttl); }
  }

  lemma {:induction false} SamplesAreTrue(source: Member, events: seq<Event>, ttl: real, x: Sample)
    requires Holds(After(source, events, ttl), x)
    ensures TrueSample(source, events, ttl, x)
  {
    if events != [] {
      var n := |events| - 1;
      var front := events[..n];
      SamplesComeFromSource(After(source, front, ttl), events[n], ttl, x);
      StepsCount(source, front, ttl);
      if Holds(After(source, front, ttl), x) {
        SamplesAreTrue(source, front, ttl, x);
        assert front[..x.step] == events[..x.step];
      }
    }
  }

  // Every permission in an answer was in the source's membership at the step the answer dates from; so a user who never
  // was a member is always answered with none.
  lemma {:induction false} AnswersWereHeld(source: Member, events: seq<Event>, ttl: real, i: nat, p: string)
    requires i < |After(source, events, ttl).replies| && p in After(source, events, ttl).replies[i].sample.permissions
    ensures var x := After(source, events, ttl).replies[i].sample;
      x.step < |events| &&
      var given := After(source, events[..x.step], ttl).source;
      given.Member? && p in given.permissions
  {
    var s := After(source, events, ttl);
    assert Holds(s, s.replies[i].sample);
    SamplesAreTrue(source, events, ttl, s.replies[i].sample);
  }

  lemma {:induction false} NeverMemberNoPermissions(source: Member, events: seq<Event>, ttl: real, i: nat)
    requires forall k :: 0 <= k < |events| ==> After(source, events[..k], ttl).source == NotAMember
    requires i < |After(source, events, ttl).replies|
    ensures After(source, events, ttl).replies[i].sample.permissions == {}
  {
    var s := After(source, events, ttl);
    assert Holds(s, s.replies[i].sample);
    SamplesAreTrue(source, events, ttl, s.replies[i].sample);
  }

  // An empty set of permissions is never kept in the outer cache, and only memberships are kept in the inner one.
  lemma {:induction false} WhatIsCached(source: Member, events: seq<Event>, ttl: real)
    ensures var s := After(source, events, ttl);
      s.outer.Some? ==> s.outer.value.sample.permissions != {}
    ensures var s := After(source, events, ttl);
      s.inner.Some? ==>
        (s.inner.value.sample.step < |events| &&
         After(source, events[..s.inner.value.sample.step], ttl).source.Member?)
  {
    CachedKinds(source, events, ttl);
  }

  // What loads are about to write: memberships to the inner cache, non-empty sets to the outer one.
  ghost predicate Kinds(source: Member, events: seq<Event>, ttl: real, s: System) {
    (s.outer.Some? ==> s.outer.value.sample.permissions != {}) &&
    (s.inner.Some? ==> FromMember(source, events, ttl, s.inner.value.sample)) &&
    forall n {:trigger s.loads[n]} :: 0 <= n < |s.loads| ==>
      (s.loads[n].phase.WriteInner? ==> FromMember(source, events, ttl, s.loads[n].phase.sample)) &&
      (s.loads[n].phase.WriteOuter? ==> s.loads[n].phase.sample.permissions != {})
  }

  predicate FromMember(source: Member, events: seq<Event>, ttl: real, x: Sample) {
    x.step < |events| && After(source, events[..x.step], ttl).source.Member?
  }

  lemma {:induction false} FromMemberLater(source: Member, events: seq<Event>, e: Event, ttl: real, x: Sample)
    ensures FromMember(source, events, ttl, x) ==> FromMember(source, events + [e], ttl, x)
  {
    if x.step < |events| { assert (events + [e])[..x.step] == events[..x.step]; }
  }

  lemma {:induction false} CachedKinds(source: Member, events: seq<Event>, ttl: real)
    ensures Kinds(source, events, ttl, After(source, events, ttl))
  {
    if events != [] {
      var n := |events| - 1;
      var front, e := events[..n], events[n];
      assert events == front + [e];
      CachedKinds(source, front, ttl);
      StepsCount(source, front, ttl);
      KindsLater(source, front, e, ttl, After(source, front, ttl));
      KindsStep(source, events, ttl, After(source, front, ttl), e);
    }
  }

  lemma {:induction false} KindsLater(source: Member, events: seq<Event>, e: Event, ttl: real, s: System)
    requires Kinds(source, events, ttl, s)
    ensures Kinds(source, events + [e], ttl, s)
  {
    if s.inner.Some? { FromMemberLater(source, events, e, ttl, s.inner.value.sample); }
    forall n | 0 <= n < |s.loads| && s.loads[n].phase.WriteInner?
      ensures FromMember(source, events + [e], ttl, s.loads[n].phase.sample)
    {
      FromMemberLater(source, events, e, ttl, s.loads[n].phase.sample);
    }
  }

  lemma {:induction false} KindsStep(source: Member, events: seq<Event>, ttl: real, s: System, e: Event)
    requires Kinds(source, events, ttl, s)
    requires s.steps < |events| && s == After(source, events[..s.steps], ttl)
    ensures Kinds(source, events, ttl, Step(s, e, ttl))
  {
    if e.Proceed? && e.load < |s.loads| {
      var n, t := e.load, LoadStep(s, e.load, e.cacheFails, ttl);
      LoadStepShape(s, n, e.cacheFails, ttl);
      KindsLoad(source, events, ttl, s, n, e.cacheFails);
      forall m | 0 <= m < |t.loads| && m != n ensures t.loads[m] == s.loads[m] {
      }
    }
  }

  lemma {:induction false} KindsLoad(
      source: Member, events: seq<Event>, ttl: real, s: System, n: nat, cacheFails: bool)
    requires Kinds(source, events, ttl, s) && n < |s.loads|
    requires s.steps < |events| && s == After(source, events[..s.steps], ttl)
    ensures var t := LoadStep(s, n, cacheFails, ttl);
      (t.outer.Some? ==> t.outer.value.sample.permissions != {}) &&
      (t.inner.Some? ==> FromMember(source, events, ttl, t.inner.value.sample)) &&
      (t.loads[n].phase.WriteInner? ==> FromMember(source, events, ttl, t.loads[n].phase.sample)) &&
      (t.loads[n].phase.WriteOuter? ==> t.loads[n].phase.sample.permissions != {})
  {
    FromSource(source, events, ttl, s, Sample(PermissionsOf(s.source), s.steps, s.now));
    ToCaches(s, n, cacheFails, ttl);
    ToLoad(s, n, cacheFails, ttl);
  }

  lemma {:induction false} FromSource(source: Member, events: seq<Event>, ttl: real, s: System, x: Sample)
    ensures s.steps < |events| && s == After(source, events[..s.steps], ttl) && x.step == s.steps && s.source.Member?
      ==> FromMember(source, events, ttl, x)
  {
  }

  // The caches are written only by the load that is about to.
  lemma {:induction false} ToCaches(s: System, n: nat, cacheFails: bool, ttl: real)
    ensures n < |s.loads| ==>
      var t, phase := LoadStep(s, n, cacheFails, ttl), s.loads[n].phase;
        (t.outer == s.outer || (phase.WriteOuter? && t.outer.Some? && t.outer.value.sample == phase.sample)) &&
        (t.inner == s.inner || (phase.WriteInner? && t.inner.Some? && t.inner.value.sample == phase.sample))
  {
  }

  // What a load is about to write comes from the source or the inner cache, and an empty set is not kept.
  lemma {:induction false} ToLoad(s: System, n: nat, cacheFails: bool, ttl: real)
    ensures n < |s.loads| ==>
      var t := LoadStep(s, n, cacheFails, ttl).loads[n].phase;
        (t.WriteInner? && t != s.loads[n].phase ==>
          s.source.Member? && t.sample == Sample(PermissionsOf(s.source), s.steps, s.now)) &&
        (t.WriteOuter? && t != s.loads[n].phase ==> t.sample.permissions != {})
  {
  }

  // When every cache command fails, nothing is ever cached.
  lemma {:induction false} WithoutCachesEmpty(source: Member, events: seq<Event>, ttl: real)
    requires forall k :: 0 <= k < |events| && events[k].Proceed? ==> events[k].cacheFails
    ensures After(source, events, ttl).inner == None && After(source, events, ttl).outer == None
  {
    if events != [] {
      var n := |events| - 1;
      WithoutCachesEmpty(source, events[..n], ttl);
      CachesLeftAlone(After(source, events[..n], ttl), events[n], ttl);
    }
  }

  lemma {:induction false} CachesLeftAlone(s: System, e: Event, ttl: real)
    ensures (e.Proceed? ==> e.cacheFails) && s.inner == None && s.outer == None ==>
      Step(s, e, ttl).inner == None && Step(s, e, ttl).outer == None
  {
  }

  // A load whose cache commands all fail answers with what the source gave while it was in flight.
  lemma {:induction false} WithoutCachesFresh(source: Member, events: seq<Event>, ttl: real, i: nat)
    requires i < |After(source, events, ttl).replies|
    requires var n := After(source, events, ttl).replies[i].load;
      forall k :: 0 <= k < |events| && events[k].Proceed? && events[k].load == n ==> events[k].cacheFails
    ensures var s := After(source, events, ttl);
      var r := s.replies[i];
      r.load < |s.loads| && s.loads[r.load].startStep <= r.sample.step
  {
    OwnSamples(source, events, ttl, After(source, events, ttl).replies[i].load);
  }

  // What load n carries or has answered dates from its own flight.
  ghost predicate OwnSample(s: System, n: nat) {
    (n < |s.loads| ==>
      (s.loads[n].startStep <= s.steps &&
       (Writing(s.loads[n]) || s.loads[n].phase.Answer? ==> s.loads[n].startStep <= s.loads[n].phase.sample.step))) &&
    forall i {:trigger s.replies[i]} :: 0 <= i < |s.replies| && s.replies[i].load == n ==>
      (n < |s.loads| && s.loads[n].startStep <= s.replies[i].sample.step)
  }

  lemma {:induction false} OwnSamples(source: Member, events: seq<Event>, ttl: real, n: nat)
    requires forall k :: 0 <= k < |events| && events[k].Proceed? && events[k].load == n ==> events[k].cacheFails
    ensures OwnSample(After(source, events, ttl), n)
  {
    if events != [] {
      var m := |events| - 1;
      OwnSamples(source, events[..m], ttl, n);
      OwnSampleStep(After(source, events[..m], ttl), events[m], ttl, n);
    }
  }

  lemma {:induction false} OwnSampleStep(s: System, e: Event, ttl: real, n: nat)
    requires OwnSample(s, n) && (e.Proceed? && e.load == n ==> e.cacheFails)
    ensures OwnSample(Step(s, e, ttl), n)
  {
    if e.Proceed? && e.load < |s.loads| {
      var t := LoadStep(s, e.load, e.cacheFails, ttl);
      LoadStepShape(s, e.load, e.cacheFails, ttl);
      if e.load == n { OwnSampleLoad(s, n, ttl); }
      forall i | 0 <= i < |t.replies| && t.replies[i].load == n
        ensures n < |t.loads| && t.loads[n].startStep <= t.replies[i].sample.step
      {
        if i < |s.replies| { assert t.replies[i] == s.replies[i]; }
      }
    }
  }

  lemma {:induction false} OwnSampleLoad(s: System, n: nat, ttl: real)
    requires OwnSample(s, n) && n < |s.loads|
    ensures var t := LoadStep(s, n, true, ttl);
      (Writing(t.loads[n]) || t.loads[n].phase.Answer? ==> t.loads[n].startStep <= t.loads[n].phase.sample.step) &&
      (|t.replies| > |s.replies| ==> s.loads[n].startStep <= t.replies[|s.replies|].sample.step)
  {
  }

  // ---------------------------------------------------------------- staleness

  // No load is in flight for longer than `flight`.
  predicate Prompt(s: System, flight: real) {
    forall n {:trigger s.loads[n]} :: 0 <= n < |s.loads| && !s.loads[n].phase.Over? ==>
        s.now - s.loads[n].started <= flight
  }

  // How old what a load finds can be when it finds it.
  function StaleBy(check: bool, ttl: real, flight: real): real {
    if check then OUTER_TTL + ttl + 2.0 * flight else ttl + flight
  }

  // A cache hit comes strictly before its end, so with a positive time to live nothing is quite as old as the bound.
  predicate Within(t: real, bound: real, ttl: real) {
    if ttl > 0.0 then t < bound else t <= bound
  }

  predicate LoadAged(l: Load, ttl: real, flight: real, now: real) {
    l.started <= now &&
    (l.phase.WriteInner? ==> l.started <= l.phase.sample.at) &&
    (l.phase.WriteOuter? ==> l.check && Within(l.started, l.phase.sample.at + ttl + flight, ttl)) &&
    (l.phase.Answer? ==> Within(l.started, l.phase.sample.at + StaleBy(l.check, ttl, flight), ttl)) &&
    (l.phase.ReadOuter? ==> l.check)
  }

  predicate ReplyAged(loads: seq<Load>, r: Reply, ttl: real, flight: real) {
    r.load < |loads| &&
    Within(r.at, r.sample.at + StaleBy(loads[r.load].check, ttl, flight) + flight, ttl)
  }

  ghost predicate Aged(s: System, ttl: real, flight: real) {
    (s.inner.Some? ==> s.inner.value.until <= s.inner.value.sample.at + ttl + flight) &&
    (s.outer.Some? ==> s.outer.value.until <= s.outer.value.sample.at + OUTER_TTL + ttl + 2.0 * flight) &&
    (forall n {:trigger s.loads[n]} :: 0 <= n < |s.loads| ==> LoadAged(s.loads[n], ttl, flight, s.now)) &&
    (forall i {:trigger s.replies[i]} :: 0 <= i < |s.replies| ==> ReplyAged(s.loads, s.replies[i], ttl, flight))
  }

  // What one load writes and answers is as old as what it had.
  lemma {:induction false} LoadAges(s: System, n: nat, cacheFails: bool, ttl: real, flight: real)
    requires Aged(s, ttl, flight) && Prompt(s, flight) && ttl >= 0.0 && flight >= 0.0 && n < |s.loads|
    ensures var s' := LoadStep(s, n, cacheFails, ttl);
      LoadAged(s'.loads[n], ttl, flight, s.now) &&
      (|s'.replies| > |s.replies| ==> ReplyAged(s'.loads, s'.replies[|s.replies|], ttl, flight))
  {
    assert LoadAged(s.loads[n], ttl, flight, s.now);
  }

  lemma {:induction false} CachesAge(s: System, n: nat, cacheFails: bool, ttl: real, flight: real)
    requires Aged(s, ttl, flight) && Prompt(s, flight) && ttl >= 0.0 && flight >= 0.0 && n < |s.loads|
    ensures var s' := LoadStep(s, n, cacheFails, ttl);
      (s'.inner.Some? ==> s'.inner.value.until <= s'.inner.value.sample.at + ttl + flight) &&
      (s'.outer.Some? ==> s'.outer.value.until <= s'.outer.value.sample.at + OUTER_TTL + ttl + 2.0 * flight)
  {
    assert LoadAged(s.loads[n], ttl, flight, s.now);
  }

  lemma {:induction false} ProceedAges(s: System, n: nat, cacheFails: bool, ttl: real, flight: real)
    requires Aged(s, ttl, flight) && Prompt(s, flight) && ttl >= 0.0 && flight >= 0.0 && n < |s.loads|
    ensures Aged(LoadStep(s, n, cacheFails, ttl), ttl, flight)
  {
    var s' := LoadStep(s, n, cacheFails, ttl);
    LoadStepShape(s, n, cacheFails, ttl);
    LoadAges(s, n, cacheFails, ttl, flight);
    CachesAge(s, n, cacheFails, ttl, flight);
    forall i | 0 <= i < |s'.replies| ensures ReplyAged(s'.loads, s'.replies[i], ttl, flight) {
      if i < |s.replies| { assert ReplyAged(s.loads, s.replies[i], ttl, flight); }
    }
    forall m | 0 <= m < |s'.loads| ensures LoadAged(s'.loads[m], ttl, flight, s'.now) {
      if m != n { assert LoadAged(s.loads[m], ttl, flight, s.now); }
    }
  }

  lemma {:induction false} StepAges(s: System, e: Event, ttl: real, flight: real)
    requires Aged(s, ttl, flight) && Prompt(s, flight) && ttl >= 0.0 && flight >= 0.0
    ensures Aged(Step(s, e, ttl), ttl, flight)
  {
    if e.Proceed? && e.load < |s.loads| {
      ProceedAges(s, e.load, e.cacheFails, ttl, flight);
    } else {
      var s' := Step(s, e, ttl);
      forall i | 0 <= i < |s'.replies| ensures ReplyAged(s'.loads, s'.replies[i], ttl, flight) {
        assert ReplyAged(s.loads, s.replies[i], ttl, flight);
      }
      forall n | 0 <= n < |s'.loads| ensures LoadAged(s'.loads[n], ttl, flight, s'.now) {
        if n < |s.loads| { assert LoadAged(s.loads[n], ttl, flight, s.now); }
      }
    }
  }

  // No load is in flight for longer than `flight` at any point of a run.
  predicate AlwaysPrompt(source: Member, events: seq<Event>, ttl: real, flight: real) {
    Prompt(After(source, events, ttl), flight) &&
    (events == [] || AlwaysPrompt(source, events[..|events| - 1], ttl, flight))
  }

  lemma {:induction false} AlwaysAged(source: Member, events: seq<Event>, ttl: real, flight: real)
    requires AlwaysPrompt(source, events, ttl, flight) && ttl >= 0.0 && flight >= 0.0
    ensures Aged(After(source, events, ttl), ttl, flight)
  {
    if events != [] {
      var n := |events| - 1;
      AlwaysAged(source, events[..n], ttl, flight);
      StepAges(After(source, events[..n], ttl), events[n], ttl, flight);
    }
  }

  // The most an answer can be stale by.
  function Oldest(check: bool, ttl: real, flight: real): real {
    if check then 60.0 + ttl + 3.0 * flight else ttl + 2.0 * flight
  }

  // Bounded staleness: what a permission check returns the source gave at most 60 + ttl seconds before, plus the
  // flight times of the three loads that carried it: one into each cache and one to the caller. A membership lookup
  // saves the outer 60 s and one flight.
  lemma {:induction false} BoundedStaleness(source: Member, events: seq<Event>, ttl: real, flight: real, i: nat)
    requires AlwaysPrompt(source, events, ttl, flight) && ttl >= 0.0 && flight >= 0.0
    requires i < |After(source, events, ttl).replies|
    ensures var s := After(source, events, ttl);
            var r := s.replies[i];
            TrueSample(source, events, ttl, r.sample) && r.load < |s.loads| &&
            Within(r.at, r.sample.at + Oldest(s.loads[r.load].check, ttl, flight), ttl)
  {
    var s := After(source, events, ttl);
    AlwaysAged(source, events, ttl, flight);
    assert ReplyAged(s.loads, s.replies[i], ttl, flight);
    assert Holds(s, s.replies[i].sample);
    SamplesAreTrue(source, events, ttl, s.replies[i].sample);
  }

  // ---------------------------------------------------------------- invalidation

  // No load is between its fetch, or its hit in the inner cache, and its last write to a cache.
  predicate NoneWriting(s: System) {
    forall n {:trigger s.loads[n]} :: 0 <= n < |s.loads| ==> !Writing(s.loads[n])
  }

  predicate Writing(l: Load) {
    l.phase.WriteInner? || l.phase.WriteOuter?
  }

  // Everything the inner cache and the loads hold was given by the source at step b or later.
  ghost predicate InnerFreshSince(s: System, b: nat) {
    b <= s.steps && (s.inner.Some? ==> b <= s.inner.value.sample.step) &&
    (forall n {:trigger s.loads[n]} :: 0 <= n < |s.loads| && Writing(s.loads[n]) ==>
      b <= s.loads[n].phase.sample.step)
  }

  // Replies to loads begun at step e or later carry what the source gave at step b or later.
  ghost predicate RepliesFresh(loads: seq<Load>, replies: seq<Reply>, b: nat, e: nat) {
    forall i {:trigger replies[i]} :: 0 <= i < |replies| ==>
      replies[i].load < |loads| && (loads[replies[i].load].startStep >= e ==> b <= replies[i].sample.step)
  }

  // So does what such loads are about to answer.
  ghost predicate AnswersFresh(loads: seq<Load>, b: nat, e: nat) {
    forall n {:trigger loads[n]} :: 0 <= n < |loads| && loads[n].phase.Answer? && loads[n].startStep >= e ==>
      b <= loads[n].phase.sample.step
  }

  // The outer cache too, and the answers and replies of all loads begun at step e or later.
  ghost predicate FreshSince(s: System, b: nat, e: nat) {
    InnerFreshSince(s, b) && (s.outer.Some? ==> b <= s.outer.value.sample.step) &&
    AnswersFresh(s.loads, b, e) && RepliesFresh(s.loads, s.replies, b, e)
  }

  lemma {:induction false} StepStaysInnerFresh(s: System, e: Event, ttl: real, b: nat)
    requires InnerFreshSince(s, b)
    ensures InnerFreshSince(Step(s, e, ttl), b)
  {
    if e.Proceed? && e.load < |s.loads| { LoadStepShape(s, e.load, e.cacheFails, ttl); }
  }

  lemma {:induction false} ProceedStaysFresh(s: System, n: nat, cacheFails: bool, ttl: real, b: nat, c: nat)
    requires FreshSince(s, b, c) && n < |s.loads|
    ensures var s' := LoadStep(s, n, cacheFails, ttl);
            RepliesFresh(s'.loads, s'.replies, b, c) && (s'.outer.Some? ==> b <= s'.outer.value.sample.step) &&
            AnswersFresh(s'.loads, b, c)
  {
    var s' := LoadStep(s, n, cacheFails, ttl);
    LoadStepShape(s, n, cacheFails, ttl);
    AnswerStaysFresh(s, n, cacheFails, ttl, b, c);
    forall i | 0 <= i < |s'.replies|
      ensures s'.replies[i].load < |s'.loads|
      ensures s'.loads[s'.replies[i].load].startStep >= c ==> b <= s'.replies[i].sample.step
    {
      if i < |s.replies| { assert s.replies[i] == s'.replies[i]; }
    }
  }

  lemma {:induction false} NewAnswerIsFresh(s: System, n: nat, cacheFails: bool, ttl: real, b: nat, c: nat)
    ensures FreshSince(s, b, c) && n < |s.loads| ==>
      var l := LoadStep(s, n, cacheFails, ttl).loads[n];
        l.phase.Answer? && l.startStep >= c ==> b <= l.phase.sample.step
  {
  }

  lemma {:induction false} AnswerStaysFresh(s: System, n: nat, cacheFails: bool, ttl: real, b: nat, c: nat)
    requires FreshSince(s, b, c) && n < |s.loads|
    ensures var s' := LoadStep(s, n, cacheFails, ttl); AnswersFresh(s'.loads, b, c)
  {
    var s' := LoadStep(s, n, cacheFails, ttl);
    LoadStepShape(s, n, cacheFails, ttl);
    NewAnswerIsFresh(s, n, cacheFails, ttl, b, c);
    forall m | 0 <= m < |s'.loads| && s'.loads[m].phase.Answer? && s'.loads[m].startStep >= c
      ensures b <= s'.loads[m].phase.sample.step
    {
      if m != n { assert s.loads[m] == s'.loads[m]; }
    }
  }

  lemma {:induction false} StepStaysFresh(s: System, e: Event, ttl: real, b: nat, c: nat)
    requires FreshSince(s, b, c)
    ensures FreshSince(Step(s, e, ttl), b, c)
  {
    StepStaysInnerFresh(s, e, ttl, b);
    if e.Proceed? && e.load < |s.loads| {
      ProceedStaysFresh(s, e.load, e.cacheFails, ttl, b, c);
    } else {
      assert RepliesFresh(Step(s, e, ttl).loads, Step(s, e, ttl).replies, b, c);
    }
  }

  ghost predicate Begun(s: System) {
    (forall n {:trigger s.loads[n]} :: 0 <= n < |s.loads| ==> s.loads[n].startStep < s.steps) &&
    (forall i {:trigger s.replies[i]} :: 0 <= i < |s.replies| ==> s.replies[i].load < |s.loads|)
  }

  lemma {:induction false} AlwaysBegun(source: Member, events: seq<Event>, ttl: real)
    ensures Begun(After(source, events, ttl))
  {
    if events != [] {
      var s, e := After(source, events[..|events| - 1], ttl), events[|events| - 1];
      AlwaysBegun(source, events[..|events| - 1], ttl);
      if e.Proceed? && e.load < |s.loads| { LoadStepShape(s, e.load, e.cacheFails, ttl); }
      var s' := Step(s, e, ttl);
      forall n | 0 <= n < |s'.loads| ensures s'.loads[n].startStep < s'.steps {
        if n < |s.loads| { assert s.loads[n].startStep == s'.loads[n].startStep; }
      }
      forall i | 0 <= i < |s'.replies| ensures s'.replies[i].load < |s'.loads| {
        if i < |s.replies| { assert s.replies[i] == s'.replies[i]; }
      }
    }
  }

  // From an inner deletion with no load writing to an outer deletion, and from there on.
  lemma {:induction false} InvalidationClears(source: Member, events: seq<Event>, ttl: real, b: nat, e: nat)
    requires b < e < |events| && events[b] == ClearInner(false) && events[e] == ClearOuter(false)
    requires NoneWriting(After(source, events[..b], ttl))
    ensures FreshSince(After(source, events, ttl), b, e + 1)
    decreases |events|
  {
    var n := |events| - 1;
    var front := events[..n];
    if n == e {
      assert front[..b] == events[..b];
      InnerClears(source, front, ttl, b);
      AlwaysBegun(source, events, ttl);
      StepsCount(source, events, ttl);
      StepStaysInnerFresh(After(source, front, ttl), events[n], ttl, b);
    } else {
      assert front[..b] == events[..b];
      InvalidationClears(source, front, ttl, b, e);
      StepStaysFresh(After(source, front, ttl), events[n], ttl, b, e + 1);
    }
  }

  lemma {:induction false} InnerClears(source: Member, events: seq<Event>, ttl: real, b: nat)
    requires b < |events| && events[b] == ClearInner(false) && NoneWriting(After(source, events[..b], ttl))
    ensures InnerFreshSince(After(source, events, ttl), b)
  {
    var n := |events| - 1;
    var front := events[..n];
    StepsCount(source, front, ttl);
    if n != b {
      assert front[..b] == events[..b];
      InnerClears(source, front, ttl, b);
      StepStaysInnerFresh(After(source, front, ttl), events[n], ttl, b);
    }
  }

  // After a successful invalidation that found no load writing, every load begun afterwards answers with what the
  // source gave at some step from the invalidation on. Loads that were still reading or fetching do no harm.
  lemma {:induction false} FreshReplies(source: Member, events: seq<Event>, ttl: real, b: nat, e: nat, i: nat)
    requires b < e < |events| && events[b] == ClearInner(false) && events[e] == ClearOuter(false)
    requires NoneWriting(After(source, events[..b], ttl)) && Later(After(source, events, ttl), e, i)
    ensures var r := After(source, events, ttl).replies[i];
            b <= r.sample.step && TrueSample(source, events, ttl, r.sample)
  {
    var s := After(source, events, ttl);
    InvalidationClears(source, events, ttl, b, e);
    assert Holds(s, s.replies[i].sample);
    SamplesAreTrue(source, events, ttl, s.replies[i].sample);
  }

  // The i-th reply is to a load begun after step e.
  predicate Later(s: System, e: nat, i: nat) {
    i < |s.replies| && s.replies[i].load < |s.loads| && s.loads[s.replies[i].load].startStep > e
  }

  // The two deletions of an invalidation, with anything between and after them.
  function Invalidated(front: seq<Event>, middle: seq<Event>, rest: seq<Event>): seq<Event> {
    front + [ClearInner(false)] + middle + [ClearOuter(false)] + rest
  }

  // However a run goes on from an invalidation, loads begun after it never answer with what was fetched before it.
  ghost predicate StaysInvalidated(source: Member, front: seq<Event>, ttl: real) {
    forall middle: seq<Event>, rest: seq<Event>, i: nat {:trigger Outdated(source, front, middle, rest, ttl, i)} ::
      !Outdated(source, front, middle, rest, ttl, i)
  }

  predicate Outdated(source: Member, front: seq<Event>, middle: seq<Event>, rest: seq<Event>, ttl: real, i: nat) {
    var s := After(source, Invalidated(front, middle, rest), ttl);
    Later(s, |front| + 1 + |middle|, i) && s.replies[i].sample.step < |front|
  }

  // The exact condition under which an invalidation lasts: it finds no load between its fetch and its last write.
  lemma {:induction false} FreshAfterInvalidation(source: Member, front: seq<Event>, ttl: real)
    requires ttl > 0.0
    ensures StaysInvalidated(source, front, ttl) <==> NoneWriting(After(source, front, ttl))
  {
    var s := After(source, front, ttl);
    if NoneWriting(s) {
      forall middle: seq<Event>, rest: seq<Event>, i: nat ensures !Outdated(source, front, middle, rest, ttl, i) {
        var events, e := Invalidated(front, middle, rest), |front| + 1 + |middle|;
        assert events[..|front|] == front && events[|front|] == ClearInner(false) && events[e] == ClearOuter(false);
        if Later(After(source, events, ttl), e, i) { FreshReplies(source, events, ttl, |front|, e, i); }
      }
    } else {
      var n :| 0 <= n < |s.loads| && Writing(s.loads[n]);
      var p := Proceed(|s.loads|, false);
      var rest := [Proceed(n, false), Begin(s.loads[n].phase.WriteOuter?), p, p];
      WriterUndoes(source, front, n, rest, ttl);
      assert Outdated(source, front, [], rest, ttl, |After(source, Invalidated(front, [], rest), ttl).replies| - 1);
    }
  }

  lemma {:induction false} WriterUndoes(source: Member, front: seq<Event>, n: nat, rest: seq<Event>, ttl: real)
    requires ttl > 0.0 && n < |After(source, front, ttl).loads| && Writing(After(source, front, ttl).loads[n])
    requires var s := After(source, front, ttl);
      var p := Proceed(|s.loads|, false);
      rest == [Proceed(n, false), Begin(s.loads[n].phase.WriteOuter?), p, p]
    ensures var s := After(source, Invalidated(front, [], rest), ttl);
      s.replies != [] && Outdated(source, front, [], rest, ttl, |s.replies| - 1)
  {
    var s := After(source, front, ttl);
    StepsCount(source, front, ttl);
    WritersAreOlder(source, front, n, ttl);
    InvalidatedState(source, front, rest[0], rest[1], rest[2], ttl);
    assert rest == [rest[0], rest[1], rest[2], rest[2]];
    UndoSteps(s, n, s.loads[n].phase.sample, ttl);
  }

  lemma {:induction false} WritersAreOlder(source: Member, front: seq<Event>, n: nat, ttl: real)
    requires var s := After(source, front, ttl); n < |s.loads| && Writing(s.loads[n])
    ensures After(source, front, ttl).loads[n].phase.sample.step < |front|
  {
    var s := After(source, front, ttl);
    var x := s.loads[n].phase.sample;
    assert Carries(s.loads[n], x) && Holds(s, x);
    SamplesAreTrue(source, front, ttl, x);
  }

  lemma {:induction false} InvalidatedState(source: Member, front: seq<Event>, p: Event, q: Event, r: Event, ttl: real)
    ensures var cleared := Step(Step(After(source, front, ttl), ClearInner(false), ttl), ClearOuter(false), ttl);
      After(source, Invalidated(front, [], [p, q, r, r]), ttl) ==
        Step(Step(Step(Step(cleared, p, ttl), q, ttl), r, ttl), r, ttl)
  {
    TwoSteps(source, front, ClearInner(false), ClearOuter(false), ttl);
    ThreeSteps(source, front + [ClearInner(false), ClearOuter(false)], p, q, r, ttl);
    Snoc(source, front + [ClearInner(false), ClearOuter(false)] + [p, q, r], r, ttl);
    assert Invalidated(front, [], [p, q, r, r]) ==
      front + [ClearInner(false), ClearOuter(false)] + [p, q, r] + [r];
  }

  lemma {:induction false} UndoSteps(s: System, n: nat, x: Sample, ttl: real)
    requires ttl > 0.0 && n < |s.loads| && Writing(s.loads[n]) && Carries(s.loads[n], x)
    ensures var check := s.loads[n].phase.WriteOuter?;
      var cleared := Step(Step(s, ClearInner(false), ttl), ClearOuter(false), ttl);
      var p := Proceed(|s.loads|, false);
      var t := Step(Step(Step(Step(cleared, Proceed(n, false), ttl), Begin(check), ttl), p, ttl), p, ttl);
      t.replies != [] && t.replies[|t.replies| - 1] == Reply(|s.loads|, x, s.now) &&
      |s.loads| < |t.loads| && t.loads[|s.loads|].startStep == s.steps + 3
  {
    var check, m := s.loads[n].phase.WriteOuter?, |s.loads|;
    var cleared := Step(Step(s, ClearInner(false), ttl), ClearOuter(false), ttl);
    var written := Step(cleared, Proceed(n, false), ttl);
    assert |written.loads| == m && written.now == s.now && written.steps == s.steps + 3;
    assert if check then written.outer == Some(Cached(x, s.now + OUTER_TTL))
           else written.inner == Some(Cached(x, s.now + ttl));
    var begun := Step(written, Begin(check), ttl);
    assert begun.loads[m] == Load(check, if check then ReadOuter else ReadInner, s.now, s.steps + 3);
    assert Step(begun, Proceed(m, false), ttl).loads[m] == Load(check, Answer(x), s.now, s.steps + 3);
  }

  // An instance: a check in flight across the invalidation stores what it fetched before, and a check begun after the
  // invalidation then answers with permissions the source no longer gave when it started.
  lemma LoadInFlightKeepsStale(ttl: real)
    requires ttl > 0.0
    ensures var events := StaleRun();
            var s := After(Member({"p"}), events, ttl);
            events[5] == ClearInner(false) && events[6] == ClearOuter(false) &&
            |s.loads| == 2 && s.loads[1].startStep > 6 && s.replies == [Reply(1, Sample({"p"}, 3, 0.0), 0.0)]
  {
    var m, p := Member({"p"}), Proceed(0, false);
    var fetch := [Begin(true), p, p, p];
    var change := [ChangeSource(Member({})), ClearInner(false), ClearOuter(false)];
    FetchedState(m, fetch[0], p, ttl);
    ThreeSteps(m, fetch, change[0], change[1], change[2], ttl);
    TwoSteps(m, fetch + change, p, p, ttl);
    ThreeSteps(m, fetch + change + [p, p], Begin(true), Proceed(1, false), Proceed(1, false), ttl);
    assert StaleRun() == fetch + change + [p, p] + [Begin(true), Proceed(1, false), Proceed(1, false)];
    StaleTail(After(m, fetch + change, ttl), ttl);
  }

  function StaleRun(): seq<Event> {
    [Begin(true), Proceed(0, false), Proceed(0, false), Proceed(0, false), ChangeSource(Member({}))] +
    [ClearInner(false), ClearOuter(false), Proceed(0, false), Proceed(0, false), Begin(true), Proceed(1, false)] +
    [Proceed(1, false)]
  }

  lemma {:induction false} FetchedState(m: Member, begin: Event, p: Event, ttl: real)
    requires m == Member({"p"}) && begin == Begin(true) && p == Proceed(0, false)
    ensures After(m, [begin, p, p, p], ttl) ==
              System(0.0, 4, m, None, None, [Load(true, WriteInner(Sample({"p"}, 3, 0.0)), 0.0, 0)], [])
  {
    var s0 := After(m, [], ttl);
    assert [] + [begin] == [begin];
    Snoc(m, [], begin, ttl);
    ThreeSteps(m, [begin], p, p, p, ttl);
    assert [begin] + [p, p, p] == [begin, p, p, p];
    assert Step(s0, begin, ttl).loads == [Load(true, ReadOuter, 0.0, 0)];
    FetchSteps(Step(s0, begin, ttl), ttl);
  }

  lemma {:induction false} FetchSteps(s: System, ttl: real)
    requires s == System(0.0, 1, Member({"p"}), None, None, [Load(true, ReadOuter, 0.0, 0)], [])
    ensures var p := Proceed(0, false);
            Step(Step(Step(s, p, ttl), p, ttl), p, ttl) ==
              System(0.0, 4, Member({"p"}), None, None, [Load(true, WriteInner(Sample({"p"}, 3, 0.0)), 0.0, 0)], [])
  {
    var p := Proceed(0, false);
    var s1 := Step(s, p, ttl);
    assert s1 == s.(steps := 2, loads := [Load(true, ReadInner, 0.0, 0)]);
    var s2 := Step(s1, p, ttl);
    assert s2 == s.(steps := 3, loads := [Load(true, Fetch, 0.0, 0)]);
    assert Step(s2, p, ttl).loads == [Load(true, WriteInner(Sample({"p"}, 3, 0.0)), 0.0, 0)];
  }

  lemma {:induction false} StaleTail(s: System, ttl: real)
    requires var x := Sample({"p"}, 3, 0.0);
             s.steps == 7 && s.now == 0.0 && s.outer == None && s.replies == [] &&
             s.loads == [Load(true, WriteInner(x), 0.0, 0)]
    requires ttl > 0.0
    ensures var p, q := Proceed(0, false), Proceed(1, false);
            var t := Step(Step(Step(Step(Step(s, p, ttl), p, ttl), Begin(true), ttl), q, ttl), q, ttl);
            |t.loads| == 2 && t.loads[1].startStep == 9 && t.replies == [Reply(1, Sample({"p"}, 3, 0.0), 0.0)]
  {
    var x, p := Sample({"p"}, 3, 0.0), Proceed(0, false);
    assert "p" in x.permissions;
    var s1 := Step(s, p, ttl);
    assert s1.loads == [Load(true, WriteOuter(x), 0.0, 0)] && s1.now == 0.0;
    var s2 := Step(s1, p, ttl);
    assert s2.outer == Some(Cached(x, OUTER_TTL)) && s2.steps == 9;
    var s3 := Step(s2, Begin(true), ttl);
    assert |s3.loads| == 2 && s3.loads[1] == Load(true, ReadOuter, 0.0, 9);
    assert Step(s3, Proceed(1, false), ttl).loads[1] == Load(true, Answer(x), 0.0, 9);
  }

  lemma {:induction false} Snoc(source: Member, events: seq<Event>, e: Event, ttl: real)
    ensures After(source, events + [e], ttl) == Step(After(source, events, ttl), e, ttl)
  {
    assert (events + [e])[..|events|] == events;
  }

  lemma {:induction false} TwoSteps(source: Member, events: seq<Event>, a: Event, b: Event, ttl: real)
    ensures After(source, events + [a, b], ttl) == Step(Step(After(source, events, ttl), a, ttl), b, ttl)
  {
    Snoc(source, events, a, ttl);
    Snoc(source, events + [a], b, ttl);
    assert events + [a] + [b] == events + [a, b];
  }

  lemma {:induction false} ThreeSteps(source: Member, events: seq<Event>, a: Event, b: Event, c: Event, ttl: real)
    ensures After(source, events + [a, b, c], ttl) ==
        Step(Step(Step(After(source, events, ttl), a, ttl), b, ttl), c, ttl)
  {
    TwoSteps(source, events, a, b, ttl);
    Snoc(source, events + [a, b], c, ttl);
    assert events + [a, b] + [c] == events + [a, b, c];
  }
}
