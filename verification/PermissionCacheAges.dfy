/** Exactly how old an answer can be: a run for every age below the bound. */
module PermissionCacheAges {
  import opened Common
  import opened PermissionCacheSpec
  import opened PermissionCacheRuns

  // Some run in which no load is in flight for longer than `flight` ends in state t.
  ghost predicate Reaches(source: Member, t: System, ttl: real, flight: real) {
    exists events: seq<Event> {:trigger After(source, events, ttl)} ::
      After(source, events, ttl) == t && AlwaysPrompt(source, events, ttl, flight)
  }

  lemma {:induction false} OneMore(source: Member, t: System, e: Event, u: System, ttl: real, flight: real)
    ensures Reaches(source, t, ttl, flight) && Step(t, e, ttl) == u && Prompt(u, flight) ==>
      Reaches(source, u, ttl, flight)
  {
    if Reaches(source, t, ttl, flight) && Step(t, e, ttl) == u && Prompt(u, flight) {
      var events: seq<Event> :| After(source, events, ttl) == t && AlwaysPrompt(source, events, ttl, flight);
      Snoc(source, events, e, ttl);
      assert (events + [e])[..|events|] == events;
      assert AlwaysPrompt(source, events + [e], ttl, flight);
    }
  }

  // Some prompt run answers a check, or a lookup, with what the source gave that long before.
  ghost predicate CanAnswerAt(check: bool, age: real, ttl: real, flight: real) {
    exists source: Member, t: System, i: nat {:trigger Reaches(source, t, ttl, flight), AnswersAt(t, i, check, age)} ::
      Reaches(source, t, ttl, flight) && AnswersAt(t, i, check, age)
  }

  predicate AnswersAt(t: System, i: nat, check: bool, age: real) {
    i < |t.replies| && t.replies[i].load < |t.loads| && t.loads[t.replies[i].load].check == check &&
    t.replies[i].at - t.replies[i].sample.at == age
  }

  // ---------------------------------------------------------------- a run for every age

  function Source(): Member {
    Member({"p"})
  }

  function Given(): Sample {
    Sample({"p"}, 2, 0.0)
  }

  function First(phase: Phase): Load {
    Load(false, phase, 0.0, 0)
  }

  // The first load fetches at time 0, writes the inner cache after x seconds, and ends there.
  function InnerWritten(x: real, ttl: real): System {
    System(x, 6, Source(), None, Some(Cached(Given(), x + ttl)), [First(Over)], [])
  }

  function Fetched(): System {
    System(0.0, 3, Source(), None, None, [First(WriteInner(Given()))], [])
  }

  lemma {:induction false} ReachStart(source: Member, ttl: real, flight: real)
    ensures Reaches(source, System(0.0, 0, source, None, None, [], []), ttl, flight)
  {
    var none: seq<Event> := [];
    assert After(source, none, ttl) == System(0.0, 0, source, None, None, [], []);
    assert AlwaysPrompt(source, none, ttl, flight);
  }

  function Started(source: Member, steps: nat, phase: Phase): System {
    System(0.0, steps, source, None, None, [First(phase)], [])
  }

  lemma {:induction false} ReachFetching(source: Member, ttl: real, flight: real)
    requires flight >= 0.0
    ensures Reaches(source, Started(source, 2, Fetch), ttl, flight)
  {
    var s := System(0.0, 0, source, None, None, [], []);
    ReachStart(source, ttl, flight);
    OneMore(source, s, Begin(false), Started(source, 1, ReadInner), ttl, flight);
    OneMore(source, Started(source, 1, ReadInner), Proceed(0, false), Started(source, 2, Fetch), ttl, flight);
  }

  lemma {:induction false} ReachFetched(ttl: real, flight: real)
    requires flight >= 0.0
    ensures Reaches(Source(), Fetched(), ttl, flight)
  {
    ReachFetching(Source(), ttl, flight);
    OneMore(Source(), Started(Source(), 2, Fetch), Proceed(0, false), Fetched(), ttl, flight);
  }

  lemma {:induction false} ReachInner(x: real, ttl: real, flight: real)
    requires 0.0 <= x <= flight
    ensures Reaches(Source(), InnerWritten(x, ttl), ttl, flight)
  {
    ReachFetched(ttl, flight);
    var s := Fetched();
    var s1 := s.(steps := 4, now := x);
    var s2 := s1.(steps := 5, inner := Some(Cached(Given(), x + ttl)), loads := [First(Answer(Given()))]);
    OneMore(Source(), s, Tick(x), s1, ttl, flight);
    OneMore(Source(), s1, Proceed(0, false), s2, ttl, flight);
    OneMore(Source(), s2, Fail(0), InnerWritten(x, ttl), ttl, flight);
  }

  // The state after a while in which no load is in flight.
  lemma {:induction false} Wait(t: System, elapsed: real, ttl: real, flight: real)
    requires Reaches(Source(), t, ttl, flight) && elapsed >= 0.0
    requires forall n {:trigger t.loads[n]} :: 0 <= n < |t.loads| ==> t.loads[n].phase.Over?
    ensures Reaches(Source(), t.(now := t.now + elapsed, steps := t.steps + 1), ttl, flight)
  {
    OneMore(Source(), t, Tick(elapsed), t.(now := t.now + elapsed, steps := t.steps + 1), ttl, flight);
  }

  // The state after a while in which load n, which has just begun, is the only one in flight.
  lemma {:induction false} WaitInFlight(t: System, n: nat, elapsed: real, ttl: real, flight: real)
    requires Reaches(Source(), t, ttl, flight) && 0.0 <= elapsed <= flight
    requires forall m {:trigger t.loads[m]} :: 0 <= m < |t.loads| ==>
      t.loads[m].phase.Over? || (m == n && t.loads[m].started == t.now)
    ensures Reaches(Source(), t.(now := t.now + elapsed, steps := t.steps + 1), ttl, flight)
  {
    OneMore(Source(), t, Tick(elapsed), t.(now := t.now + elapsed, steps := t.steps + 1), ttl, flight);
  }

  // A second load finds the inner entry after y more seconds.
  function InnerRead(x: real, y: real, ttl: real): System {
    InnerWritten(x, ttl).(now := x + y, steps := 7)
  }

  function Second(check: bool, phase: Phase, started: real): Load {
    Load(check, phase, started, 7)
  }

  // A lookup that has found it.
  function LookedUp(x: real, y: real, ttl: real): System {
    InnerRead(x, y, ttl).(steps := 9, loads := [First(Over), Second(false, Answer(Given()), x + y)])
  }

  lemma {:induction false} ReachLookedUp(x: real, y: real, ttl: real, flight: real)
    requires 0.0 <= x <= flight && 0.0 <= y < ttl
    ensures Reaches(Source(), LookedUp(x, y, ttl), ttl, flight)
  {
    ReachInnerRead(x, y, ttl, flight);
    var s := InnerRead(x, y, ttl);
    var s1 := s.(steps := 8, loads := [First(Over), Second(false, ReadInner, x + y)]);
    OneMore(Source(), s, Begin(false), s1, ttl, flight);
    OneMore(Source(), s1, Proceed(1, false), LookedUp(x, y, ttl), ttl, flight);
  }

  // A lookup, answered z seconds later.
  lemma {:induction false} LookupAnswers(x: real, y: real, z: real, ttl: real, flight: real)
    requires 0.0 <= x <= flight && 0.0 <= y < ttl && 0.0 <= z <= flight
    ensures CanAnswerAt(false, x + y + z, ttl, flight)
  {
    ReachLookedUp(x, y, ttl, flight);
    var s2 := LookedUp(x, y, ttl);
    var s3 := s2.(steps := 10, now := x + y + z);
    var s4 := s3.(steps := 11, loads := [First(Over), Second(false, Over, x + y)],
      replies := [Reply(1, Given(), x + y + z)]);
    WaitInFlight(s2, 1, z, ttl, flight);
    OneMore(Source(), s3, Proceed(1, false), s4, ttl, flight);
    assert AnswersAt(s4, 0, false, x + y + z);
  }

  // A check, which writes the outer cache z seconds later and ends there.
  function OuterWritten(x: real, y: real, z: real, ttl: real): System {
    InnerRead(x, y, ttl).(now := x + y + z, steps := 13, outer := Some(Cached(Given(), x + y + z + OUTER_TTL)),
      loads := [First(Over), Second(true, Over, x + y)])
  }

  function InnerHit(x: real, y: real, ttl: real): System {
    InnerRead(x, y, ttl).(steps := 10, loads := [First(Over), Second(true, WriteOuter(Given()), x + y)])
  }

  lemma {:induction false} ReachInnerRead(x: real, y: real, ttl: real, flight: real)
    requires 0.0 <= x <= flight && 0.0 <= y < ttl
    ensures Reaches(Source(), InnerRead(x, y, ttl), ttl, flight)
  {
    ReachInner(x, ttl, flight);
    Wait(InnerWritten(x, ttl), y, ttl, flight);
  }

  lemma {:induction false} ReachInnerHit(x: real, y: real, ttl: real, flight: real)
    requires 0.0 <= x <= flight && 0.0 <= y < ttl
    ensures Reaches(Source(), InnerHit(x, y, ttl), ttl, flight)
  {
    ReachInnerRead(x, y, ttl, flight);
    var s := InnerRead(x, y, ttl);
    var s1 := s.(steps := 8, loads := [First(Over), Second(true, ReadOuter, x + y)]);
    var s2 := s.(steps := 9, loads := [First(Over), Second(true, ReadInner, x + y)]);
    OneMore(Source(), s, Begin(true), s1, ttl, flight);
    OneMore(Source(), s1, Proceed(1, false), s2, ttl, flight);
    InnerHitStep(s2, x, y, ttl);
    OneMore(Source(), s2, Proceed(1, false), InnerHit(x, y, ttl), ttl, flight);
  }

  lemma {:induction false} InnerHitStep(s: System, x: real, y: real, ttl: real)
    ensures
      s == InnerRead(x, y, ttl).(steps := 9, loads := [First(Over), Second(true, ReadInner, x + y)]) && y < ttl ==>
      Step(s, Proceed(1, false), ttl) == InnerHit(x, y, ttl)
  {
    assert "p" in Given().permissions;
  }

  function OuterStored(x: real, y: real, z: real, ttl: real): System {
    InnerHit(x, y, ttl).(now := x + y + z, steps := 12, outer := Some(Cached(Given(), x + y + z + OUTER_TTL)),
      loads := [First(Over), Second(true, Answer(Given()), x + y)])
  }

  lemma {:induction false} ReachOuterStored(x: real, y: real, z: real, ttl: real, flight: real)
    requires 0.0 <= x <= flight && 0.0 <= y < ttl && 0.0 <= z <= flight
    ensures Reaches(Source(), OuterStored(x, y, z, ttl), ttl, flight)
  {
    ReachInnerHit(x, y, ttl, flight);
    WaitInFlight(InnerHit(x, y, ttl), 1, z, ttl, flight);
    var s := InnerHit(x, y, ttl).(steps := 11, now := x + y + z);
    OuterStoredStep(s, x, y, z, ttl);
    OneMore(Source(), s, Proceed(1, false), OuterStored(x, y, z, ttl), ttl, flight);
  }

  lemma {:induction false} OuterStoredStep(s: System, x: real, y: real, z: real, ttl: real)
    ensures s == InnerHit(x, y, ttl).(steps := 11, now := x + y + z) ==>
      Step(s, Proceed(1, false), ttl) == OuterStored(x, y, z, ttl)
  {
  }

  lemma {:induction false} ReachOuter(x: real, y: real, z: real, ttl: real, flight: real)
    requires 0.0 <= x <= flight && 0.0 <= y < ttl && 0.0 <= z <= flight
    ensures Reaches(Source(), OuterWritten(x, y, z, ttl), ttl, flight)
  {
    ReachOuterStored(x, y, z, ttl, flight);
    OneMore(Source(), OuterStored(x, y, z, ttl), Fail(1), OuterWritten(x, y, z, ttl), ttl, flight);
  }

  function Third(phase: Phase, started: real): Load {
    Load(true, phase, started, 14)
  }

  // A second check finds the outer entry after w more seconds,
  function OuterHit(x: real, y: real, z: real, w: real, ttl: real): System {
    OuterWritten(x, y, z, ttl).(now := x + y + z + w, steps := 16,
      loads := [First(Over), Second(true, Over, x + y), Third(Answer(Given()), x + y + z + w)])
  }

  lemma {:induction false} ReachOuterHit(x: real, y: real, z: real, w: real, ttl: real, flight: real)
    requires 0.0 <= x <= flight && 0.0 <= y < ttl && 0.0 <= z <= flight && 0.0 <= w < OUTER_TTL
    ensures Reaches(Source(), OuterHit(x, y, z, w, ttl), ttl, flight)
  {
    ReachOuter(x, y, z, ttl, flight);
    Wait(OuterWritten(x, y, z, ttl), w, ttl, flight);
    var begun := x + y + z + w;
    var s := OuterWritten(x, y, z, ttl).(now := begun, steps := 14);
    var s1 := s.(steps := 15, loads := [First(Over), Second(true, Over, x + y), Third(ReadOuter, begun)]);
    OneMore(Source(), s, Begin(true), s1, ttl, flight);
    OneMore(Source(), s1, Proceed(2, false), OuterHit(x, y, z, w, ttl), ttl, flight);
  }

  // and is answered v seconds later.
  function CheckAnswered(x: real, y: real, z: real, w: real, v: real, ttl: real): System {
    var begun := x + y + z + w;
    OuterHit(x, y, z, w, ttl).(now := begun + v, steps := 18,
      loads := [First(Over), Second(true, Over, x + y), Third(Over, begun)], replies := [Reply(2, Given(), begun + v)])
  }

  lemma {:induction false} ReachCheckAnswered(
      x: real, y: real, z: real, w: real, v: real, ttl: real, flight: real)
    requires 0.0 <= x <= flight && 0.0 <= y < ttl && 0.0 <= z <= flight && 0.0 <= w < OUTER_TTL && 0.0 <= v <= flight
    ensures Reaches(Source(), CheckAnswered(x, y, z, w, v, ttl), ttl, flight)
  {
    ReachOuterHit(x, y, z, w, ttl, flight);
    WaitInFlight(OuterHit(x, y, z, w, ttl), 2, v, ttl, flight);
    var s := OuterHit(x, y, z, w, ttl).(steps := 17, now := x + y + z + w + v);
    CheckAnsweredStep(s, x, y, z, w, v, ttl);
    OneMore(Source(), s, Proceed(2, false), CheckAnswered(x, y, z, w, v, ttl), ttl, flight);
  }

  lemma {:induction false} CheckAnsweredStep(
      s: System, x: real, y: real, z: real, w: real, v: real, ttl: real)
    ensures s == OuterHit(x, y, z, w, ttl).(steps := 17, now := x + y + z + w + v) ==>
      Step(s, Proceed(2, false), ttl) == CheckAnswered(x, y, z, w, v, ttl)
  {
  }

  lemma {:induction false} CheckAnswers(x: real, y: real, z: real, w: real, v: real, ttl: real, flight: real)
    requires 0.0 <= x <= flight && 0.0 <= y < ttl && 0.0 <= z <= flight && 0.0 <= w < OUTER_TTL && 0.0 <= v <= flight
    ensures CanAnswerAt(true, x + y + z + w + v, ttl, flight)
  {
    ReachCheckAnswered(x, y, z, w, v, ttl, flight);
    assert AnswersAt(CheckAnswered(x, y, z, w, v, ttl), 0, true, x + y + z + w + v);
  }

  // ---------------------------------------------------------------- main result

  function Part(age: real, most: real): real {
    if age < most then age else most
  }

  lemma {:induction false} LookupAges(age: real, ttl: real, flight: real)
    requires ttl > 0.0 && flight >= 0.0 && 0.0 <= age < Oldest(false, ttl, flight)
    ensures CanAnswerAt(false, age, ttl, flight)
  {
    var x := Part(age, flight);
    var z := Part(age - x, flight);
    var y := age - x - z;
    LookupAnswers(x, y, z, ttl, flight);
  }

  // A share of what is left that stays below each of two bounds whose sum it stays below.
  lemma {:induction false} Shares(rest: real, a: real, b: real) returns (y: real, w: real)
    requires 0.0 <= rest < a + b && a > 0.0 && b > 0.0
    ensures 0.0 <= y < a && 0.0 <= w < b && y + w == rest
  {
    if rest < b {
      y, w := 0.0, rest;
    } else {
      var gap := (a + b - rest) / 2.0;
      w := if gap < b then b - gap else 0.0;
      y := rest - w;
    }
  }

  lemma {:induction false} CheckAges(age: real, ttl: real, flight: real)
    requires ttl > 0.0 && flight >= 0.0 && 0.0 <= age < Oldest(true, ttl, flight)
    ensures CanAnswerAt(true, age, ttl, flight)
  {
    var x := Part(age, flight);
    var z := Part(age - x, flight);
    var v := Part(age - x - z, flight);
    var y, w := Shares(age - x - z - v, ttl, OUTER_TTL);
    CheckAnswers(x, y, z, w, v, ttl, flight);
  }

  lemma {:induction false} NoneOlder(
      source: Member, t: System, i: nat, check: bool, age: real, ttl: real, flight: real)
    requires Reaches(source, t, ttl, flight) && AnswersAt(t, i, check, age) && ttl > 0.0 && flight >= 0.0
    ensures age < Oldest(check, ttl, flight)
  {
    var events: seq<Event> :| After(source, events, ttl) == t && AlwaysPrompt(source, events, ttl, flight);
    BoundedStaleness(source, events, ttl, flight, i);
  }

  // Exactly how stale an answer can be: below 60 + ttl seconds plus three flights for a check, below ttl plus two for a
  // lookup, and every age below that occurs.
  lemma {:induction false} AnswerAgesIff(check: bool, age: real, ttl: real, flight: real)
    requires ttl > 0.0 && flight >= 0.0 && age >= 0.0
    ensures CanAnswerAt(check, age, ttl, flight) <==> age < Oldest(check, ttl, flight)
  {
    if age < Oldest(check, ttl, flight) {
      if check { CheckAges(age, ttl, flight); } else { LookupAges(age, ttl, flight); }
    } else if CanAnswerAt(check, age, ttl, flight) {
      var source: Member, t: System, i: nat :| Reaches(source, t, ttl, flight) && AnswersAt(t, i, check, age);
      NoneOlder(source, t, i, check, age, ttl, flight);
    }
  }
}
