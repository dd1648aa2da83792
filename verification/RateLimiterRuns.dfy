/**
 Whole runs of the limiter: its stored tokens and its trimmed deque always tell the same story as the
 complete history of grants, so forgetting, polling, other clients and statistics calls are invisible.
 */
module RateLimiterRuns {
  import opened Common
  import opened RateLimiterSpec
  import opened RateLimiterHistory

  // ================================================================ main results

  // ---------------------------------------------------------------- forgetting

  // Forgetting is harmless when an idle hour refills the bucket, or when nothing is ever granted.
  predicate Forgettable(rule: Rule) {
    rule.burstSize as real <= Accrual(HOUR, rule.requestsPerSecond) ||
    rule.requestsPerMinute <= 0.0 || rule.requestsPerHour <= 0.0
  }

  // Every answer is the one computed from the client's grants alone: other clients, statistics calls,
  // denied calls and forgotten buckets leave no trace.
  lemma LimiterRefinesHistory(cfg: Config, run: seq<Event>, i: nat, rule: Rule, forgets: bool)
    requires i < |run| && run[i].Ask?
    requires Monotone(run) && Governs(cfg, run, run[i].client, rule) && Sound(rule)
    requires forgets ==> Forgettable(rule)
    ensures var h := Grants(cfg, run[..i], run[i].client, forgets);
            VerdictAt(cfg, run, i, forgets) == HistoryVerdict(h, rule, run[i].cost, run[i].now) &&
            OutcomeAt(cfg, run, i, forgets) == HistoryOutcome(h, rule, run[i].cost, run[i].now)
  {
    WindowReady(cfg, run, i, rule, forgets);
    LevelReady(cfg, run, i, rule, forgets);
    CheckRefinesHistory(Ready(After(cfg, run[..i], forgets), run[i], forgets), run[i].client, rule,
                        Grants(cfg, run[..i], run[i].client, forgets), run[i].cost, run[i].now);
  }

  // One and the same answer to every call by every client under this rule, with the cleanup on or off.
  ghost predicate ForgettingInvisible(rule: Rule) {
    forall cfg: Config, run: seq<Event>, i: nat ::
      i < |run| && run[i].Ask? && Monotone(run) && Governs(cfg, run, run[i].client, rule) ==>
      OutcomeAt(cfg, run, i, true) == OutcomeAt(cfg, run, i, false)
  }

  // The exact condition under which forgetting idle clients can never be noticed.
  lemma ForgettingInvisibleIff(rule: Rule)
    requires Sound(rule)
    ensures ForgettingInvisible(rule) <==> Forgettable(rule)
  {
    if Forgettable(rule) {
      forall cfg: Config, run: seq<Event>, i: nat
        | i < |run| && run[i].Ask? && Monotone(run) && Governs(cfg, run, run[i].client, rule)
        ensures OutcomeAt(cfg, run, i, true) == OutcomeAt(cfg, run, i, false)
      {
        LimiterRefinesHistory(cfg, run, i, rule, true);
        LimiterRefinesHistory(cfg, run, i, rule, false);
        SameGrants(cfg, run[..i], run[i].client, rule);
      }
    } else {
      ComebackIsSeen(rule);
      var cfg, run := Config([], rule, 0.0), Comeback(rule);
      assert OutcomeAt(cfg, run, 1, true) != OutcomeAt(cfg, run, 1, false);
    }
  }

  lemma {:induction false} SameGrants(cfg: Config, run: seq<Event>, client: string, rule: Rule)
    requires Monotone(run) && Governs(cfg, run, client, rule) && Sound(rule) && Forgettable(rule)
    ensures Grants(cfg, run, client, true) == Grants(cfg, run, client, false)
  {
    if run != [] {
      var n := |run| - 1;
      SameGrants(cfg, run[..n], client, rule);
      if run[n].Ask? && run[n].client == client {
        LimiterRefinesHistory(cfg, run, n, rule, true);
        LimiterRefinesHistory(cfg, run, n, rule, false);
      }
    }
  }

  // A run in which forgetting is seen: spend the whole burst, come back after a bit more than an hour.
  function Comeback(rule: Rule): seq<Event>
    requires Sound(rule)
  {
    var later := (HOUR + rule.burstSize as real / rule.requestsPerSecond) / 2.0;
    [Ask("client", rule.clientType, rule.burstSize, 0.0), Ask("client", rule.clientType, rule.burstSize, later)]
  }

  lemma {:induction false} ComebackIsSeen(rule: Rule)
    requires Sound(rule) && !Forgettable(rule)
    ensures var cfg, run := Config([], rule, 0.0), Comeback(rule);
            Monotone(run) && Governs(cfg, run, "client", rule) &&
            VerdictAt(cfg, run, 0, true) == Granted &&
            VerdictAt(cfg, run, 1, true) == Granted && VerdictAt(cfg, run, 1, false) == BurstDenied &&
            run[1].now > HOUR && Accrual(run[1].now, rule.requestsPerSecond) < rule.burstSize as real
  {
    var cfg, run := Config([], rule, 0.0), Comeback(rule);
    var later, burst, rate := run[1].now, rule.burstSize as real, rule.requestsPerSecond;
    FullTime(burst, rate);
    var l0 := Limiter(map[], 0.0);
    assert run[..0] == [] && After(cfg, run[..0], true) == l0 == After(cfg, run[..0], false);
    var spent := Bucket(0.0, 0.0, [0.0], 1);
    assert DropBefore([], 0.0 - HOUR) == [] && [] + [0.0] == [0.0];
    assert Decide(Bucket(burst, 0.0, [], 0), rule, rule.burstSize, 0.0) == (spent, Granted);
    assert Check(l0, "client", rule, rule.burstSize, 0.0).0 == Limiter(map["client" := spent], 0.0);
    assert run[..1][..0] == [];
    assert After(cfg, run[..1], true) == Limiter(map["client" := spent], 0.0) == After(cfg, run[..1], false);
    assert Forget(After(cfg, run[..1], true), later) == Limiter(map[], later);
    assert Refill(spent, rule, later).tokens == Accrual(later, rate);
  }

  // ---------------------------------------------------------------- budgets

  // Over every interval a client is granted at most the burst plus the refill of the interval.
  ghost predicate IntervalBounded(rule: Rule) {
    forall cfg: Config, run: seq<Event>, client: string, s: real, t: real ::
      Monotone(run) && Governs(cfg, run, client, rule) && s <= t ==>
      CostWithin(Grants(cfg, run, client, true), s, t) as real
        <= rule.burstSize as real + Accrual(t - s, rule.requestsPerSecond)
  }

  // The exact condition under which the burst-plus-rate bound holds over every interval of every run.
  lemma IntervalBoundedIff(rule: Rule)
    requires Sound(rule)
    ensures IntervalBounded(rule) <==> Forgettable(rule)
  {
    if Forgettable(rule) {
      forall cfg: Config, run: seq<Event>, client: string, s: real, t: real
        | Monotone(run) && Governs(cfg, run, client, rule) && s <= t
        ensures CostWithin(Grants(cfg, run, client, true), s, t) as real
             <= rule.burstSize as real + Accrual(t - s, rule.requestsPerSecond)
      {
        RunBudget(cfg, run, client, rule, s, t);
      }
    } else {
      ComebackIsSeen(rule);
      ComebackOverspends(rule);
      var cfg, run := Config([], rule, 0.0), Comeback(rule);
      assert run[1].now - 0.0 == run[1].now;
      assert CostWithin(Grants(cfg, run, "client", true), 0.0, run[1].now) as real
           > rule.burstSize as real + Accrual(run[1].now - 0.0, rule.requestsPerSecond);
    }
  }

  lemma {:induction false} RunBudget(cfg: Config, run: seq<Event>, client: string, rule: Rule, s: real, t: real)
    requires Monotone(run) && Governs(cfg, run, client, rule) && s <= t
    requires Sound(rule) && Forgettable(rule)
    ensures CostWithin(Grants(cfg, run, client, true), s, t) as real
         <= rule.burstSize as real + Accrual(t - s, rule.requestsPerSecond)
  {
    var h := Grants(cfg, run, client, true);
    var now := if run == [] then 0.0 else run[|run| - 1].now;
    WindowsTrackHistory(cfg, run, client, rule, now, true);
    TokensTrackHistory(cfg, run, client, rule, now, true);
    IntervalBudget(h, rule, s, t, now);
  }

  lemma {:induction false} ComebackOverspends(rule: Rule)
    requires Sound(rule) && !Forgettable(rule)
    ensures var run := Comeback(rule);
            CostWithin(Grants(Config([], rule, 0.0), run, "client", true), 0.0, run[1].now) == 2 * rule.burstSize
  {
    var cfg, run := Config([], rule, 0.0), Comeback(rule);
    ComebackIsSeen(rule);
    assert run[..1][..0] == [] && run[..0] == [];
    var first, second := Grant(0.0, rule.burstSize), Grant(run[1].now, rule.burstSize);
    assert Grants(cfg, run[..1], "client", true) == [first];
    assert Grants(cfg, run, "client", true) == [first, second];
    CostOfTwo(first, second);
  }

  ghost predicate InRange(l: Limiter, client: string, rule: Rule) {
    client in l.clients ==> 0.0 <= l.clients[client].tokens <= rule.burstSize as real
  }

  // Stored tokens stay within [0, burst_size], whatever the clock does and whatever is forgotten.
  lemma {:induction false} TokensInRange(cfg: Config, run: seq<Event>, client: string, rule: Rule, forgets: bool)
    requires Governs(cfg, run, client, rule) && rule.requestsPerSecond >= 0.0 && rule.burstSize >= 0
    ensures InRange(After(cfg, run, forgets), client, rule)
  {
    if run != [] {
      var e, l := run[|run| - 1], After(cfg, run[..|run| - 1], forgets);
      TokensInRange(cfg, run[..|run| - 1], client, rule, forgets);
      if e.Ask? && e.client == client {
        CheckKeepsRange(Ready(l, e, forgets), client, rule, e.cost, e.now);
      }
    }
  }

  // ---------------------------------------------------------------- windows

  ghost predicate WindowTracks(l: Limiter, client: string, h: seq<Grant>, now: real) {
    Ordered(Times(h), now) &&
    if client in l.clients then
      var b := l.clients[client];
      b.lastRefill <= now &&
      (forall i :: 0 <= i < |b.window| ==> b.window[i] <= b.lastRefill) &&
      DropBefore(b.window, now - HOUR) == DropBefore(Times(h), now - HOUR)
    else DropBefore(Times(h), now - HOUR) == []
  }

  ghost predicate PacedUnder(h: seq<Grant>, rule: Rule) {
    Paced(Times(h), rule.requestsPerMinute, MINUTE) && Paced(Times(h), rule.requestsPerHour, HOUR)
  }

  ghost predicate Governed(cfg: Config, run: seq<Event>, client: string, rule: Rule, now: real) {
    Monotone(run) && Governs(cfg, run, client, rule) && (run != [] ==> run[|run| - 1].now <= now)
  }

  // In every run the deque agrees with the whole history of grants, and the history keeps both window limits.
  lemma {:induction false} WindowsTrackHistory(cfg: Config, run: seq<Event>, client: string, rule: Rule, now: real,
      forgets: bool)
    requires Governed(cfg, run, client, rule, now)
    ensures WindowTracks(After(cfg, run, forgets), client, Grants(cfg, run, client, forgets), now)
    ensures PacedUnder(Grants(cfg, run, client, forgets), rule)
  {
    if run != [] {
      var e, front := run[|run| - 1], run[..|run| - 1];
      Shorter(cfg, run, client, rule, now);
      WindowsTrackHistory(cfg, front, client, rule, e.now, forgets);
      WindowSteps(cfg, After(cfg, front, forgets), e, client, rule, Grants(cfg, front, client, forgets), forgets);
      GrantsStep(cfg, run, client, forgets);
      WindowAdvances(After(cfg, run, forgets), client, Grants(cfg, run, client, forgets), e.now, now);
    }
  }

  // No closed 60 s interval holds more than requests_per_minute grants, no closed 3600 s interval more than
  // requests_per_hour, rounded up when they are not whole; whatever is forgotten and however often statistics are read.
  lemma WindowLimitsHold(cfg: Config, run: seq<Event>, client: string, rule: Rule, s: real)
    requires Monotone(run) && Governs(cfg, run, client, rule)
    ensures var times := Times(Grants(cfg, run, client, true));
            var minute, hour := CountWithin(times, s, s + MINUTE), CountWithin(times, s, s + HOUR);
            (minute > 0 ==> (minute - 1) as real < rule.requestsPerMinute) &&
            (hour > 0 ==> (hour - 1) as real < rule.requestsPerHour)
  {
    WindowsTrackHistory(cfg, run, client, rule, if run == [] then 0.0 else run[|run| - 1].now, true);
    PacedWindows(Grants(cfg, run, client, true), rule, s);
  }

  // The window decision taken on the deque is the one counted over the whole history of grants.
  lemma {:induction false} WindowDecisionCountsHistory(cfg: Config, run: seq<Event>, i: nat, rule: Rule)
    requires i < |run| && run[i].Ask?
    requires Monotone(run) && Governs(cfg, run, run[i].client, rule)
    requires VerdictAt(cfg, run, i, true) != BurstDenied
    ensures var times := Times(Grants(cfg, run[..i], run[i].client, true));
            VerdictAt(cfg, run, i, true) == Granted <==>
              CountSince(times, run[i].now - MINUTE) as real < rule.requestsPerMinute &&
              CountSince(times, run[i].now - HOUR) as real < rule.requestsPerHour
  {
    WindowReady(cfg, run, i, rule, true);
    WindowsJudgedByHistory(Ready(After(cfg, run[..i], true), run[i], true), run[i].client, rule,
                           Grants(cfg, run[..i], run[i].client, true), run[i].cost, run[i].now);
  }

  // ---------------------------------------------------------------- hints

  // Every call by the client between the i-th and the j-th event is denied.
  ghost predicate DeniedBetween(cfg: Config, run: seq<Event>, client: string, i: nat, j: nat, forgets: bool)
    requires j <= |run|
  {
    forall k {:trigger run[k].Ask?} :: i < k < j && run[k].Ask? && run[k].client == client ==>
      VerdictAt(cfg, run, k, forgets) != Granted
  }

  // After a burst denial, however often the client polls in vain and whatever is forgotten, the token check passes
  // from the hinted time on, provided the cost fits the bucket at all.
  lemma {:induction false} BurstHintHolds(cfg: Config, run: seq<Event>, i: nat, j: nat, rule: Rule, forgets: bool)
    requires i < j < |run| && run[i].Ask? && run[j].Ask? && run[i].client == run[j].client
    requires Monotone(run) && Governs(cfg, run, run[i].client, rule) && Sound(rule)
    requires run[i].cost <= rule.burstSize && run[j].cost <= run[i].cost
    requires VerdictAt(cfg, run, i, forgets) == BurstDenied
    requires DeniedBetween(cfg, run, run[i].client, i, j, forgets)
    requires run[j].now >= OutcomeAt(cfg, run, i, forgets).status.resetTime
    ensures VerdictAt(cfg, run, j, forgets) != BurstDenied
  {
    var found := Found(cfg, run, i, rule, forgets);
    var l := After(cfg, run[..j], forgets);
    DenialsTakeNothing(cfg, run, i, j, rule, forgets);
    WaitRefills(run[i].cost as real - found, rule.requestsPerSecond, run[j].now - run[i].now);
    EnoughAfterForgetting(l, run[j], run[j].client, rule, run[i].cost, forgets);
  }

  // How many of the client's grants among the first n events lie in the window of this width that ends at t.
  function GrantsWithin(
      cfg: Config, run: seq<Event>, n: nat, client: string, t: real, width: real, forgets: bool): nat
    requires n <= |run|
  {
    CountSince(Times(Grants(cfg, run[..n], client, forgets)), t - width)
  }

  // The i-th call is denied by the hour window.
  predicate DeniedByHour(cfg: Config, run: seq<Event>, i: nat, rule: Rule, forgets: bool) {
    i < |run| && run[i].Ask? && VerdictAt(cfg, run, i, forgets).WindowDenied? &&
    GrantsWithin(cfg, run, i, run[i].client, run[i].now, MINUTE, forgets) as real < rule.requestsPerMinute
  }

  // After an hour-window denial, a later call strictly after the hinted time, with only denials in between, finds the
  // hour count below the limit, exactly when the limit is positive.
  lemma {:induction false} HourHintHolds(cfg: Config, run: seq<Event>, i: nat, j: nat, rule: Rule, forgets: bool)
    requires DeniedByHour(cfg, run, i, rule, forgets)
    requires i < j < |run| && run[j].Ask? && run[i].client == run[j].client
    requires Monotone(run) && Governs(cfg, run, run[i].client, rule)
    requires DeniedBetween(cfg, run, run[i].client, i, j, forgets)
    requires run[j].now > VerdictAt(cfg, run, i, forgets).at
    ensures GrantsWithin(cfg, run, j, run[j].client, run[j].now, HOUR, forgets) as real < rule.requestsPerHour <==>
      rule.requestsPerHour > 0.0
  {
    HourHintSince(cfg, run, i, rule, run[j].now, forgets);
    SameCount(cfg, run, run[i].client, i, j, run[j].now, forgets);
  }

  // ================================================================ proofs

  // ---------------------------------------------------------------- the deque and the history

  lemma WindowAdvances(l: Limiter, client: string, h: seq<Grant>, now: real, later: real)
    ensures WindowTracks(l, client, h, now) && now <= later ==> WindowTracks(l, client, h, later)
  {
    DropTwice(Times(h), now - HOUR, later - HOUR);
    if client in l.clients {
      DropTwice(l.clients[client].window, now - HOUR, later - HOUR);
    }
  }

  lemma WindowForgets(l: Limiter, client: string, h: seq<Grant>, now: real)
    requires WindowTracks(l, client, h, now)
    ensures WindowTracks(Forget(l, now), client, h, now)
  {
    if client in l.clients && client !in Forget(l, now).clients {
      DropAll(l.clients[client].window, now - HOUR);
    }
  }

  lemma {:induction false} DropKeepsBound(w: seq<real>, t: real, bound: real)
    requires forall i :: 0 <= i < |w| ==> w[i] <= bound
    ensures forall i :: 0 <= i < |DropBefore(w, t)| ==> DropBefore(w, t)[i] <= bound
  {
    var k := DropSplit(w, t);
  }

  lemma {:induction false} TimesAppend(h: seq<Grant>, g: Grant, now: real)
    ensures Ordered(Times(h), now) && now <= g.time ==>
      Times(h + [g]) == Times(h) + [g.time] && Ordered(Times(h + [g]), g.time)
  {
    assert Times(h + [g]) == Times(h) + [g.time];
  }

  function Extended(h: seq<Grant>, v: Verdict, cost: int, now: real): seq<Grant> {
    if v == Granted then h + [Grant(now, cost)] else h
  }

  lemma WindowChecks(l: Limiter, client: string, rule: Rule, h: seq<Grant>, cost: int, now: real)
    requires WindowTracks(l, client, h, now)
    ensures var (l', v, _) := Check(l, client, rule, cost, now);
            WindowTracks(l', client, Extended(h, v, cost, now), now)
  {
    var b := BucketOf(l, client, rule, now);
    var (b', v) := Decide(b, rule, cost, now);
    DropKeepsBound(b.window, now - HOUR, now);
    DropTwice(b.window, now - HOUR, now - HOUR);
    if v == Granted {
      DropAppend(DropBefore(b.window, now - HOUR), now, now - HOUR);
      DropAppend(Times(h), now, now - HOUR);
      TimesAppend(h, Grant(now, cost), now);
    }
  }

  lemma WindowTrims(l: Limiter, client: string, who: string, h: seq<Grant>, now: real)
    requires WindowTracks(l, client, h, now)
    ensures WindowTracks(Trim(l, who, now), client, h, now)
  {
    if who == client && client in l.clients {
      DropKeepsBound(l.clients[client].window, now - HOUR, l.clients[client].lastRefill);
      DropTwice(l.clients[client].window, now - HOUR, now - HOUR);
    }
  }

  // The window decision taken on the deque is the one counted over the whole history.
  lemma WindowsJudgedByHistory(l: Limiter, client: string, rule: Rule, h: seq<Grant>, cost: int, now: real)
    requires WindowTracks(l, client, h, now)
    requires Check(l, client, rule, cost, now).1 != BurstDenied
    ensures Check(l, client, rule, cost, now).1 == Granted <==>
              CountSince(Times(h), now - MINUTE) as real < rule.requestsPerMinute &&
              CountSince(Times(h), now - HOUR) as real < rule.requestsPerHour
  {
    TrimmedCounts(Times(h), now - HOUR, now - MINUTE, now);
  }

  lemma {:induction false} PacedAppend(times: seq<real>, x: real, limit: real, width: real)
    ensures Paced(times, limit, width) && CountSince(times, x - width) as real < limit ==>
      Paced(times + [x], limit, width)
  {
    assert (times + [x])[..|times|] == times;
  }

  lemma GrantIsPaced(l: Limiter, client: string, rule: Rule, h: seq<Grant>, cost: int, now: real)
    requires WindowTracks(l, client, h, now) && PacedUnder(h, rule)
    ensures PacedUnder(Extended(h, Check(l, client, rule, cost, now).1, cost, now), rule)
  {
    if Check(l, client, rule, cost, now).1 == Granted {
      WindowsJudgedByHistory(l, client, rule, h, cost, now);
      PacedAppend(Times(h), now, rule.requestsPerMinute, MINUTE);
      PacedAppend(Times(h), now, rule.requestsPerHour, HOUR);
      TimesAppend(h, Grant(now, cost), now);
    }
  }

  // The run without its last event is governed up to that event.
  lemma Shorter(cfg: Config, run: seq<Event>, client: string, rule: Rule, now: real)
    ensures Governed(cfg, run, client, rule, now) && run != [] ==>
      Governed(cfg, run[..|run| - 1], client, rule, run[|run| - 1].now)
  {
  }

  // The client's history after one more event.
  function NextHistory(cfg: Config, l: Limiter, h: seq<Grant>, e: Event, client: string, forgets: bool): seq<Grant> {
    if e.Ask? && e.client == client
    then Extended(h, Check(Ready(l, e, forgets), client, cfg.RuleOf(e), e.cost, e.now).1, e.cost, e.now)
    else h
  }

  lemma GrantsStep(cfg: Config, run: seq<Event>, client: string, forgets: bool)
    ensures run != [] ==>
      var front, e := run[..|run| - 1], run[|run| - 1];
        Grants(cfg, run, client, forgets) ==
        NextHistory(cfg, After(cfg, front, forgets), Grants(cfg, front, client, forgets), e, client, forgets)
  {
  }

  lemma WindowSteps(cfg: Config, l: Limiter, e: Event, client: string, rule: Rule, h: seq<Grant>, forgets: bool)
    requires WindowTracks(l, client, h, e.now) && PacedUnder(h, rule)
    requires e.Ask? && e.client == client ==> cfg.RuleOf(e) == rule
    ensures var h' := NextHistory(cfg, l, h, e, client, forgets);
            WindowTracks(Step(cfg, l, e, forgets), client, h', e.now) && PacedUnder(h', rule)
  {
    var r := Ready(l, e, forgets);
    WindowForgets(l, client, h, e.now);
    if e.Stats? {
      WindowTrims(r, client, e.client, h, e.now);
    } else if e.client == client {
      WindowChecks(r, client, rule, h, e.cost, e.now);
      GrantIsPaced(r, client, rule, h, e.cost, e.now);
    }
  }

  // ---------------------------------------------------------------- the tokens and the history

  // The tokens a call would find after its refill.
  function Available(l: Limiter, client: string, rule: Rule, now: real): real {
    Refill(BucketOf(l, client, rule, now), rule, now).tokens
  }

  ghost predicate LevelTracks(l: Limiter, client: string, rule: Rule, h: seq<Grant>, now: real) {
    Available(l, client, rule, now) == Level(h, rule, now) &&
    (client in l.clients ==>
      var b := l.clients[client];
      b.lastRefill <= now && 0.0 <= b.tokens <= rule.burstSize as real)
  }

  lemma LevelAdvancesInStore(l: Limiter, client: string, rule: Rule, h: seq<Grant>, now: real, later: real)
    ensures LevelTracks(l, client, rule, h, now) && now <= later && Sound(rule) ==>
      LevelTracks(l, client, rule, h, later)
  {
    LevelAdvances(h, rule, now, later);
    Grows(later - now, rule.requestsPerSecond);
    if client in l.clients {
      var b := l.clients[client];
      Grows(now - b.lastRefill, rule.requestsPerSecond);
      Distribute(now - b.lastRefill, later - now, rule.requestsPerSecond);
      assert (now - b.lastRefill) + (later - now) == later - b.lastRefill;
    }
  }

  lemma {:induction false} LevelForgets(l: Limiter, client: string, rule: Rule, h: seq<Grant>, now: real)
    ensures
      LevelTracks(l, client, rule, h, now) && Sound(rule) &&
      (rule.burstSize as real <= Accrual(HOUR, rule.requestsPerSecond) || h == []) ==>
      LevelTracks(Forget(l, now), client, rule, h, now)
  {
    if client in l.clients && client !in Forget(l, now).clients {
      var idle := now - l.clients[client].lastRefill;
      Distribute(HOUR, idle - HOUR, rule.requestsPerSecond);
      Grows(idle - HOUR, rule.requestsPerSecond);
      assert HOUR + (idle - HOUR) == idle;
    }
  }

  lemma {:induction false} NoTimeNoTokens(rate: real)
    ensures Accrual(0.0, rate) == 0.0
  {
  }

  // The refilled bucket is dated now and holds what is available.
  lemma {:induction false} RefillNow(b: Bucket, rule: Rule, now: real)
    requires b.lastRefill <= now && 0.0 <= b.tokens <= rule.burstSize as real && Sound(rule)
    ensures var full := Refill(b, rule, now);
      full.lastRefill == now && 0.0 <= full.tokens <= rule.burstSize as real && Refill(full, rule, now) == full
  {
    Grows(now - b.lastRefill, rule.requestsPerSecond);
  }

  lemma {:induction false} LevelAfterSpending(h: seq<Grant>, rule: Rule, g: Grant)
    requires g.cost >= 0
    ensures Level(h + [g], rule, g.time) == Level(h, rule, g.time) - g.cost as real
  {
    assert (h + [g])[..|h|] == h;
    NoTimeNoTokens(rule.requestsPerSecond);
    LevelAtMostBurst(h, rule, g.time);
  }

  // What a call leaves in the bucket: the refilled tokens, less the cost if it is granted.
  lemma {:induction false} CheckLeaves(l: Limiter, client: string, rule: Rule, cost: int, now: real)
    requires var b := BucketOf(l, client, rule, now);
      b.lastRefill <= now && 0.0 <= b.tokens <= rule.burstSize as real && Sound(rule)
    ensures var (l', v, _) := Check(l, client, rule, cost, now);
      client in l'.clients && l'.clients[client].lastRefill == now &&
      l'.clients[client].tokens == Available(l, client, rule, now) - (if v == Granted then cost as real else 0.0) &&
      0.0 <= Available(l, client, rule, now) <= rule.burstSize as real &&
      (v == Granted ==> cost as real <= Available(l, client, rule, now))
  {
    RefillNow(BucketOf(l, client, rule, now), rule, now);
  }

  lemma {:induction false} LevelChecks(l: Limiter, client: string, rule: Rule, h: seq<Grant>, cost: int, now: real)
    requires LevelTracks(l, client, rule, h, now) && Sound(rule) && cost >= 0
    ensures var (l', v, _) := Check(l, client, rule, cost, now);
            LevelTracks(l', client, rule, Extended(h, v, cost, now), now) &&
            (v == Granted ==> cost as real <= Level(h, rule, now))
  {
    CheckLeaves(l, client, rule, cost, now);
    LevelAfterSpending(h, rule, Grant(now, cost));
  }

  // What does not touch the tokens of a bucket leaves its level.
  lemma {:induction false} LevelUndisturbed(
      l: Limiter, l': Limiter, client: string, rule: Rule, h: seq<Grant>, now: real)
    ensures
      (LevelTracks(l, client, rule, h, now) && (client in l.clients <==> client in l'.clients)) &&
      (client in l.clients ==>
        l'.clients[client].tokens == l.clients[client].tokens &&
        l'.clients[client].lastRefill == l.clients[client].lastRefill) ==>
      LevelTracks(l', client, rule, h, now)
  {
  }

  lemma {:induction false} AffordableMore(h: seq<Grant>, rule: Rule, g: Grant)
    ensures Affordable(h, rule) && 0 <= g.cost && g.cost as real <= Level(h, rule, g.time) ==> Affordable(h + [g], rule)
  {
    assert (h + [g])[..|h|] == h;
  }

  lemma {:induction false} LevelSteps(cfg: Config, l: Limiter, e: Event, client: string, rule: Rule, h: seq<Grant>,
      forgets: bool)
    requires LevelTracks(l, client, rule, h, e.now) && Sound(rule) && Affordable(h, rule)
    requires e.Ask? && e.client == client ==> cfg.RuleOf(e) == rule && e.cost >= 0
    requires forgets ==> rule.burstSize as real <= Accrual(HOUR, rule.requestsPerSecond) || h == []
    ensures var h' := NextHistory(cfg, l, h, e, client, forgets);
            LevelTracks(Step(cfg, l, e, forgets), client, rule, h', e.now) && Affordable(h', rule)
  {
    var r := Ready(l, e, forgets);
    if forgets { LevelForgets(l, client, rule, h, e.now); }
    if e.Ask? && e.client == client {
      LevelChecks(r, client, rule, h, e.cost, e.now);
      if Check(r, client, rule, e.cost, e.now).1 == Granted { AffordableMore(h, rule, Grant(e.now, e.cost)); }
    } else {
      LevelUndisturbed(r, Step(cfg, l, e, forgets), client, rule, h, e.now);
    }
  }

  lemma NoGrantsUnderZeroLimit(times: seq<real>, limit: real, width: real)
    ensures Paced(times, limit, width) && limit <= 0.0 ==> times == []
  {
  }

  // In every run the stored tokens agree with the level computed from the grants alone, and every grant was affordable.
  lemma {:induction false} TokensTrackHistory(cfg: Config, run: seq<Event>, client: string, rule: Rule, now: real,
      forgets: bool)
    requires Governed(cfg, run, client, rule, now) && Sound(rule)
    requires forgets ==> Forgettable(rule)
    ensures LevelTracks(After(cfg, run, forgets), client, rule, Grants(cfg, run, client, forgets), now)
    ensures Affordable(Grants(cfg, run, client, forgets), rule)
  {
    if run != [] {
      var e, front := run[|run| - 1], run[..|run| - 1];
      var h := Grants(cfg, front, client, forgets);
      Shorter(cfg, run, client, rule, now);
      TokensTrackHistory(cfg, front, client, rule, e.now, forgets);
      if forgets { ForgottenIsFull(cfg, front, client, rule, e.now, forgets); }
      LevelSteps(cfg, After(cfg, front, forgets), e, client, rule, h, forgets);
      GrantsStep(cfg, run, client, forgets);
      LevelAdvancesInStore(After(cfg, run, forgets), client, rule, Grants(cfg, run, client, forgets), e.now, now);
    }
  }

  lemma {:induction false} ForgottenIsFull(cfg: Config, run: seq<Event>, client: string, rule: Rule, now: real,
      forgets: bool)
    requires Governed(cfg, run, client, rule, now) && Forgettable(rule)
    ensures rule.burstSize as real <= Accrual(HOUR, rule.requestsPerSecond) || Grants(cfg, run, client, forgets) == []
  {
    var times := Times(Grants(cfg, run, client, forgets));
    WindowsTrackHistory(cfg, run, client, rule, now, forgets);
    if rule.requestsPerMinute <= 0.0 {
      NoGrantsUnderZeroLimit(times, rule.requestsPerMinute, MINUTE);
    } else if rule.requestsPerHour <= 0.0 {
      NoGrantsUnderZeroLimit(times, rule.requestsPerHour, HOUR);
    }
  }

  lemma CheckRefinesHistory(l: Limiter, client: string, rule: Rule, h: seq<Grant>, cost: int, now: real)
    ensures WindowTracks(l, client, h, now) && LevelTracks(l, client, rule, h, now) ==>
      Check(l, client, rule, cost, now).1 == HistoryVerdict(h, rule, cost, now) &&
      Check(l, client, rule, cost, now).2 == HistoryOutcome(h, rule, cost, now)
  {
  }

  // The state in which the i-th call is decided tracks the history before it.
  lemma {:induction false} WindowReady(cfg: Config, run: seq<Event>, i: nat, rule: Rule, forgets: bool)
    requires i < |run| && run[i].Ask?
    requires Monotone(run) && Governs(cfg, run, run[i].client, rule)
    ensures var h, r := Grants(cfg, run[..i], run[i].client, forgets),
        Ready(After(cfg, run[..i], forgets), run[i], forgets);
            WindowTracks(r, run[i].client, h, run[i].now) && PacedUnder(h, rule)
  {
    var client, now, before := run[i].client, run[i].now, run[..i];
    assert Governed(cfg, before, client, rule, now);
    WindowsTrackHistory(cfg, before, client, rule, now, forgets);
    WindowForgets(After(cfg, before, forgets), client, Grants(cfg, before, client, forgets), now);
  }

  lemma {:induction false} LevelReady(cfg: Config, run: seq<Event>, i: nat, rule: Rule, forgets: bool)
    requires i < |run| && run[i].Ask? && Sound(rule) && (forgets ==> Forgettable(rule))
    requires Monotone(run) && Governs(cfg, run, run[i].client, rule)
    ensures var h, r := Grants(cfg, run[..i], run[i].client, forgets),
        Ready(After(cfg, run[..i], forgets), run[i], forgets);
            LevelTracks(r, run[i].client, rule, h, run[i].now)
  {
    var client, now, before := run[i].client, run[i].now, run[..i];
    assert Governed(cfg, before, client, rule, now);
    TokensTrackHistory(cfg, before, client, rule, now, forgets);
    if forgets {
      ForgottenIsFull(cfg, before, client, rule, now, forgets);
      LevelForgets(After(cfg, before, forgets), client, rule, Grants(cfg, before, client, forgets), now);
    }
  }

  // ---------------------------------------------------------------- a run in which forgetting is seen

  lemma {:induction false} FullTime(burst: real, rate: real)
    requires rate > 0.0 && burst > Accrual(HOUR, rate)
    ensures var later := (HOUR + burst / rate) / 2.0; later > HOUR && Accrual(later, rate) < burst
  {
    var full := burst / rate;
    assert Accrual(full, rate) == burst;
    if full <= HOUR {
      Distribute(full, HOUR - full, rate);
      Grows(HOUR - full, rate);
      assert false;
    }
    Distribute(HOUR / 2.0, full / 2.0, rate);
    Distribute(HOUR / 2.0, HOUR / 2.0, rate);
    Distribute(full / 2.0, full / 2.0, rate);
  }

  // ---------------------------------------------------------------- budgets and windows

  lemma {:induction false} CostOfTwo(first: Grant, second: Grant)
    requires first.time <= second.time
    ensures CostWithin([first, second], first.time, second.time) == first.cost + second.cost
  {
    assert [first, second][..1] == [first] && [first][..0] == [];
    assert CostWithin([first], first.time, second.time) == first.cost;
  }

  lemma {:induction false} CheckKeepsRange(l: Limiter, client: string, rule: Rule, cost: int, now: real)
    ensures InRange(l, client, rule) && rule.requestsPerSecond >= 0.0 && rule.burstSize >= 0 && cost >= 0 ==>
      InRange(Check(l, client, rule, cost, now).0, client, rule)
  {
    var b := BucketOf(l, client, rule, now);
    if now - b.lastRefill > 0.0 { Grows(now - b.lastRefill, rule.requestsPerSecond); }
  }

  lemma {:induction false} PacedWindows(h: seq<Grant>, rule: Rule, s: real)
    ensures var minute, hour := CountWithin(Times(h), s, s + MINUTE), CountWithin(Times(h), s, s + HOUR);
      PacedUnder(h, rule) ==>
        (minute > 0 ==> (minute - 1) as real < rule.requestsPerMinute) &&
        (hour > 0 ==> (hour - 1) as real < rule.requestsPerHour)
  {
    if PacedUnder(h, rule) {
      PacedWindow(Times(h), rule.requestsPerMinute, MINUTE, s);
      PacedWindow(Times(h), rule.requestsPerHour, HOUR, s);
    }
  }

  // ---------------------------------------------------------------- hints

  // Since t0 the client could have found at least `level` tokens plus the refill, up to the burst.
  ghost predicate AtLeast(l: Limiter, client: string, rule: Rule, level: real, t0: real, now: real) {
    (client in l.clients ==> l.clients[client].lastRefill <= now) &&
    Available(l, client, rule, now) >=
        RealMin(rule.burstSize as real, level + Accrual(now - t0, rule.requestsPerSecond))
  }

  lemma {:induction false} AtLeastLater(
      l: Limiter, client: string, rule: Rule, level: real, t0: real, now: real, later: real)
    ensures AtLeast(l, client, rule, level, t0, now) && Sound(rule) && now <= later ==>
      AtLeast(l, client, rule, level, t0, later)
  {
    var rate := rule.requestsPerSecond;
    Grows(later - now, rate);
    Distribute(now - t0, later - now, rate);
    assert (now - t0) + (later - now) == later - t0;
    if client in l.clients {
      var last := l.clients[client].lastRefill;
      Distribute(now - last, later - now, rate);
      assert (now - last) + (later - now) == later - last;
    }
  }

  lemma {:induction false} AtLeastForgets(l: Limiter, client: string, rule: Rule, level: real, t0: real, now: real)
    ensures AtLeast(l, client, rule, level, t0, now) ==> AtLeast(Forget(l, now), client, rule, level, t0, now)
  {
  }

  lemma {:induction false} AtLeastDenied(
      l: Limiter, client: string, rule: Rule, cost: int, level: real, t0: real, now: real)
    ensures AtLeast(l, client, rule, level, t0, now) && Check(l, client, rule, cost, now).1 != Granted ==>
      AtLeast(Check(l, client, rule, cost, now).0, client, rule, level, t0, now)
  {
  }

  // Forgetting, statistics, other clients and denied calls take nothing away.
  lemma {:induction false} AtLeastSteps(
      cfg: Config, l: Limiter, e: Event, client: string, rule: Rule, level: real, t0: real, forgets: bool)
    requires AtLeast(l, client, rule, level, t0, e.now)
    requires e.Ask? && e.client == client ==>
      cfg.RuleOf(e) == rule && Check(Ready(l, e, forgets), client, rule, e.cost, e.now).1 != Granted
    ensures AtLeast(Step(cfg, l, e, forgets), client, rule, level, t0, e.now)
  {
    AtLeastForgets(l, client, rule, level, t0, e.now);
    if e.Ask? && e.client == client {
      AtLeastDenied(Ready(l, e, forgets), client, rule, e.cost, level, t0, e.now);
    }
  }

  // What a burst denial left in the bucket.
  function Found(cfg: Config, run: seq<Event>, i: nat, rule: Rule, forgets: bool): real
    requires i < |run|
  {
    Available(Ready(After(cfg, run[..i], forgets), run[i], forgets), run[i].client, rule, run[i].now)
  }

  lemma {:induction false} DeniedLeaves(l: Limiter, client: string, rule: Rule, cost: int, now: real)
    ensures
      (client in l.clients ==> l.clients[client].lastRefill <= now) &&
      Check(l, client, rule, cost, now).1 == BurstDenied ==>
      AtLeast(Check(l, client, rule, cost, now).0, client, rule, Available(l, client, rule, now), now, now)
  {
    assert Accrual(0.0, rule.requestsPerSecond) == 0.0;
  }

  // The bucket right after the denial.
  lemma {:induction false} DenialAt(cfg: Config, run: seq<Event>, i: nat, rule: Rule, forgets: bool)
    requires i < |run| && run[i].Ask?
    requires Monotone(run) && Governs(cfg, run, run[i].client, rule)
    requires VerdictAt(cfg, run, i, forgets) == BurstDenied
    ensures var l, t0 := After(cfg, run[..i], forgets), run[i].now;
      AtLeast(Step(cfg, l, run[i], forgets), run[i].client, rule, Found(cfg, run, i, rule, forgets), t0, t0)
  {
    var client, t0, l := run[i].client, run[i].now, After(cfg, run[..i], forgets);
    WindowReady(cfg, run, i, rule, forgets);
    assert cfg.RuleOf(run[i]) == rule;
    DeniedLeaves(Ready(l, run[i], forgets), client, rule, run[i].cost, t0);
  }

  lemma {:induction false} DenialsTakeNothing(
      cfg: Config, run: seq<Event>, i: nat, j: nat, rule: Rule, forgets: bool)
    requires i < j < |run| && run[i].Ask? && Sound(rule)
    requires Monotone(run) && Governs(cfg, run, run[i].client, rule)
    requires VerdictAt(cfg, run, i, forgets) == BurstDenied
    requires DeniedBetween(cfg, run, run[i].client, i, j, forgets)
    ensures var t0 := run[i].now;
      AtLeast(After(cfg, run[..j], forgets), run[i].client, rule, Found(cfg, run, i, rule, forgets), t0, run[j].now)
    decreases j
  {
    var client, k, t0, found := run[i].client, j - 1, run[i].now, Found(cfg, run, i, rule, forgets);
    assert run[..j][..k] == run[..k];
    if k == i {
      DenialAt(cfg, run, i, rule, forgets);
    } else {
      DenialsTakeNothing(cfg, run, i, k, rule, forgets);
      AtLeastSteps(cfg, After(cfg, run[..k], forgets), run[k], client, rule, found, t0, forgets);
    }
    AtLeastLater(After(cfg, run[..j], forgets), client, rule, found, t0, run[k].now, run[j].now);
  }

  lemma {:induction false} EnoughAfterForgetting(
      l: Limiter, e: Event, client: string, rule: Rule, cost: int, forgets: bool)
    ensures Available(l, client, rule, e.now) >= cost as real && cost <= rule.burstSize ==>
      Available(Ready(l, e, forgets), client, rule, e.now) >= cost as real
  {
  }

  // What an hour-window denial hints at.
  lemma {:induction false} HourDenial(l: Limiter, client: string, rule: Rule, h: seq<Grant>, cost: int, now: real)
    requires WindowTracks(l, client, h, now)
    requires CountSince(Times(h), now - MINUTE) as real < rule.requestsPerMinute
    requires Check(l, client, rule, cost, now).1.WindowDenied?
    ensures HourHinted(Times(h), rule, now, Check(l, client, rule, cost, now).1.at)
  {
    TrimmedCounts(Times(h), now - HOUR, now - MINUTE, now);
  }

  predicate HourHinted(times: seq<real>, rule: Rule, now: real, at: real) {
    var recent := DropBefore(times, now - HOUR);
    at == (if recent != [] then recent[0] else now) + HOUR && |recent| as real >= rule.requestsPerHour
  }

  lemma {:induction false} HourHint(times: seq<real>, rule: Rule, now: real, at: real, later: real)
    requires Ordered(times, now) && Paced(times, rule.requestsPerHour, HOUR)
    requires HourHinted(times, rule, now, at) && later > at && now <= later
    ensures CountSince(times, later - HOUR) as real < rule.requestsPerHour <==> rule.requestsPerHour > 0.0
  {
    TrimmedCounts(times, later - HOUR, later - HOUR, now);
    if rule.requestsPerHour > 0.0 {
      HourHintSuffices(times, rule, now, later);
    }
  }

  // An hour-window denial at this state, and a time strictly after the hinted one.
  ghost predicate PastHourHint(
      l: Limiter, client: string, rule: Rule, h: seq<Grant>, cost: int, now: real, later: real)
  {
    CountSince(Times(h), now - MINUTE) as real < rule.requestsPerMinute &&
    var v := Check(l, client, rule, cost, now).1;
    v.WindowDenied? && later > v.at && later >= now
  }

  lemma {:induction false} HourHintAt(
      l: Limiter, client: string, rule: Rule, h: seq<Grant>, cost: int, now: real, later: real)
    ensures
      WindowTracks(l, client, h, now) && PacedUnder(h, rule) && PastHourHint(l, client, rule, h, cost, now, later) ==>
      (CountSince(Times(h), later - HOUR) as real < rule.requestsPerHour <==> rule.requestsPerHour > 0.0)
  {
    if WindowTracks(l, client, h, now) && PacedUnder(h, rule) && PastHourHint(l, client, rule, h, cost, now, later) {
      HourDenial(l, client, rule, h, cost, now);
      HourHint(Times(h), rule, now, Check(l, client, rule, cost, now).1.at, later);
    }
  }

  // What the client has been granted by the first n events.
  predicate HasHistory(cfg: Config, run: seq<Event>, client: string, n: nat, h: seq<Grant>, forgets: bool) {
    n <= |run| && Grants(cfg, run[..n], client, forgets) == h
  }

  // The state in which the i-th call is decided, and what the client had been granted by then.
  ghost predicate DecidedIn(
      cfg: Config, run: seq<Event>, i: nat, rule: Rule, forgets: bool, l: Limiter, h: seq<Grant>)
  {
    i < |run| && run[i].Ask? && cfg.RuleOf(run[i]) == rule && HasHistory(cfg, run, run[i].client, i, h, forgets) &&
    l == Ready(After(cfg, run[..i], forgets), run[i], forgets)
  }

  lemma {:induction false} DecidedInTracks(
      cfg: Config, run: seq<Event>, i: nat, rule: Rule, forgets: bool, l: Limiter, h: seq<Grant>)
    requires DecidedIn(cfg, run, i, rule, forgets, l, h)
    requires Monotone(run) && Governs(cfg, run, run[i].client, rule)
    ensures WindowTracks(l, run[i].client, h, run[i].now) && PacedUnder(h, rule)
  {
    WindowReady(cfg, run, i, rule, forgets);
  }

  lemma {:induction false} DeniedByHourIn(
      cfg: Config, run: seq<Event>, i: nat, rule: Rule, forgets: bool, l: Limiter, h: seq<Grant>)
    ensures
      DecidedIn(cfg, run, i, rule, forgets, l, h) && DeniedByHour(cfg, run, i, rule, forgets) ==>
      var v := Check(l, run[i].client, rule, run[i].cost, run[i].now).1;
        v == VerdictAt(cfg, run, i, forgets) && v.WindowDenied? &&
        CountSince(Times(h), run[i].now - MINUTE) as real < rule.requestsPerMinute
  {
  }

  // After an hour-window denial, while no further grant is made, the hour count is below the limit at every time
  // strictly after the hinted one, exactly when the limit is positive.
  lemma {:induction false} HourHintSince(
      cfg: Config, run: seq<Event>, i: nat, rule: Rule, later: real, forgets: bool)
    requires DeniedByHour(cfg, run, i, rule, forgets)
    requires Monotone(run) && Governs(cfg, run, run[i].client, rule)
    ensures later > VerdictAt(cfg, run, i, forgets).at && later >= run[i].now ==>
      (GrantsWithin(cfg, run, i, run[i].client, later, HOUR, forgets) as real < rule.requestsPerHour <==>
       rule.requestsPerHour > 0.0)
  {
    var e := run[i];
    var h, l := Grants(cfg, run[..i], e.client, forgets), Ready(After(cfg, run[..i], forgets), e, forgets);
    DecidedInTracks(cfg, run, i, rule, forgets, l, h);
    DeniedByHourIn(cfg, run, i, rule, forgets, l, h);
    HourHintAt(l, e.client, rule, h, e.cost, e.now, later);
  }

  lemma {:induction false} DenialGrantsNothing(cfg: Config, run: seq<Event>, client: string, k: nat, forgets: bool)
    requires k < |run|
    ensures (run[k].Ask? && run[k].client == client ==> VerdictAt(cfg, run, k, forgets) != Granted) ==>
      Grants(cfg, run[..k + 1], client, forgets) == Grants(cfg, run[..k], client, forgets)
  {
    assert run[..k + 1][..k] == run[..k];
    GrantsStep(cfg, run[..k + 1], client, forgets);
  }

  lemma {:induction false} EventGrantsNothing(
      cfg: Config, run: seq<Event>, client: string, i: nat, j: nat, k: nat, forgets: bool)
    ensures i < k < j <= |run| && DeniedBetween(cfg, run, client, i, j, forgets) ==>
      Grants(cfg, run[..k + 1], client, forgets) == Grants(cfg, run[..k], client, forgets)
  {
    if i < k < j <= |run| && DeniedBetween(cfg, run, client, i, j, forgets) {
      assert run[k].Ask? && run[k].client == client ==> VerdictAt(cfg, run, k, forgets) != Granted;
      DenialGrantsNothing(cfg, run, client, k, forgets);
    }
  }

  lemma {:induction false} EventKeepsHistory(
      cfg: Config, run: seq<Event>, client: string, i: nat, j: nat, k: nat, h: seq<Grant>, forgets: bool)
    ensures
      i < k < j <= |run| && DeniedBetween(cfg, run, client, i, j, forgets) &&
      HasHistory(cfg, run, client, k, h, forgets) ==>
      HasHistory(cfg, run, client, k + 1, h, forgets)
  {
    EventGrantsNothing(cfg, run, client, i, j, k, forgets);
  }

  // Denied calls add nothing to the history h.
  lemma {:induction false} DenialsGrantNothing(
      cfg: Config, run: seq<Event>, client: string, i: nat, k: nat, j: nat, h: seq<Grant>, forgets: bool)
    ensures
      i < k <= j <= |run| && DeniedBetween(cfg, run, client, i, j, forgets) &&
      HasHistory(cfg, run, client, k, h, forgets) ==>
      HasHistory(cfg, run, client, j, h, forgets)
    decreases j - k
  {
    if k < j {
      EventKeepsHistory(cfg, run, client, i, j, k, h, forgets);
      DenialsGrantNothing(cfg, run, client, i, k + 1, j, h, forgets);
    }
  }

  lemma {:induction false} SameCount(
      cfg: Config, run: seq<Event>, client: string, i: nat, j: nat, t: real, forgets: bool)
    requires i < j <= |run| && run[i].Ask? && run[i].client == client && VerdictAt(cfg, run, i, forgets) != Granted
    requires DeniedBetween(cfg, run, client, i, j, forgets)
    ensures GrantsWithin(cfg, run, j, client, t, HOUR, forgets) == GrantsWithin(cfg, run, i, client, t, HOUR, forgets)
  {
    DenialGrantsNothing(cfg, run, client, i, forgets);
    var h := Grants(cfg, run[..i + 1], client, forgets);
    DenialsGrantNothing(cfg, run, client, i, i + 1, j, h, forgets);
    assert HasHistory(cfg, run, client, j, h, forgets);
  }
}
