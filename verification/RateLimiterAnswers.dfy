/**
 What the fields of an answer mean: against the grants of the run, the bucket stored after the call, and the times
 at which that bucket has enough again.
 */
module RateLimiterAnswers {
  import opened Common
  import opened RateLimiterSpec
  import opened RateLimiterHistory
  import opened RateLimiterRuns

  // ================================================================ main results

  // A call whose answer is looked at: by a client under this rule, in a run on a monotone clock.
  ghost predicate Asked(cfg: Config, run: seq<Event>, i: nat, rule: Rule) {
    i < |run| && run[i].Ask? && Monotone(run) && Governs(cfg, run, run[i].client, rule) && Sound(rule)
  }

  // n is x without its fraction, for x that is not negative.
  predicate WholePart(n: int, x: real) {
    0 <= n && n as real <= x < n as real + 1.0
  }

  // What the client had been granted before the i-th call, and what after it.
  function Before(cfg: Config, run: seq<Event>, i: nat, forgets: bool): seq<Grant>
    requires i < |run|
  {
    Grants(cfg, run[..i], run[i].client, forgets)
  }

  function Since(cfg: Config, run: seq<Event>, i: nat, forgets: bool): seq<Grant>
    requires i < |run|
  {
    Grants(cfg, run[..i + 1], run[i].client, forgets)
  }

  // Every call is answered, and allowed exactly when it is added to the client's grants.
  lemma {:induction false} AllowedIffGranted(cfg: Config, run: seq<Event>, i: nat, rule: Rule, forgets: bool)
    requires Asked(cfg, run, i, rule)
    ensures var o := OutcomeAt(cfg, run, i, forgets);
      o.Answer? &&
      Since(cfg, run, i, forgets) ==
        Before(cfg, run, i, forgets) + (if o.status.allowed then [Grant(run[i].now, run[i].cost)] else [])
  {
    assert cfg.RuleOf(run[i]) == rule;
    GrantsStep(cfg, run[..i + 1], run[i].client, forgets);
    assert run[..i + 1][..i] == run[..i];
    AnswerShape(Ready(After(cfg, run[..i], forgets), run[i], forgets), run[i].client, rule, run[i].cost, run[i].now);
  }

  // The window counts of the client's grants before the i-th call.
  predicate MinuteFull(cfg: Config, run: seq<Event>, i: nat, rule: Rule, forgets: bool)
    requires i < |run|
  {
    CountSince(Times(Before(cfg, run, i, forgets)), run[i].now - 60.0) as real >= rule.requestsPerMinute
  }

  predicate HourFull(cfg: Config, run: seq<Event>, i: nat, rule: Rule, forgets: bool)
    requires i < |run|
  {
    CountSince(Times(Before(cfg, run, i, forgets)), run[i].now - 3600.0) as real >= rule.requestsPerHour
  }

  // The cause of a denial is named: too few tokens first, then a full window; a grant names none.
  lemma {:induction false} CauseIsNamed(cfg: Config, run: seq<Event>, i: nat, rule: Rule, forgets: bool)
    requires Asked(cfg, run, i, rule)
    ensures OutcomeAt(cfg, run, i, forgets).Answer?
    ensures var status := OutcomeAt(cfg, run, i, forgets).status;
      var full := MinuteFull(cfg, run, i, rule, forgets) || HourFull(cfg, run, i, rule, forgets);
      if Found(cfg, run, i, rule, forgets) < run[i].cost as real
      then !status.allowed && status.ruleApplied == Some("burst_limit")
      else if full then !status.allowed && status.ruleApplied == Some("window_limit")
      else status.allowed && status.ruleApplied == None
  {
    var l := Ready(After(cfg, run[..i], forgets), run[i], forgets);
    assert cfg.RuleOf(run[i]) == rule;
    WindowReady(cfg, run, i, rule, forgets);
    AnswerShape(l, run[i].client, rule, run[i].cost, run[i].now);
    JudgedFromHistory(l, run[i].client, rule, Before(cfg, run, i, forgets), run[i].cost, run[i].now);
  }

  // The i-th call is answered with this status, and leaves its client with this bucket.
  ghost predicate Replied(cfg: Config, run: seq<Event>, i: nat, forgets: bool, status: Status, b: Bucket) {
    i < |run| && run[i].Ask? && OutcomeAt(cfg, run, i, forgets) == Answer(status) &&
    var clients := After(cfg, run[..i + 1], forgets).clients;
    run[i].client in clients && clients[run[i].client] == b
  }

  // The time from which on a refill fills this bucket.
  ghost predicate FullFrom(b: Bucket, rule: Rule, t: real) {
    b.tokens + rule.requestsPerSecond * (t - b.lastRefill) == rule.burstSize as real &&
    forall u :: b.lastRefill <= u ==> (Refill(b, rule, u).tokens == rule.burstSize as real <==> t <= u)
  }

  // A grant takes its cost, reports the whole tokens that are left, and says when the bucket will be full again.
  lemma {:induction false} GrantAnswer(
      cfg: Config, run: seq<Event>, i: nat, rule: Rule, forgets: bool, status: Status, b: Bucket)
    requires Asked(cfg, run, i, rule) && Replied(cfg, run, i, forgets, status, b) && status.allowed
    ensures b.lastRefill == run[i].now && b.tokens == Found(cfg, run, i, rule, forgets) - run[i].cost as real
    ensures WholePart(status.remainingRequests, b.tokens) && FullFrom(b, rule, status.resetTime)
    ensures status.retryAfter == None
  {
    var e, l := run[i], Ready(After(cfg, run[..i], forgets), run[i], forgets);
    RepliedByCheck(cfg, run, i, rule, forgets, status, b);
    GrantStatus(l, e.client, rule, e.cost, e.now, status, b);
  }

  // The whole tokens found, and the wait that refills exactly to the cost.
  predicate TellsWait(status: Status, rule: Rule, cost: int, now: real, found: real) {
    WholePart(status.remainingRequests, found) &&
    status.resetTime > now && status.retryAfter == Some(status.resetTime - now) &&
    found + rule.requestsPerSecond * (status.resetTime - now) == cost as real
  }

  // A denial for want of tokens tells the wait, and leaves the bucket refilled to now.
  lemma {:induction false} BurstAnswer(
      cfg: Config, run: seq<Event>, i: nat, rule: Rule, forgets: bool, status: Status, b: Bucket)
    requires Asked(cfg, run, i, rule) && Replied(cfg, run, i, forgets, status, b)
    requires status.ruleApplied == Some("burst_limit")
    ensures b.lastRefill == run[i].now && b.tokens == Found(cfg, run, i, rule, forgets)
    ensures TellsWait(status, rule, run[i].cost, run[i].now, b.tokens)
  {
    var e, l := run[i], Ready(After(cfg, run[..i], forgets), run[i], forgets);
    RepliedByCheck(cfg, run, i, rule, forgets, status, b);
    BurstStatus(l, e.client, rule, e.cost, e.now, status, b);
  }

  // t is an hour after the oldest grant of the hour that ends now; an hour from now if there is none.
  ghost predicate HourAfterOldest(times: seq<real>, now: real, t: real) {
    (exists k :: 0 <= k < |times| && times[k] >= now - 3600.0 && t == times[k] + 3600.0 &&
       forall j :: 0 <= j < k ==> times[j] < now - 3600.0) ||
    (t == now + 3600.0 && forall j :: 0 <= j < |times| ==> times[j] < now - 3600.0)
  }

  // No requests left, and the reset time of the window that is full: now for the minute, an hour after the oldest grant
  // that counts for the hour.
  ghost predicate TellsReset(status: Status, rule: Rule, times: seq<real>, now: real) {
    status.remainingRequests == 0 &&
    (if CountSince(times, now - 60.0) as real >= rule.requestsPerMinute then status.resetTime == now
     else HourAfterOldest(times, now, status.resetTime)) &&
    status.retryAfter == if status.resetTime == 0.0 then None else Some(status.resetTime - now)
  }

  lemma {:induction false} WindowAnswer(
      cfg: Config, run: seq<Event>, i: nat, rule: Rule, forgets: bool, status: Status, b: Bucket)
    requires Asked(cfg, run, i, rule) && Replied(cfg, run, i, forgets, status, b)
    requires status.ruleApplied == Some("window_limit")
    ensures TellsReset(status, rule, Times(Before(cfg, run, i, forgets)), run[i].now)
  {
    var e, l := run[i], Ready(After(cfg, run[..i], forgets), run[i], forgets);
    RepliedByCheck(cfg, run, i, rule, forgets, status, b);
    WindowReady(cfg, run, i, rule, forgets);
    WindowStatus(l, e.client, rule, Before(cfg, run, i, forgets), e.cost, e.now, status, b);
  }

  // While nothing is forgotten the request count of a client is the number of its grants.
  lemma {:induction false} TotalCountsGrants(cfg: Config, run: seq<Event>, client: string)
    ensures var clients := After(cfg, run, false).clients;
      |Grants(cfg, run, client, false)| == if client in clients then clients[client].total else 0
  {
    if run != [] {
      TotalCountsGrants(cfg, run[..|run| - 1], client);
      GrantsStep(cfg, run, client, false);
      TotalSteps(cfg, After(cfg, run[..|run| - 1], false), Grants(cfg, run[..|run| - 1], client, false), run[|run| - 1],
                 client);
    }
  }

  // A call forgets another client exactly when its bucket has not been touched for more than an hour and the last
  // cleanup was more than 300 s ago.
  lemma {:induction false} ForgottenIff(cfg: Config, run: seq<Event>, e: Event, other: string)
    requires e.Ask? && e.client != other && other in After(cfg, run, true).clients
    ensures var l := After(cfg, run, true);
      other !in After(cfg, run + [e], true).clients <==>
        e.now - l.lastCleanup > 300.0 && l.clients[other].lastRefill < e.now - 3600.0
  {
    assert (run + [e])[..|run|] == run;
  }

  // ================================================================ proofs

  // The answer of one call, by cause.
  lemma {:induction false} AnswerShape(l: Limiter, client: string, rule: Rule, cost: int, now: real)
    requires rule.requestsPerSecond != 0.0
    ensures var (_, v, o) := Check(l, client, rule, cost, now);
      o.Answer? && (o.status.allowed <==> v == Granted) &&
      o.status.ruleApplied ==
        match v
        case BurstDenied => Some("burst_limit")
        case WindowDenied(_) => Some("window_limit")
        case Granted => None
  {
  }

  lemma {:induction false} JudgedFromHistory(
      l: Limiter, client: string, rule: Rule, h: seq<Grant>, cost: int, now: real)
    requires WindowTracks(l, client, h, now)
    ensures var v := Check(l, client, rule, cost, now).1;
      (v == BurstDenied <==> Available(l, client, rule, now) < cost as real) &&
      (v != BurstDenied ==>
        (v == Granted <==>
          CountSince(Times(h), now - 60.0) as real < rule.requestsPerMinute &&
          CountSince(Times(h), now - 3600.0) as real < rule.requestsPerHour))
  {
    if Check(l, client, rule, cost, now).1 != BurstDenied {
      WindowsJudgedByHistory(l, client, rule, h, cost, now);
    }
  }

  lemma {:induction false} Quotient(x: real, r: real)
    requires r > 0.0
    ensures r * (x / r) == x
  {
  }

  lemma {:induction false} WholePartOf(x: real)
    ensures x >= 0.0 ==> WholePart(Truncate(x), x)
  {
  }

  // In the state in which the i-th call is decided the bucket is in range and not dated later.
  lemma {:induction false} ReadyBucket(cfg: Config, run: seq<Event>, i: nat, rule: Rule, forgets: bool)
    requires Asked(cfg, run, i, rule)
    ensures var b := BucketOf(Ready(After(cfg, run[..i], forgets), run[i], forgets), run[i].client, rule, run[i].now);
      b.lastRefill <= run[i].now && 0.0 <= b.tokens <= rule.burstSize as real
  {
    assert Governs(cfg, run[..i], run[i].client, rule);
    TokensInRange(cfg, run[..i], run[i].client, rule, forgets);
    WindowReady(cfg, run, i, rule, forgets);
  }

  // Check, called in state l, answers with this status and leaves this bucket.
  predicate Replies(l: Limiter, client: string, rule: Rule, cost: int, now: real, status: Status, b: Bucket) {
    var (l', _, o) := Check(l, client, rule, cost, now);
    o == Answer(status) && client in l'.clients && l'.clients[client] == b
  }

  lemma {:induction false} RepliedByCheck(
      cfg: Config, run: seq<Event>, i: nat, rule: Rule, forgets: bool, status: Status, b: Bucket)
    requires Asked(cfg, run, i, rule) && Replied(cfg, run, i, forgets, status, b)
    ensures var e, l := run[i], Ready(After(cfg, run[..i], forgets), run[i], forgets);
      Replies(l, e.client, rule, e.cost, e.now, status, b) && BucketOk(l, e.client, rule, e.now) && e.cost >= 0
  {
    assert run[..i + 1][..i] == run[..i] && cfg.RuleOf(run[i]) == rule;
    ReadyBucket(cfg, run, i, rule, forgets);
  }

  predicate BucketOk(l: Limiter, client: string, rule: Rule, now: real) {
    var b := BucketOf(l, client, rule, now);
    b.lastRefill <= now && 0.0 <= b.tokens <= rule.burstSize as real
  }

  lemma {:induction false} GrantStatus(
      l: Limiter, client: string, rule: Rule, cost: int, now: real, status: Status, b: Bucket)
    requires BucketOk(l, client, rule, now) && Sound(rule) && cost >= 0
    requires Replies(l, client, rule, cost, now, status, b) && status.allowed
    ensures b.lastRefill == now && b.tokens == Available(l, client, rule, now) - cost as real
    ensures WholePart(status.remainingRequests, b.tokens) && FullFrom(b, rule, status.resetTime)
    ensures status.retryAfter == None
  {
    CheckLeaves(l, client, rule, cost, now);
    WholePartOf(b.tokens);
    FullAgain(b, rule);
  }

  lemma {:induction false} FullAgain(b: Bucket, rule: Rule)
    requires Sound(rule) && 0.0 <= b.tokens <= rule.burstSize as real
    ensures FullFrom(b, rule, b.lastRefill + (rule.burstSize as real - b.tokens) / rule.requestsPerSecond)
  {
    var rate, missing := rule.requestsPerSecond, rule.burstSize as real - b.tokens;
    var t := b.lastRefill + missing / rate;
    Quotient(missing, rate);
    forall u | b.lastRefill <= u ensures Refill(b, rule, u).tokens == rule.burstSize as real <==> t <= u {
      Distribute(missing / rate, u - t, rate);
      assert missing / rate + (u - t) == u - b.lastRefill;
      if t <= u { Grows(u - t, rate); } else { Shrinks(u - t, rate); }
    }
  }

  lemma {:induction false} Shrinks(a: real, r: real)
    requires a < 0.0 && r > 0.0
    ensures Accrual(a, r) < 0.0
  {
  }

  lemma {:induction false} BurstStatus(
      l: Limiter, client: string, rule: Rule, cost: int, now: real, status: Status, b: Bucket)
    ensures
      BucketOk(l, client, rule, now) && Sound(rule) && Replies(l, client, rule, cost, now, status, b) &&
      status.ruleApplied == Some("burst_limit") ==>
        b.lastRefill == now && b.tokens == Available(l, client, rule, now) &&
        TellsWait(status, rule, cost, now, b.tokens)
  {
    if BucketOk(l, client, rule, now) && Sound(rule) && Replies(l, client, rule, cost, now, status, b) &&
      status.ruleApplied == Some("burst_limit")
    {
      AnswerShape(l, client, rule, cost, now);
      CheckLeaves(l, client, rule, cost, now);
      WaitIsTold(status, rule, cost, now, b.tokens);
    }
  }

  lemma {:induction false} WaitIsTold(status: Status, rule: Rule, cost: int, now: real, found: real)
    requires Sound(rule) && 0.0 <= found < cost as real
    requires status.remainingRequests == Truncate(found)
    requires var wait := (cost as real - found) / rule.requestsPerSecond;
      status.retryAfter == Some(wait) && status.resetTime == now + wait
    ensures TellsWait(status, rule, cost, now, found)
  {
    var missing, rate := cost as real - found, rule.requestsPerSecond;
    WholePartOf(found);
    Quotient(missing, rate);
    WaitRefills(missing, rate, missing / rate);
  }

  lemma {:induction false} WindowStatus(
      l: Limiter, client: string, rule: Rule, h: seq<Grant>, cost: int, now: real, status: Status, b: Bucket)
    ensures
      WindowTracks(l, client, h, now) && Sound(rule) && Replies(l, client, rule, cost, now, status, b) &&
      status.ruleApplied == Some("window_limit") ==>
        TellsReset(status, rule, Times(h), now)
  {
    if WindowTracks(l, client, h, now) && Sound(rule) && Replies(l, client, rule, cost, now, status, b) &&
      status.ruleApplied == Some("window_limit")
    {
      AnswerShape(l, client, rule, cost, now);
      TrimmedCounts(Times(h), now - 3600.0, now - 60.0, now);
      OldestRecent(Times(h), now);
    }
  }

  // The first entry of the trimmed history is the oldest grant of the hour.
  lemma {:induction false} OldestRecent(times: seq<real>, now: real)
    ensures var recent := DropBefore(times, now - 3600.0);
      HourAfterOldest(times, now, (if recent != [] then recent[0] else now) + 3600.0)
  {
    var k := DropSplit(times, now - 3600.0);
  }

  lemma {:induction false} TotalSteps(cfg: Config, l: Limiter, h: seq<Grant>, e: Event, client: string)
    requires |h| == if client in l.clients then l.clients[client].total else 0
    ensures var clients := Step(cfg, l, e, false).clients;
      |NextHistory(cfg, l, h, e, client, false)| == if client in clients then clients[client].total else 0
  {
  }
}
