/**
 The rate limiter as functions on values: one token bucket and one deque of grant times per client,
 a periodic cleanup that forgets idle clients, and runs of calls on a monotone clock.
 */
module RateLimiterSpec {
  import opened Common

  datatype Rule = Rule(
    requestsPerSecond: real,
    requestsPerMinute: real,
    requestsPerHour: real,
    burstSize: int,
    clientType: string,
    priority: int)

  datatype Status = Status(
    allowed: bool,
    remainingRequests: int,
    resetTime: real,
    retryAfter: Option<real>,
    ruleApplied: Option<string>)

  // What check_limit does for its caller: a rule with rate 0 makes the hint divide by zero.
  datatype Outcome = Answer(status: Status) | ZeroDivision

  datatype Bucket = Bucket(tokens: real, lastRefill: real, window: seq<real>, total: nat)

  datatype Limiter = Limiter(clients: map<string, Bucket>, lastCleanup: real)

  const MINUTE: real := 60.0
  const HOUR: real := 3600.0
  const CLEANUP_PERIOD: real := 300.0

  // ---------------------------------------------------------------- choosing a rule

  predicate Matches(r: Rule, clientType: string) {
    r.clientType == clientType || r.clientType == "default"
  }

  function Matching(rules: seq<Rule>, clientType: string): seq<Rule> {
    if rules == [] then []
    else if Matches(rules[0], clientType)
    then [rules[0]] + Matching(rules[1..], clientType)
    else Matching(rules[1..], clientType)
  }

  function HighestPriority(rules: seq<Rule>): (best: Rule)
    requires rules != []
    ensures best in rules
    ensures forall r :: r in rules ==> r.priority <= best.priority
  {
    if |rules| == 1 then rules[0]
    else
      var rest := HighestPriority(rules[1..]);
      if rules[0].priority >= rest.priority then rules[0] else rest
  }

  function RuleFor(rules: seq<Rule>, defaultRule: Rule, clientType: string): Rule {
    var matching := Matching(rules, clientType);
    if matching == [] then defaultRule else HighestPriority(matching)
  }

  // rules[k] is the first rule for this client type, or for "default", that none of those outranks.
  ghost predicate FirstHighest(rules: seq<Rule>, clientType: string, k: nat) {
    k < |rules| && (rules[k].clientType == clientType || rules[k].clientType == "default") &&
    (forall j :: 0 <= j < k && (rules[j].clientType == clientType || rules[j].clientType == "default") ==>
        rules[j].priority < rules[k].priority) &&
    (forall j :: k < j < |rules| && (rules[j].clientType == clientType || rules[j].clientType == "default") ==>
        rules[j].priority <= rules[k].priority)
  }

  // The rule of a client is the first matching one of the highest priority, the default rule when none matches.
  lemma {:induction false} RuleIsFirstHighest(rules: seq<Rule>, defaultRule: Rule, clientType: string) returns (k: nat)
    ensures k < |rules| ==> FirstHighest(rules, clientType, k) && RuleFor(rules, defaultRule, clientType) == rules[k]
    ensures k >= |rules| ==>
      (forall j :: 0 <= j < |rules| ==> rules[j].clientType != clientType && rules[j].clientType != "default") &&
      RuleFor(rules, defaultRule, clientType) == defaultRule
  {
    k := 0;
    if rules != [] {
      var rest := rules[1..];
      k := RuleIsFirstHighest(rest, defaultRule, clientType);
      NoneMatching(rest, clientType);
      Shifted(rules, clientType, k);
      if !Matches(rules[0], clientType) || (k < |rest| && rules[0].priority < rest[k].priority) {
        k := k + 1;
      } else {
        k := 0;
      }
    }
  }

  // One rule in front of the others.
  lemma {:induction false} Shifted(rules: seq<Rule>, clientType: string, k: nat)
    requires rules != []
    ensures
      FirstHighest(rules[1..], clientType, k) &&
      (!Matches(rules[0], clientType) || rules[0].priority < rules[k + 1].priority) ==>
      FirstHighest(rules, clientType, k + 1)
    ensures
      FirstHighest(rules[1..], clientType, k) && Matches(rules[0], clientType) &&
      rules[0].priority >= rules[k + 1].priority ==>
      FirstHighest(rules, clientType, 0)
    ensures k < |rules| - 1 ==> rules[1..][k] == rules[k + 1]
    ensures forall j :: 0 <= j < |rules[1..]| ==> rules[1..][j] == rules[j + 1]
  {
    assert forall j :: 0 <= j < |rules[1..]| ==> rules[1..][j] == rules[j + 1];
  }

  lemma {:induction false} NoneMatching(rules: seq<Rule>, clientType: string)
    ensures Matching(rules, clientType) == [] <==> forall j :: 0 <= j < |rules| ==> !Matches(rules[j], clientType)
  {
    if rules != [] {
      NoneMatching(rules[1..], clientType);
      assert forall j :: 0 < j < |rules| ==> rules[j] == rules[1..][j - 1];
    }
  }

  // ---------------------------------------------------------------- one bucket

  // Tokens earned while `elapsed` seconds pass.
  function Accrual(elapsed: real, rate: real): real {
    elapsed * rate
  }

  function Refill(b: Bucket, rule: Rule, now: real): Bucket {
    if now - b.lastRefill <= 0.0 then b
    else b.(
      tokens := RealMin(rule.burstSize as real, b.tokens + Accrual(now - b.lastRefill, rule.requestsPerSecond)),
      lastRefill := now)
  }

  function DropBefore(times: seq<real>, t: real): seq<real> {
    if times != [] && times[0] < t then DropBefore(times[1..], t) else times
  }

  function CountSince(times: seq<real>, t: real): nat {
    if times == [] then 0
    else CountSince(times[..|times| - 1], t) + (if times[|times| - 1] >= t then 1 else 0)
  }

  // The decision, from the refilled tokens and the trimmed window alone.
  datatype Verdict = BurstDenied | WindowDenied(at: real) | Granted

  function JudgeWindow(recent: seq<real>, rule: Rule, now: real): Option<real> {
    if CountSince(recent, now - MINUTE) as real >= rule.requestsPerMinute then Some(now - MINUTE + 60.0)
    else if |recent| as real >= rule.requestsPerHour then
      Some((if recent != [] then recent[0] else now) + 3600.0)
    else None
  }

  function Judge(tokens: real, recent: seq<real>, rule: Rule, cost: int, now: real): Verdict {
    if tokens < cost as real then BurstDenied
    else match JudgeWindow(recent, rule, now)
      case Some(at) => WindowDenied(at)
      case None => Granted
  }

  function Report(v: Verdict, tokens: real, rule: Rule, cost: int, now: real): Outcome {
    match v
    case BurstDenied =>
      if rule.requestsPerSecond == 0.0 then ZeroDivision
      else
        var wait := (cost as real - tokens) / rule.requestsPerSecond;
        Answer(Status(false, Truncate(tokens), now + wait, Some(wait), Some("burst_limit")))
    case WindowDenied(at) =>
      Answer(Status(false, 0, at, if at != 0.0 then Some(at - now) else None, Some("window_limit")))
    case Granted =>
      if rule.requestsPerSecond == 0.0 then ZeroDivision
      else
        var left := tokens - cost as real;
        Answer(Status(true, Truncate(left), now + (rule.burstSize as real - left) / rule.requestsPerSecond, None, None))
  }

  function Decide(b: Bucket, rule: Rule, cost: int, now: real): (Bucket, Verdict) {
    var full := Refill(b, rule, now);
    var trimmed := full.(window := DropBefore(full.window, now - HOUR));
    var v := Judge(full.tokens, trimmed.window, rule, cost, now);
    match v
    case BurstDenied => (full, v)
    case WindowDenied(_) => (trimmed, v)
    case Granted =>
      (trimmed.(tokens := full.tokens - cost as real, window := trimmed.window + [now], total := full.total + 1), v)
  }

  // ---------------------------------------------------------------- all clients

  function Cleanup(clients: map<string, Bucket>, before: real): map<string, Bucket> {
    map c | c in clients && !(clients[c].lastRefill < before) :: clients[c]
  }

  function Forget(l: Limiter, now: real): Limiter {
    if now - l.lastCleanup > CLEANUP_PERIOD then Limiter(Cleanup(l.clients, now - HOUR), now) else l
  }

  function BucketOf(l: Limiter, client: string, rule: Rule, now: real): Bucket {
    if client in l.clients then l.clients[client] else Bucket(rule.burstSize as real, now, [], 0)
  }

  // What check_limit decides in state l, and the state it leaves.
  function Check(l: Limiter, client: string, rule: Rule, cost: int, now: real): (Limiter, Verdict, Outcome) {
    var b := BucketOf(l, client, rule, now);
    var (b', v) := Decide(b, rule, cost, now);
    (l.(clients := l.clients[client := b']), v, Report(v, Refill(b, rule, now).tokens, rule, cost, now))
  }

  function Trim(l: Limiter, client: string, now: real): Limiter {
    if client in l.clients then
      var b := l.clients[client];
      l.(clients := l.clients[client := b.(window := DropBefore(b.window, now - HOUR))])
    else l
  }

  // ---------------------------------------------------------------- runs

  datatype Event =
    | Ask(client: string, clientType: string, cost: int, now: real)
    | Stats(client: string, now: real)

  datatype Config = Config(rules: seq<Rule>, defaultRule: Rule, start: real) {
    function RuleOf(e: Event): Rule
      requires e.Ask?
    {
      RuleFor(rules, defaultRule, e.clientType)
    }
  }

  // The state in which an event is handled: `forgets` says whether the periodic cleanup is on.
  function Ready(l: Limiter, e: Event, forgets: bool): Limiter {
    if e.Ask? && forgets then Forget(l, e.now) else l
  }

  function Step(cfg: Config, l: Limiter, e: Event, forgets: bool): Limiter {
    var r := Ready(l, e, forgets);
    match e
    case Ask(client, _, cost, now) => Check(r, client, cfg.RuleOf(e), cost, now).0
    case Stats(client, now) => Trim(r, client, now)
  }

  function After(cfg: Config, run: seq<Event>, forgets: bool): Limiter {
    if run == [] then Limiter(map[], cfg.start)
    else Step(cfg, After(cfg, run[..|run| - 1], forgets), run[|run| - 1], forgets)
  }

  // The verdict and the outcome of the i-th call of a run.
  function VerdictAt(cfg: Config, run: seq<Event>, i: nat, forgets: bool): Verdict
    requires i < |run| && run[i].Ask?
  {
    var e := run[i];
    Check(Ready(After(cfg, run[..i], forgets), e, forgets), e.client, cfg.RuleOf(e), e.cost, e.now).1
  }

  function OutcomeAt(cfg: Config, run: seq<Event>, i: nat, forgets: bool): Outcome
    requires i < |run| && run[i].Ask?
  {
    var e := run[i];
    Check(Ready(After(cfg, run[..i], forgets), e, forgets), e.client, cfg.RuleOf(e), e.cost, e.now).2
  }

  datatype Grant = Grant(time: real, cost: int)

  // The grants one client got, oldest first.
  function Grants(cfg: Config, run: seq<Event>, client: string, forgets: bool): seq<Grant> {
    if run == [] then []
    else
      var n := |run| - 1;
      Grants(cfg, run[..n], client, forgets) +
      (if run[n].Ask? && run[n].client == client && VerdictAt(cfg, run, n, forgets) == Granted
       then [Grant(run[n].now, run[n].cost)] else [])
  }

  ghost predicate Monotone(run: seq<Event>) {
    forall i, j :: 0 <= i < j < |run| ==> run[i].now <= run[j].now
  }

  // Every call by this client is ruled by `rule` and has a cost that is not negative.
  ghost predicate Governs(cfg: Config, run: seq<Event>, client: string, rule: Rule) {
    forall i :: 0 <= i < |run| && run[i].Ask? && run[i].client == client ==>
      cfg.RuleOf(run[i]) == rule && run[i].cost >= 0
  }

  predicate Sound(rule: Rule) {
    rule.requestsPerSecond > 0.0 && rule.burstSize >= 0
  }
}
