/**
 The rate limiter in the form of its source: mutable buckets kept in a dictionary, loops over the deque and
 over the expired clients, and a check that updates the bucket in place. Each method is proved to do what the
 functions of RateLimiterSpec say.
 */
module RateLimiter {
  import opened Common
  import opened RateLimiterSpec
  import opened RateLimiterHistory

  class ClientBucket {
    var tokens: real
    var lastRefill: real
    var requestsInWindow: seq<real>
    var totalRequests: nat

    constructor (tokens: real, lastRefill: real)
      ensures Value() == Bucket(tokens, lastRefill, [], 0)
    {
      this.tokens, this.lastRefill := tokens, lastRefill;
      requestsInWindow, totalRequests := [], 0;
    }

    function Value(): Bucket
      reads this
    {
      Bucket(tokens, lastRefill, requestsInWindow, totalRequests)
    }
  }

  class MemoryBackend {
    var clients: map<string, ClientBucket>

    constructor ()
      ensures clients == map[]
    {
      clients := map[];
    }

    ghost predicate Valid()
      reads this
    {
      forall c, d :: c in clients && d in clients && c != d ==> clients[c] != clients[d]
    }

    ghost function Value(): map<string, Bucket>
      reads this, clients.Values
    {
      map c | c in clients :: clients[c].Value()
    }

    method SetClientData(client: string, bucket: ClientBucket)
      requires Valid()
      requires bucket !in clients.Values || (client in clients && clients[client] == bucket)
      modifies this
      ensures Valid()
      ensures Value() == old(Value())[client := bucket.Value()]
      ensures clients == old(clients)[client := bucket]
    {
      clients := clients[client := bucket];
    }

    // Buckets last refilled before the given time are forgotten.
    method CleanupExpired(before: real)
      requires Valid()
      modifies this
      ensures Valid() && clients.Values <= old(clients.Values)
      ensures Value() == Cleanup(old(Value()), before)
    {
      var expired := set c | c in clients && clients[c].lastRefill < before;
      var todo := expired;
      while todo != {}
        invariant todo <= expired
        invariant clients == map c | c in old(clients) && c !in expired - todo :: old(clients)[c]
        decreases |todo|
      {
        var c :| c in todo;
        todo := todo - {c};
        clients := map d | d in clients && d != c :: clients[d];
      }
    }
  }

  class RateLimiter {
    const backend: MemoryBackend
    const rules: seq<Rule>
    const defaultRule: Rule
    var lastCleanup: real

    constructor (rules: seq<Rule>, now: real)
      ensures Valid() && Value() == Limiter(map[], now) && fresh(backend) && this.rules == rules
      ensures defaultRule == Rule(10.0, 600.0, 3600.0, 20, "default", 0)
    {
      this.rules := rules;
      defaultRule := Rule(10.0, 600.0, 3600.0, 20, "default", 0);
      backend := new MemoryBackend();
      lastCleanup := now;
    }

    ghost predicate Valid()
      reads this, backend
    {
      backend.Valid()
    }

    ghost function Value(): Limiter
      reads this, backend, backend.clients.Values
    {
      Limiter(backend.Value(), lastCleanup)
    }

    method RefillBucket(bucket: ClientBucket, rule: Rule, now: real)
      modifies bucket`tokens, bucket`lastRefill
      ensures bucket.Value() == Refill(old(bucket.Value()), rule, now)
    {
      var timePassed := now - bucket.lastRefill;
      if timePassed <= 0.0 {
        return;
      }
      var tokensToAdd := timePassed * rule.requestsPerSecond;
      bucket.tokens := RealMin(rule.burstSize as real, bucket.tokens + tokensToAdd);
      bucket.lastRefill := now;
    }

    // Pop the entries older than `before` off the front of the deque.
    method PopStale(bucket: ClientBucket, before: real)
      modifies bucket`requestsInWindow
      ensures bucket.requestsInWindow == DropBefore(old(bucket.requestsInWindow), before)
    {
      while bucket.requestsInWindow != [] && bucket.requestsInWindow[0] < before
        invariant DropBefore(bucket.requestsInWindow, before) == DropBefore(old(bucket.requestsInWindow), before)
        decreases |bucket.requestsInWindow|
      {
        bucket.requestsInWindow := bucket.requestsInWindow[1..];
      }
    }

    method CountRecent(times: seq<real>, since: real) returns (n: nat)
      ensures n == CountSince(times, since)
    {
      n := 0;
      for i := 0 to |times|
        invariant n == CountSince(times[..i], since)
      {
        assert times[..i + 1][..i] == times[..i];
        if times[i] >= since {
          n := n + 1;
        }
      }
      assert times[..|times|] == times;
    }

    method CheckWindowLimits(bucket: ClientBucket, rule: Rule, now: real) returns (ok: bool, retryAfter: Option<real>)
      modifies bucket`requestsInWindow
      ensures bucket.requestsInWindow == DropBefore(old(bucket.requestsInWindow), now - HOUR)
      ensures retryAfter == JudgeWindow(bucket.requestsInWindow, rule, now) && ok == retryAfter.None?
    {
      var minuteAgo, hourAgo := now - MINUTE, now - HOUR;
      PopStale(bucket, hourAgo);
      var lastMinute := CountRecent(bucket.requestsInWindow, minuteAgo);
      var lastHour := |bucket.requestsInWindow|;
      if lastMinute as real >= rule.requestsPerMinute {
        return false, Some(minuteAgo + 60.0);
      }
      if lastHour as real >= rule.requestsPerHour {
        var oldest := if bucket.requestsInWindow != [] then bucket.requestsInWindow[0] else now;
        return false, Some(oldest + 3600.0);
      }
      return true, None;
    }

    // The periodic cleanup.
    method ForgetIdle(now: real)
      requires Valid()
      modifies this`lastCleanup, backend
      ensures Valid() && backend.clients.Values <= old(backend.clients.Values)
      ensures Value() == Forget(old(Value()), now)
    {
      if now - lastCleanup > CLEANUP_PERIOD {
        backend.CleanupExpired(now - HOUR);
        lastCleanup := now;
      }
    }

    method FindBucket(client: string, rule: Rule, now: real) returns (bucket: ClientBucket)
      requires Valid()
      ensures bucket.Value() == BucketOf(Value(), client, rule, now)
      ensures if client in backend.clients then bucket == backend.clients[client] else fresh(bucket)
    {
      if client in backend.clients {
        bucket := backend.clients[client];
      } else {
        bucket := new ClientBucket(rule.burstSize as real, now);
      }
    }

    // The stored state and the answer after a call are those of Check, run after the periodic cleanup.
    method CheckLimit(client: string, clientType: string, cost: int, now: real) returns (outcome: Outcome)
      requires Valid()
      modifies this`lastCleanup, backend, backend.clients.Values
      ensures Valid()
      ensures var rule := RuleFor(rules, defaultRule, clientType);
              var ready := Forget(old(Value()), now);
              Value() == Check(ready, client, rule, cost, now).0 &&
              outcome == Check(ready, client, rule, cost, now).2
    {
      ForgetIdle(now);
      outcome := CheckReady(client, RuleFor(rules, defaultRule, clientType), cost, now);
    }

    method CheckReady(client: string, rule: Rule, cost: int, now: real) returns (outcome: Outcome)
      requires Valid()
      modifies backend, backend.clients.Values
      ensures Valid()
      ensures Value() == Check(old(Value()), client, rule, cost, now).0
      ensures outcome == Check(old(Value()), client, rule, cost, now).2
    {
      var bucket;
      bucket, outcome := FindAndCharge(client, rule, cost, now);
      backend.SetClientData(client, bucket);
    }

    // All other buckets keep their values.
    method FindAndCharge(client: string, rule: Rule, cost: int, now: real)
      returns (bucket: ClientBucket, outcome: Outcome)
      requires Valid()
      modifies backend.clients.Values
      ensures if client in backend.clients then bucket == backend.clients[client] else fresh(bucket)
      ensures backend.Value()[client := bucket.Value()] == old(backend.Value())[client := bucket.Value()]
      ensures var b := old(BucketOf(Value(), client, rule, now));
              bucket.Value() == Decide(b, rule, cost, now).0 &&
              outcome == Report(Decide(b, rule, cost, now).1, Refill(b, rule, now).tokens, rule, cost, now)
    {
      bucket := FindBucket(client, rule, now);
      outcome := Charge(bucket, rule, cost, now);
      assert forall c :: c in backend.clients && c != client ==> backend.Value()[c] == old(backend.Value())[c];
    }

    // The part of check_limit between the lookup and the store: refill, judge and charge one bucket in place.
    method Charge(bucket: ClientBucket, rule: Rule, cost: int, now: real) returns (outcome: Outcome)
      modifies bucket
      ensures bucket.Value() == Decide(old(bucket.Value()), rule, cost, now).0
      ensures outcome == Report(Decide(old(bucket.Value()), rule, cost, now).1,
                                Refill(old(bucket.Value()), rule, now).tokens, rule, cost, now)
    {
      RefillBucket(bucket, rule, now);
      if bucket.tokens < cost as real {
        if rule.requestsPerSecond == 0.0 {
          return ZeroDivision;
        }
        return Answer(Status(
          false, Truncate(bucket.tokens), now + (cost as real - bucket.tokens) / rule.requestsPerSecond,
          Some((cost as real - bucket.tokens) / rule.requestsPerSecond), Some("burst_limit")));
      }
      var ok, retryAfter := CheckWindowLimits(bucket, rule, now);
      if !ok {
        var at := retryAfter.value;
        return Answer(Status(false, 0, at, if at != 0.0 then Some(at - now) else None, Some("window_limit")));
      }
      bucket.tokens := bucket.tokens - cost as real;
      bucket.requestsInWindow := bucket.requestsInWindow + [now];
      bucket.totalRequests := bucket.totalRequests + 1;
      if rule.requestsPerSecond == 0.0 {
        return ZeroDivision;
      }
      outcome := Answer(Status(
        true, Truncate(bucket.tokens), now + (rule.burstSize as real - bucket.tokens) / rule.requestsPerSecond,
        None, None));
    }

    // Statistics trim the deque and change nothing else; the two window counts are those of the trimmed deque.
    method GetClientStats(client: string, now: real) returns (stats: Statistics)
      requires Valid()
      modifies backend.clients.Values
      ensures Valid() && Value() == Trim(old(Value()), client, now)
      ensures stats.Unknown? <==> client !in old(Value()).clients
      ensures stats.Known? ==>
                var b := Value().clients[client];
                stats == Known(b.total, Truncate(b.tokens), CountSince(b.window, now - MINUTE), |b.window|,
                    b.lastRefill)
    {
      if client !in backend.clients {
        return Unknown;
      }
      var bucket := backend.clients[client];
      PopStale(bucket, now - HOUR);
      var minute := CountRecent(bucket.requestsInWindow, now - MINUTE);
      stats := Known(bucket.totalRequests, Truncate(bucket.tokens), minute, |bucket.requestsInWindow|,
          bucket.lastRefill);
    }
  }

  // An unknown client is reported with no requests and no tokens.
  datatype Statistics =
    | Unknown
    | Known(total: nat, tokens: int, lastMinute: nat, lastHour: nat, lastRequest: real)
}
