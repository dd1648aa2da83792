/**
 The in-process form of the idempotency middleware, with its dictionaries updated in place. `Begin` and `End`
 are the two atomic segments of dispatch around the handler.
 */
module Idempotency {
  import opened Common
  import opened Responses
  import opened IdempotencySpec

  class IdempotencyMiddleware {
    const ttl: real
    var cache: map<string, Cached>
    var inflight: map<string, string>
    var lastEviction: real

    constructor (ttl: real, now: real)
      ensures Value() == Store(map[], map[], now) && this.ttl == ttl
    {
      this.ttl := ttl;
      cache, inflight, lastEviction := map[], map[], now;
    }

    function Value(): Store
      reads this
    {
      Store(cache, inflight, lastEviction)
    }

    method EvictExpired(now: real)
      modifies this`cache, this`lastEviction
      ensures Value() == Evict(old(Value()), now, ttl)
    {
      if now - lastEviction < EVICTION_PERIOD {
        return;
      }
      ghost var before := cache;
      lastEviction := now;
      var expired := set k | k in cache && now - cache[k].createdAt > ttl;
      var todo := expired;
      while todo != {}
        invariant todo <= expired && lastEviction == now
        invariant cache == map k | k in before && k !in expired - todo :: before[k]
        decreases |todo|
      {
        var k :| k in todo;
        todo := todo - {k};
        cache := map j | j in cache && j != k :: cache[j];
      }
      assert forall k :: k in expired <==> k in before && now - before[k].createdAt > ttl;
      assert expired - todo == expired;
      assert cache == map k | k in before && !(now - before[k].createdAt > ttl) :: before[k];
    }

    method Begin(key: string, hash: string, now: real) returns (reply: Reply)
      modifies this
      ensures (Value(), reply) == Admit(old(Value()), key, hash, now, ttl)
    {
      EvictExpired(now);
      if key in cache {
        var cached := cache[key];
        if cached.requestHash != hash {
          return Conflict;
        }
        var r := cached.response;
        return Replay(Response(r.status, r.body, r.contentType, r.headers[REPLAY_HEADER := "true"]));
      }
      if key in inflight {
        if inflight[key] != hash {
          return Conflict;
        }
        return InProgress;
      }
      inflight := inflight[key := hash];
      return RunHandler;
    }

    method End(key: string, hash: string, result: Result, now: real)
      modifies this`cache, this`inflight
      ensures Value() == Settle(old(Value()), key, hash, result, now)
    {
      if result.Responded? && 200 <= result.response.status < 300 {
        cache := cache[key := Cached(result.response, hash, now)];
      }
      inflight := inflight - {key};
    }
  }
}
