/**
 The in-process idempotency cache as a step system. A request is admitted, replayed or refused in one atomic
 segment (there is no suspension between the cache lookup and the claim); its handler then runs for any time,
 interleaved with other requests, and ends in a second atomic segment.
 */
module IdempotencySpec {
  import opened Common
  import opened Responses

  const EVICTION_PERIOD: real := 600.0
  datatype Cached = Cached(response: Response, requestHash: string, createdAt: real)

  datatype Store = Store(cache: map<string, Cached>, inflight: map<string, string>, lastEviction: real)

  datatype Reply = Conflict | InProgress | Replay(response: Response) | RunHandler

  function Evict(s: Store, now: real, ttl: real): Store {
    if now - s.lastEviction < EVICTION_PERIOD then s
    else s.(lastEviction := now, cache := map k | k in s.cache && !(now - s.cache[k].createdAt > ttl) :: s.cache[k])
  }

  // What the cache and the in-flight table say about a request.
  function Answer(s: Store, key: string, hash: string): Reply {
    if key in s.cache then
      if s.cache[key].requestHash != hash then Conflict else Replay(AsReplay(s.cache[key].response))
    else if key in s.inflight then
      if s.inflight[key] != hash then Conflict else InProgress
    else RunHandler
  }

  // The first atomic segment of dispatch.
  function Admit(s: Store, key: string, hash: string, now: real, ttl: real): (Store, Reply) {
    var e := Evict(s, now, ttl);
    var reply := Answer(e, key, hash);
    (if reply == RunHandler then e.(inflight := e.inflight[key := hash]) else e, reply)
  }

  // The last atomic segment of dispatch.
  function Settle(s: Store, key: string, hash: string, result: Result, now: real): Store {
    var stored :=
      if result.Responded? && Successful(result.response)
      then s.(cache := s.cache[key := Cached(result.response, hash, now)])
      else s;
    stored.(inflight := stored.inflight - {key})
  }

  // ---------------------------------------------------------------- runs

  datatype Claim = Claim(key: string, hash: string)

  datatype Entry =
    | Started(run: nat, key: string, hash: string, at: real)
    | Stored(run: nat, key: string, hash: string, response: Response, at: real)
    | Ended(run: nat, key: string, at: real)
    | Replayed(key: string, hash: string, response: Response, at: real)

  // `running` holds the handlers that have started and not ended, by run number; `log` records what happened.
  datatype State = State(store: Store, running: map<nat, Claim>, next: nat, log: seq<Entry>)

  datatype Event =
    | Arrive(key: string, hash: string, now: real)
    | Return(run: nat, result: Result, now: real)

  function Initial(start: real): State {
    State(Store(map[], map[], start), map[], 0, [])
  }

  // A request meets the store left by the eviction.
  function Enter(s: State, key: string, hash: string, now: real): State {
    match Answer(s.store, key, hash)
    case RunHandler =>
      State(s.store.(inflight := s.store.inflight[key := hash]), s.running[s.next := Claim(key, hash)], s.next + 1,
            s.log + [Started(s.next, key, hash, now)])
    case Replay(response) => s.(log := s.log + [Replayed(key, hash, response, now)])
    case Conflict => s
    case InProgress => s
  }

  function Evicted(s: State, now: real, ttl: real): State {
    s.(store := Evict(s.store, now, ttl))
  }

  function EndOf(run: nat, c: Claim, result: Result, now: real): Entry {
    if result.Responded? && Successful(result.response)
    then Stored(run, c.key, c.hash, result.response, now)
    else Ended(run, c.key, now)
  }

  function Finish(s: State, run: nat, result: Result, now: real): State
    requires run in s.running
  {
    var c := s.running[run];
    State(Settle(s.store, c.key, c.hash, result, now), s.running - {run}, s.next, s.log + [EndOf(run, c, result, now)])
  }

  function Step(s: State, e: Event, ttl: real): State {
    match e
    case Arrive(key, hash, now) => Enter(Evicted(s, now, ttl), key, hash, now)
    case Return(run, result, now) => if run in s.running then Finish(s, run, result, now) else s
  }

  function After(start: real, events: seq<Event>, ttl: real): State {
    if events == [] then Initial(start)
    else Step(After(start, events[..|events| - 1], ttl), events[|events| - 1], ttl)
  }

  ghost predicate Monotone(start: real, events: seq<Event>) {
    (forall i :: 0 <= i < |events| ==> start <= events[i].now) &&
    (forall i, j :: 0 <= i < j < |events| ==> events[i].now <= events[j].now)
  }
}
