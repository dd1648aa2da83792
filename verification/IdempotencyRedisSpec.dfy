/**
 The Redis form of the idempotency middleware as a step system: any number of requests, each one Redis command
 at a time, a clock, keys that expire, renewals of the lock lease, and both ways of releasing the lock.
 A request is named by a number, which is also its fresh lock token. A step that is not enabled changes nothing.
 */
module IdempotencyRedisSpec {
  import opened Common
  import opened Responses

  const LOCK_TTL: real := 300.0

  // `stored` is the log index of the success that wrote the value.
  datatype Data = Data(response: Response, hash: string, until: real, stored: nat)
  datatype Lock = Lock(hash: string, token: nat, until: real)

  datatype Phase =
    | Missed              // the data key was read and absent
    | Refused             // SET NX failed, the lock is about to be looked at
    | Locked              // SET NX succeeded
    | Running             // the handler runs
    | Storing(response: Response)
    | Leaving             // in the finally block, before the release
    | Deleting            // the fallback release has seen its own token
    | Done

  // The renewal task: asleep, between its GET and its EXPIRE, or finished.
  datatype Renewal = Asleep | Checked | Stopped

  // `read` is the log index of the miss, `started` that of the start; the lease is what the request itself may rely on.
  datatype Worker = Worker(key: string, hash: string, phase: Phase, renewal: Renewal, leaseEnd: real, read: nat,
      started: nat)

  datatype Record =
    | Miss(worker: nat, key: string, at: real)
    | Start(worker: nat, key: string, hash: string, read: nat, at: real)
    | Success(worker: nat, key: string, hash: string, response: Response, started: nat, at: real)
    | Served(key: string, hash: string, response: Response, source: nat, at: real)
    | Refusal(worker: nat, conflict: bool, at: real)

  datatype System = System(now: real, data: map<string, Data>, locks: map<string, Lock>, workers: seq<Worker>,
      log: seq<Record>)

  datatype Event =
    | Arrive(key: string, hash: string)
    | SetNx(worker: nat)
    | LookAtLock(worker: nat)
    | CallHandler(worker: nat)
    | HandlerEnds(worker: nat, result: Result)
    | SetEx(worker: nat, succeeds: bool)
    | RenewGet(worker: nat)
    | RenewExpire(worker: nat, succeeds: bool)
    | ReleaseByScript(worker: nat)
    | ReleaseGet(worker: nat)
    | ReleaseDelete(worker: nat)
    | Abandon(worker: nat)
    | Tick(elapsed: real)

  predicate LiveData(s: System, key: string) {
    key in s.data && s.now < s.data[key].until
  }

  predicate LiveLock(s: System, key: string) {
    key in s.locks && s.now < s.locks[key].until
  }

  // Between taking the lock and having released it.
  predicate Holds(w: Worker) {
    w.phase.Locked? || w.phase.Running? || w.phase.Storing? || w.phase.Leaving? || w.phase.Deleting?
  }

  // While the renewal task has not been cancelled.
  predicate Renews(w: Worker) {
    w.phase.Locked? || w.phase.Running? || w.phase.Storing?
  }

  function ArriveStep(s: System, key: string, hash: string): System {
    if LiveData(s, key) then
      if s.data[key].hash != hash then s.(log := s.log + [Refusal(|s.workers|, true, s.now)])
      else s.(log := s.log + [Served(key, hash, AsReplay(s.data[key].response), s.data[key].stored, s.now)])
    else
      s.(workers := s.workers + [Worker(key, hash, Missed, Stopped, s.now, |s.log|, 0)],
         log := s.log + [Miss(|s.workers|, key, s.now)])
  }

  function Update(s: System, n: nat, w: Worker): System
    requires n < |s.workers|
  {
    s.(workers := s.workers[n := w])
  }

  function WorkerStep(s: System, e: Event, n: nat, ttl: real): System
    requires n < |s.workers| && !e.Arrive? && !e.Tick?
  {
    var w := s.workers[n];
    match e
    case SetNx(_) =>
      if !w.phase.Missed? then s
      else if LiveLock(s, w.key) then Update(s, n, w.(phase := Refused))
      else
        Update(s, n, w.(phase := Locked, renewal := Asleep, leaseEnd := s.now + LOCK_TTL))
        .(locks := s.locks[w.key := Lock(w.hash, n, s.now + LOCK_TTL)])
    case LookAtLock(_) =>
      if !w.phase.Refused? then s
      else
        var conflict := LiveLock(s, w.key) && s.locks[w.key].hash != "" && s.locks[w.key].hash != w.hash;
        Update(s, n, w.(phase := Done)).(log := s.log + [Refusal(n, conflict, s.now)])
    case CallHandler(_) =>
      if !w.phase.Locked? then s
      else
        Update(s, n, w.(phase := Running, started := |s.log|))
        .(log := s.log + [Start(n, w.key, w.hash, w.read, s.now)])
    case HandlerEnds(_, result) =>
      if !w.phase.Running? then s
      else if result.Responded? && Successful(result.response) then Update(s, n, w.(phase := Storing(result.response)))
      else Update(s, n, w.(phase := Leaving))
    case SetEx(_, succeeds) =>
      if !w.phase.Storing? then s
      else if !succeeds then Update(s, n, w.(phase := Leaving))
      else StoreStep(s, n, w.phase.response, ttl)
    case RenewGet(_) =>
      if !(w.renewal.Asleep? && Renews(w)) then s
      else Update(s, n, w.(renewal := if LiveLock(s, w.key) && s.locks[w.key].token == n then Checked else Stopped))
    case RenewExpire(_, succeeds) =>
      if !w.renewal.Checked? then s
      else if !succeeds then Update(s, n, w.(renewal := Stopped))
      else
        // EXPIRE extends whatever lock is there; it reaches the request's own lease only before that has ended.
        Update(s, n, w.(renewal := Asleep, leaseEnd := if s.now < w.leaseEnd then s.now + LOCK_TTL else w.leaseEnd))
        .(locks := if LiveLock(s, w.key) then s.locks[w.key := s.locks[w.key].(until := s.now + LOCK_TTL)] else s.locks)
    case ReleaseByScript(_) =>
      if !w.phase.Leaving? then s
      else
        Update(s, n, w.(phase := Done))
        .(locks := if LiveLock(s, w.key) && s.locks[w.key].token == n then s.locks - {w.key} else s.locks)
    case ReleaseGet(_) =>
      if !w.phase.Leaving? then s
      else Update(s, n, w.(phase := if LiveLock(s, w.key) && s.locks[w.key].token == n then Deleting else Done))
    case ReleaseDelete(_) =>
      if !w.phase.Deleting? then s
      else Update(s, n, w.(phase := Done)).(locks := s.locks - {w.key})
    case Abandon(_) => Update(s, n, w.(phase := Done))
  }

  // SETEX keeps the response for the middleware's time to live.
  function StoreStep(s: System, n: nat, response: Response, ttl: real): System
    requires n < |s.workers|
  {
    var w := s.workers[n];
    Update(s, n, w.(phase := Leaving)).(
      data := s.data[w.key := Data(response, w.hash, s.now + ttl, |s.log|)],
      log := s.log + [Success(n, w.key, w.hash, response, w.started, s.now)])
  }

  function Step(s: System, e: Event, ttl: real): System {
    match e
    case Arrive(key, hash) => ArriveStep(s, key, hash)
    case Tick(elapsed) => if elapsed >= 0.0 then s.(now := s.now + elapsed) else s
    case _ => if e.worker < |s.workers| then WorkerStep(s, e, e.worker, ttl) else s
  }

  function After(events: seq<Event>, ttl: real): System {
    if events == [] then System(0.0, map[], map[], [], [])
    else Step(After(events[..|events| - 1], ttl), events[|events| - 1], ttl)
  }
}
