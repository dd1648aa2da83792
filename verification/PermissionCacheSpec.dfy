/**
 The two permission caches of one member, as a step system. The outer cache keeps permission sets for 60 s, the
 inner one memberships for `ttl` seconds. Loads, source changes, key deletions and cache failures interleave.
 An invalidation is a deletion of the inner key followed, unless that fails, by one of the outer key.
 */
module PermissionCacheSpec {
  import opened Common

  const OUTER_TTL: real := 60.0

  type Permissions = set<string>

  // What the organization service answers: a membership, or that there is none.
  datatype Member = Member(permissions: Permissions) | NotAMember

  function PermissionsOf(m: Member): Permissions {
    if m.Member? then m.permissions else {}
  }

  // Permissions with the step and the time at which the organization service gave them.
  datatype Sample = Sample(permissions: Permissions, step: nat, at: real)

  datatype Cached = Cached(sample: Sample, until: real)

  // A load that has its answer is still on the way to its caller in `Answer`. `Over` ends a load that has answered,
  // failed or been cancelled.
  datatype Phase =
    | ReadOuter
    | ReadInner
    | Fetch
    | WriteInner(sample: Sample)
    | WriteOuter(sample: Sample)
    | Answer(sample: Sample)
    | Over

  // A permission check uses both caches, a membership lookup the inner one only.
  datatype Load = Load(check: bool, phase: Phase, started: real, startStep: nat)

  datatype Reply = Reply(load: nat, sample: Sample, at: real)

  datatype System = System(
    now: real,
    steps: nat,
    source: Member,
    outer: Option<Cached>,
    inner: Option<Cached>,
    loads: seq<Load>,
    replies: seq<Reply>)

  datatype Event =
    | Begin(check: bool)
    | Proceed(load: nat, cacheFails: bool)
    | Fail(load: nat)
    | ChangeSource(source: Member)
    | ClearInner(fails: bool)
    | ClearOuter(fails: bool)
    | Tick(elapsed: real)

  function Live(c: Option<Cached>, now: real): bool {
    c.Some? && now < c.value.until
  }

  function Goto(s: System, n: nat, phase: Phase): System
    requires n < |s.loads|
  {
    s.(loads := s.loads[n := s.loads[n].(phase := phase)])
  }

  function Return(s: System, n: nat, sample: Sample): System
    requires n < |s.loads|
  {
    Goto(s, n, Over).(replies := s.replies + [Reply(n, sample, s.now)])
  }

  // With a membership at hand: a permission check stores its permissions, unless there are none, before it answers.
  function Deliver(s: System, n: nat, sample: Sample): System
    requires n < |s.loads|
  {
    Goto(s, n, if s.loads[n].check && sample.permissions != {} then WriteOuter(sample) else Answer(sample))
  }

  function LoadStep(s: System, n: nat, cacheFails: bool, ttl: real): System
    requires n < |s.loads|
  {
    match s.loads[n].phase
    case ReadOuter =>
      Goto(s, n, if Live(s.outer, s.now) && !cacheFails then Answer(s.outer.value.sample) else ReadInner)
    case ReadInner =>
      if Live(s.inner, s.now) && !cacheFails then Deliver(s, n, s.inner.value.sample) else Goto(s, n, Fetch)
    case Fetch =>
      var sample := Sample(PermissionsOf(s.source), s.steps, s.now);
      Goto(s, n, if s.source.Member? then WriteInner(sample) else Answer(sample))
    case WriteInner(sample) =>
      Deliver(if cacheFails then s else s.(inner := Some(Cached(sample, s.now + ttl))), n, sample)
    case WriteOuter(sample) =>
      Goto(if cacheFails then s else s.(outer := Some(Cached(sample, s.now + OUTER_TTL))), n, Answer(sample))
    case Answer(sample) => Return(s, n, sample)
    case Over => s
  }

  function Effect(s: System, e: Event, ttl: real): System {
    match e
    case Begin(check) =>
      s.(loads := s.loads + [Load(check, if check then ReadOuter else ReadInner, s.now, s.steps)])
    case Proceed(n, cacheFails) => if n < |s.loads| then LoadStep(s, n, cacheFails, ttl) else s
    case Fail(n) => if n < |s.loads| then Goto(s, n, Over) else s
    case ChangeSource(source) => s.(source := source)
    case ClearInner(fails) => if fails then s else s.(inner := None)
    case ClearOuter(fails) => if fails then s else s.(outer := None)
    case Tick(elapsed) => if elapsed >= 0.0 then s.(now := s.now + elapsed) else s
  }

  function Step(s: System, e: Event, ttl: real): System {
    Effect(s, e, ttl).(steps := s.steps + 1)
  }

  function After(source: Member, events: seq<Event>, ttl: real): System {
    if events == [] then System(0.0, 0, source, None, None, [], [])
    else Step(After(source, events[..|events| - 1], ttl), events[|events| - 1], ttl)
  }
}
