/** Liveness: from every reachable state some schedule without new enqueues leaves nothing pending. */
module OutboxDrain {
  import opened Common
  import opened OutboxSpec
  import opened OutboxFlushes
  import opened OutboxConservation
  import opened OutboxPublications
  import opened OutboxProgress

  // ---------------------------------------------------------------- runs from a state

  function Run(s: System, cfg: Settings, es: seq<Event>): System
    decreases |es|
  {
    if es == [] then s else Run(Step(s, cfg, es[0]), cfg, es[1..])
  }

  ghost predicate EnqueuesNothing(es: seq<Event>) {
    forall i :: 0 <= i < |es| ==> !es[i].CommitEnqueues?
  }

  lemma {:induction false} RunFromReachable(cfg: Settings, events: seq<Event>, more: seq<Event>)
    ensures After(cfg, events + more) == Run(After(cfg, events), cfg, more)
    decreases |more|
  {
    if more == [] {
      assert events + more == events;
    } else {
      assert events + more == (events + [more[0]]) + more[1..];
      assert (events + [more[0]])[..|events|] == events;
      RunFromReachable(cfg, events + [more[0]], more[1..]);
    }
  }

  lemma {:induction false} RunJoin(s: System, cfg: Settings, a: seq<Event>, b: seq<Event>)
    ensures Run(s, cfg, a + b) == Run(Run(s, cfg, a), cfg, b)
    decreases |a|
  {
    if a == [] {
      assert a + b == b;
    } else {
      assert (a + b)[1..] == a[1..] + b;
      RunJoin(Step(s, cfg, a[0]), cfg, a[1..], b);
    }
  }

  lemma {:induction false} RunFirst(s: System, cfg: Settings, e: Event, rest: seq<Event>)
    ensures Run(s, cfg, [e] + rest) == Run(Step(s, cfg, e), cfg, rest)
  {
    assert ([e] + rest)[1..] == rest;
  }

  lemma {:induction false} RunKeepsInv(s: System, cfg: Settings, es: seq<Event>)
    ensures Inv(s, cfg) ==> Inv(Run(s, cfg, es), cfg)
    decreases |es|
  {
    if Inv(s, cfg) && es != [] {
      StepConserves(s, cfg, es[0]);
      RunKeepsInv(Step(s, cfg, es[0]), cfg, es[1..]);
    }
  }

  // The parts of a state that only commits change.
  predicate SameRows(s: System, t: System) {
    t.rows == s.rows && t.ledger == s.ledger && t.settled == s.settled
  }

  // ---------------------------------------------------------------- one round

  // A pending row that is due and that no open flush holds makes a claim non-empty.
  lemma {:induction false} DueRowIsClaimed(s: System, cfg: Settings, id: nat)
    requires cfg.batchSize >= 1 && id in s.rows && s.rows[id].processedAt.None? && s.rows[id].availableAt <= s.now
    requires forall n :: n in s.flushes ==> id !in s.flushes[n].batch
    ensures ClaimBatch(s.rows, Locked(s), cfg.batchSize, s.now).batch != []
  {
    FirstIdsAreLowest(DueIds(s.rows, Locked(s), s.now), cfg.batchSize);
    assert id in DueIds(s.rows, Locked(s), s.now);
  }

  lemma {:induction false} AbortAll(s: System, cfg: Settings) returns (es: seq<Event>)
    ensures EnqueuesNothing(es)
    ensures var t := Run(s, cfg, es); SameRows(s, t) && t.flushes == map[]
    decreases |s.flushes|
  {
    es := [];
    if s.flushes != map[] {
      var n :| n in s.flushes;
      var t := Step(s, cfg, AbortFlush(n));
      assert s.flushes.Keys == t.flushes.Keys + {n};
      var rest := AbortAll(t, cfg);
      RunFirst(s, cfg, AbortFlush(n), rest);
      es := [AbortFlush(n)] + rest;
    }
  }

  // Some time by which every row is due.
  lemma {:induction false} AllDueBy(rows: map<nat, Row>, ids: set<nat>) returns (t: real)
    requires forall id :: id in ids ==> id in rows
    ensures t >= 0.0 && forall id :: id in ids ==> rows[id].availableAt <= t
    decreases |ids|
  {
    t := 0.0;
    if ids != {} {
      var id :| id in ids;
      t := AllDueBy(rows, ids - {id});
      if t < rows[id].availableAt { t := rows[id].availableAt; }
    }
  }

  // Flush n of s has got to position pos in t.
  predicate Further(s: System, t: System, n: nat, pos: nat)
    requires n in s.flushes
  {
    SameRows(s, t) && n in t.flushes && t.flushes[n].batch == s.flushes[n].batch && t.flushes[n].pos == pos
  }

  lemma {:induction false} PublishStepNext(s: System, cfg: Settings, n: nat)
    requires Inv(s, cfg) && n in s.flushes && s.flushes[n].pos < |s.flushes[n].batch|
    ensures Further(s, Step(s, cfg, PublishNext(n, Published)), n, s.flushes[n].pos + 1)
  {
    PublishAppends(s, cfg, n, Published);
    NextRecord(s.rows, s.flushes[n], cfg);
    MarkShape(s.flushes[n], cfg, Published, s.now);
  }

  lemma {:induction false} PublishRest(s: System, cfg: Settings, n: nat) returns (es: seq<Event>)
    requires Inv(s, cfg) && n in s.flushes && s.flushes[n].pos <= |s.flushes[n].batch|
    ensures EnqueuesNothing(es) && Further(s, Run(s, cfg, es), n, |s.flushes[n].batch|)
    decreases |s.flushes[n].batch| - s.flushes[n].pos
  {
    es := [];
    if s.flushes[n].pos < |s.flushes[n].batch| {
      var e := PublishNext(n, Published);
      PublishStepNext(s, cfg, n);
      StepConserves(s, cfg, e);
      var rest := PublishRest(Step(s, cfg, e), cfg, n);
      RunFirst(s, cfg, e, rest);
      es := [e] + rest;
    }
  }

  // A flush that claims something begins, when no flush is open and something is pending.
  lemma {:induction false} ClaimSome(s: System, cfg: Settings) returns (es: seq<Event>)
    requires cfg.batchSize >= 1 && s.flushes == map[] && !NothingPending(s.rows)
    ensures EnqueuesNothing(es)
    ensures var t := Run(s, cfg, es);
      SameRows(s, t) && s.next in t.flushes && t.flushes[s.next].batch != [] && t.flushes[s.next].pos == 0
  {
    var due := AllDueBy(s.rows, s.rows.Keys);
    var e := Tick(if due > s.now then due - s.now else 0.0);
    var t := Step(s, cfg, e);
    var id :| id in s.rows && Pending(s.rows[id]);
    assert Locked(t) == {};
    DueRowIsClaimed(t, cfg, id);
    RunFirst(s, cfg, e, [BeginFlush]);
    RunFirst(t, cfg, BeginFlush, []);
    assert [BeginFlush] + [] == [BeginFlush];
    es := [e] + [BeginFlush];
  }

  predicate LessWork(s: System, t: System, cfg: Settings) {
    t.ledger == s.ledger && Work(t.rows, s.ledger.Keys, cfg) < Work(s.rows, s.ledger.Keys, cfg)
  }

  lemma {:induction false} CommitLeavesLess(s: System, cfg: Settings, n: nat)
    requires Inv(s, cfg) && n in s.flushes && s.flushes[n].pos == |s.flushes[n].batch| > 0
    ensures LessWork(s, Run(s, cfg, [CommitFlush(n)]), cfg)
  {
    CommitDropsWork(s, cfg, n);
    RunFirst(s, cfg, CommitFlush(n), []);
    assert [CommitFlush(n)] + [] == [CommitFlush(n)];
    assert Step(s, cfg, CommitFlush(n)).ledger == s.ledger;
  }

  // Publishing the rest of a flush and committing it leaves less work.
  lemma {:induction false} FinishFlush(s: System, cfg: Settings, n: nat) returns (es: seq<Event>)
    requires Inv(s, cfg) && n in s.flushes && s.flushes[n].pos <= |s.flushes[n].batch| && s.flushes[n].batch != []
    ensures EnqueuesNothing(es) && LessWork(s, Run(s, cfg, es), cfg)
  {
    es := PublishRest(s, cfg, n);
    RunKeepsInv(s, cfg, es);
    CommitAfter(s, cfg, n, es);
    EnqueuesNothingMore(es, CommitFlush(n));
    es := es + [CommitFlush(n)];
  }

  lemma {:induction false} EnqueuesNothingMore(es: seq<Event>, e: Event)
    ensures EnqueuesNothing(es) && !e.CommitEnqueues? ==> EnqueuesNothing(es + [e])
  {
  }

  lemma {:induction false} CommitAfter(s: System, cfg: Settings, n: nat, publishes: seq<Event>)
    requires n in s.flushes && s.flushes[n].batch != []
    ensures var t := Run(s, cfg, publishes);
      Inv(t, cfg) && Further(s, t, n, |s.flushes[n].batch|) ==>
        LessWork(s, Run(s, cfg, publishes + [CommitFlush(n)]), cfg)
  {
    var t := Run(s, cfg, publishes);
    if Inv(t, cfg) && Further(s, t, n, |s.flushes[n].batch|) {
      CommitLeavesLess(t, cfg, n);
      RunJoin(s, cfg, publishes, [CommitFlush(n)]);
    }
  }

  // Aborting what is open, waiting and claiming leaves a flush to publish.
  lemma {:induction false} OpenFlush(s: System, cfg: Settings) returns (es: seq<Event>, n: nat)
    requires cfg.batchSize >= 1 && !NothingPending(s.rows)
    ensures EnqueuesNothing(es)
    ensures var t := Run(s, cfg, es);
      SameRows(s, t) && n in t.flushes && t.flushes[n].batch != [] && t.flushes[n].pos == 0
  {
    var a := AbortAll(s, cfg);
    var b := ClaimSome(Run(s, cfg, a), cfg);
    RunJoin(s, cfg, a, b);
    es, n := a + b, Run(s, cfg, a).next;
  }

  lemma {:induction false} Round(s: System, cfg: Settings) returns (es: seq<Event>)
    requires Inv(s, cfg) && cfg.batchSize >= 1 && !NothingPending(s.rows)
    ensures EnqueuesNothing(es) && LessWork(s, Run(s, cfg, es), cfg)
  {
    var a, n := OpenFlush(s, cfg);
    RunKeepsInv(s, cfg, a);
    var b := FinishFlush(Run(s, cfg, a), cfg, n);
    RunJoin(s, cfg, a, b);
    es := a + b;
  }

  lemma {:induction false} DrainSchedule(s: System, cfg: Settings) returns (es: seq<Event>)
    requires Inv(s, cfg) && cfg.batchSize >= 1
    ensures EnqueuesNothing(es) && NothingPending(Run(s, cfg, es).rows)
    decreases Work(s.rows, s.ledger.Keys, cfg)
  {
    es := [];
    if !NothingPending(s.rows) {
      var round := Round(s, cfg);
      RunKeepsInv(s, cfg, round);
      var rest := DrainSchedule(Run(s, cfg, round), cfg);
      RunJoin(s, cfg, round, rest);
      es := round + rest;
    }
  }

  // ---------------------------------------------------------------- main result

  // However a run has gone so far, some way to go on without enqueues leaves every row processed or dead-lettered.
  lemma {:induction false} CanAlwaysDrain(cfg: Settings, events: seq<Event>)
    requires cfg.batchSize >= 1
    ensures exists more :: EnqueuesNothing(more) && NothingPending(After(cfg, events + more).rows)
  {
    AlwaysInv(cfg, events);
    var more := DrainSchedule(After(cfg, events), cfg);
    RunFromReachable(cfg, events, more);
  }
}
