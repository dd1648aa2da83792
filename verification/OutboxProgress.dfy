/** Termination of retries: every committed flush uses up some of a bounded amount of work; and the retry schedule. */
module OutboxProgress {
  import opened Common
  import opened OutboxSpec
  import opened OutboxFlushes
  import opened OutboxConservation

  // ---------------------------------------------------------------- the retry schedule

  // The delay doubles after each failure until it reaches the cap, where it stays.
  lemma {:induction false} RetryDelayDoubles(s: Settings, attempt: int)
    requires attempt >= 1 && s.initialRetryDelay >= 0.0 && s.maxRetryDelay >= 0.0
    ensures RetryDelay(s, attempt + 1) == RealMin(2.0 * RetryDelay(s, attempt), s.maxRetryDelay)
    ensures RetryDelay(s, 1) == RealMin(s.initialRetryDelay, s.maxRetryDelay)
  {
    var base := s.initialRetryDelay * Pow2(attempt - 1);
    assert s.initialRetryDelay * Pow2(attempt) == 2.0 * base;
  }

  lemma {:induction false} RetryDelayMonotone(s: Settings, a: int, b: int)
    requires a <= b && s.initialRetryDelay >= 0.0 && s.maxRetryDelay >= 0.0
    ensures 0.0 <= RetryDelay(s, a) <= RetryDelay(s, b) <= s.maxRetryDelay
    decreases b - a, b
  {
    if b <= 1 {
      assert Pow2(0) == 1.0;
      assert s.initialRetryDelay * 1.0 == s.initialRetryDelay;
    } else if a < b {
      RetryDelayMonotone(s, a, b - 1);
      RetryDelayDoubles(s, b - 1);
    } else {
      RetryDelayMonotone(s, b - 1, b - 1);
      RetryDelayDoubles(s, b - 1);
    }
  }

  // ---------------------------------------------------------------- the work left

  // How many more failures a row can take.
  function Left(rows: map<nat, Row>, id: nat, cfg: Settings): nat {
    if id in rows && Pending(rows[id]) && rows[id].attempts < AttemptLimit(cfg)
    then AttemptLimit(cfg) - rows[id].attempts
    else 0
  }

  function Work(rows: map<nat, Row>, ids: set<nat>, cfg: Settings): nat {
    if ids == {} then 0
    else
      var m := Least(ids);
      Left(rows, m, cfg) + Work(rows, ids - {m}, cfg)
  }

  lemma {:induction false} WorkWithout(rows: map<nat, Row>, ids: set<nat>, x: nat, cfg: Settings)
    requires x in ids
    ensures Work(rows, ids, cfg) == Left(rows, x, cfg) + Work(rows, ids - {x}, cfg)
    decreases |ids|
  {
    var m := Least(ids);
    if x != m {
      WorkWithout(rows, ids - {m}, x, cfg);
      WorkWithout(rows, ids - {x}, m, cfg);
      assert ids - {m} - {x} == ids - {x} - {m};
    }
  }

  lemma {:induction false} WorkMonotone(rows: map<nat, Row>, rows': map<nat, Row>, ids: set<nat>, cfg: Settings)
    requires forall id :: id in ids ==> Left(rows', id, cfg) <= Left(rows, id, cfg)
    ensures Work(rows', ids, cfg) <= Work(rows, ids, cfg)
    decreases |ids|
  {
    if ids != {} {
      WorkMonotone(rows, rows', ids - {Least(ids)}, cfg);
    }
  }

  lemma {:induction false} WorkDrops(rows: map<nat, Row>, rows': map<nat, Row>, ids: set<nat>, batch: seq<nat>,
      cfg: Settings)
    requires Sorted(batch) && forall id :: id in batch ==> id in ids
    requires forall id :: id in ids ==> Left(rows', id, cfg) + (if id in batch then 1 else 0) <= Left(rows, id, cfg)
    ensures Work(rows', ids, cfg) + |batch| <= Work(rows, ids, cfg)
    decreases |batch|
  {
    if batch == [] {
      WorkMonotone(rows, rows', ids, cfg);
    } else {
      var x, rest := batch[0], batch[1..];
      forall id | id in rest ensures id in ids - {x} && id in batch {
        var i :| 0 <= i < |rest| && rest[i] == id;
        assert batch[0] < batch[i + 1];
      }
      assert forall id :: id in ids - {x} && id in batch ==> id in rest;
      WorkDrops(rows, rows', ids - {x}, rest, cfg);
      WorkWithout(rows, ids, x, cfg);
      WorkWithout(rows', ids, x, cfg);
      assert batch[0] in batch;
    }
  }

  // The failures that n rows can take in all.
  function Budget(n: nat, cfg: Settings): nat {
    n * AttemptLimit(cfg)
  }

  lemma {:induction false} BudgetAdds(m: nat, n: nat, cfg: Settings)
    ensures Budget(m + n, cfg) == Budget(m, cfg) + Budget(n, cfg)
    ensures Budget(1, cfg) == AttemptLimit(cfg) && Budget(0, cfg) == 0
  {
    var limit := AttemptLimit(cfg);
    assert (m + n) * limit == m * limit + n * limit;
  }

  lemma {:induction false} WorkBound(rows: map<nat, Row>, ids: set<nat>, added: set<nat>, cfg: Settings)
    requires ids !! added
    ensures Work(rows, ids + added, cfg) <= Work(rows, ids, cfg) + Budget(|added|, cfg)
    decreases |added|
  {
    if added == {} {
      assert ids + added == ids;
      BudgetAdds(0, 0, cfg);
    } else {
      var x := Least(added);
      var rest := added - {x};
      WorkBound(rows, ids, rest, cfg);
      WorkWithout(rows, ids + added, x, cfg);
      assert ids + added - {x} == ids + rest;
      assert |added| == |rest| + 1;
      BudgetAdds(|rest|, 1, cfg);
    }
  }

  // Nothing is left to do exactly when nothing is pending.
  lemma {:induction false} NoWorkNothingPending(rows: map<nat, Row>, ids: set<nat>, cfg: Settings)
    requires forall id :: id in ids && id in rows ==> rows[id].attempts < AttemptLimit(cfg)
    ensures Work(rows, ids, cfg) == 0 <==> forall id :: id in ids && id in rows ==> !Pending(rows[id])
    decreases |ids|
  {
    if ids != {} {
      NoWorkNothingPending(rows, ids - {Least(ids)}, cfg);
    }
  }

  // ---------------------------------------------------------------- main results

  // What a committed flush leaves a row to fail: one less for each row it claimed, the same for all others.
  lemma {:induction false} LeftDrops(rows: map<nat, Row>, f: Flush, cfg: Settings, id: nat)
    requires FlushSound(rows, f, cfg) && f.pos == |f.batch|
    requires id in rows ==> rows[id].attempts < AttemptLimit(cfg)
    ensures Left(Committed(rows, f), id, cfg) + (if id in f.batch then 1 else 0) <= Left(rows, id, cfg)
  {
    if id in f.batch { CommittedRow(rows, f, cfg, id); } else { UntouchedRow(rows, f, cfg, id); }
  }

  // Each committed flush reduces the work left by at least the number of rows it claimed.
  lemma {:induction false} CommitDropsWork(s: System, cfg: Settings, n: nat)
    requires Inv(s, cfg) && n in s.flushes && s.flushes[n].pos == |s.flushes[n].batch|
    ensures var s' := Step(s, cfg, CommitFlush(n));
            Work(s'.rows, s.ledger.Keys, cfg) + |s.flushes[n].batch| <= Work(s.rows, s.ledger.Keys, cfg)
  {
    var f, s' := s.flushes[n], Step(s, cfg, CommitFlush(n));
    forall id | id in s.ledger.Keys
      ensures Left(s'.rows, id, cfg) + (if id in f.batch then 1 else 0) <= Left(s.rows, id, cfg)
    {
      LeftDrops(s.rows, f, cfg, id);
    }
    WorkDrops(s.rows, s'.rows, s.ledger.Keys, f.batch, cfg);
  }

  // All claims ever settled by committed flushes, plus the work left, never exceed the attempt limit times the
  // number of committed enqueues: N rows drain within N * max_attempts claims.
  lemma {:induction false} ClaimsBounded(cfg: Settings, events: seq<Event>)
    ensures var s := After(cfg, events);
            |s.settled| + Work(s.rows, s.ledger.Keys, cfg) <= Budget(|s.ledger|, cfg)
  {
    if events != [] {
      var before, e := After(cfg, events[..|events| - 1]), events[|events| - 1];
      ClaimsBounded(cfg, events[..|events| - 1]);
      AlwaysInv(cfg, events[..|events| - 1]);
      StepKeepsBound(before, cfg, e);
    }
  }

  // Any step that enqueues nothing trades work for settled claims.
  lemma {:induction false} StepTradesWork(s: System, cfg: Settings, e: Event)
    requires Inv(s, cfg) && !e.CommitEnqueues?
    ensures var s' := Step(s, cfg, e);
            s'.ledger == s.ledger &&
            |s'.settled| + Work(s'.rows, s.ledger.Keys, cfg) <= |s.settled| + Work(s.rows, s.ledger.Keys, cfg)
  {
    if e.CommitFlush? && e.flush in s.flushes && s.flushes[e.flush].pos == |s.flushes[e.flush].batch| {
      CommitDropsWork(s, cfg, e.flush);
      assert |Step(s, cfg, e).settled| == |s.settled| + |s.flushes[e.flush].batch|;
    } else {
      QuietStep(s, cfg, e);
    }
  }

  // Nothing but a commit changes the rows, the ledger or what is settled.
  lemma {:induction false} QuietStep(s: System, cfg: Settings, e: Event)
    ensures
      !e.CommitEnqueues? &&
      (e.CommitFlush? ==> !(e.flush in s.flushes && s.flushes[e.flush].pos == |s.flushes[e.flush].batch|)) ==>
      var s' := Step(s, cfg, e); s'.rows == s.rows && s'.ledger == s.ledger && s'.settled == s.settled
  {
  }

  lemma {:induction false} MergeSize<K, V>(m: map<K, V>, n: map<K, V>)
    requires m.Keys !! n.Keys
    ensures (m + n).Keys == m.Keys + n.Keys && |m + n| == |m| + |n|
  {
    assert |(m + n).Keys| == |m.Keys| + |n.Keys|;
  }

  // Adding new ids to the ledger adds at most the budget of that many rows.
  lemma {:induction false} EnqueueKeepsBound(settled: nat, rows: map<nat, Row>, rows': map<nat, Row>,
                          ledger: map<nat, Message>, news: map<nat, Message>, cfg: Settings)
    requires ledger.Keys !! news.Keys
    requires forall id :: id in ledger ==> (id in rows' <==> id in rows) && (id in rows ==> rows'[id] == rows[id])
    requires settled + Work(rows, ledger.Keys, cfg) <= Budget(|ledger|, cfg)
    ensures settled + Work(rows', (ledger + news).Keys, cfg) <= Budget(|ledger + news|, cfg)
  {
    MergeSize(ledger, news);
    WorkMonotone(rows, rows', ledger.Keys, cfg);
    WorkBound(rows', ledger.Keys, news.Keys, cfg);
    var work, more := Work(rows, ledger.Keys, cfg), Work(rows', (ledger + news).Keys, cfg);
    assert |news| == |news.Keys|;
    BoundAdds(settled, work, more, |ledger|, |news|, cfg);
  }

  lemma {:induction false} BoundAdds(settled: nat, work: nat, more: nat, m: nat, n: nat, cfg: Settings)
    requires settled + work <= Budget(m, cfg) && more <= work + Budget(n, cfg)
    ensures settled + more <= Budget(m + n, cfg)
  {
    BudgetAdds(m, n, cfg);
  }

  lemma {:induction false} StepKeepsBound(s: System, cfg: Settings, e: Event)
    requires Inv(s, cfg)
    requires |s.settled| + Work(s.rows, s.ledger.Keys, cfg) <= Budget(|s.ledger|, cfg)
    ensures var s' := Step(s, cfg, e);
            |s'.settled| + Work(s'.rows, s'.ledger.Keys, cfg) <= Budget(|s'.ledger|, cfg)
  {
    if !e.CommitEnqueues? {
      StepTradesWork(s, cfg, e);
    } else if e.entries.Keys !! s.ledger.Keys {
      var news := map id | id in e.entries :: e.entries[id].message;
      EnqueueKeepsBound(|s.settled|, s.rows, Step(s, cfg, e).rows, s.ledger, news, cfg);
    }
  }

  // From any reachable state, a run without new enqueues settles at most the work left there, and uses that much up.
  lemma {:induction false} DrainsWithoutEnqueues(cfg: Settings, events: seq<Event>, more: seq<Event>)
    requires forall i :: 0 <= i < |more| ==> !more[i].CommitEnqueues?
    ensures var s, t := After(cfg, events), After(cfg, events + more);
            t.ledger == s.ledger &&
            |t.settled| + Work(t.rows, s.ledger.Keys, cfg) <= |s.settled| + Work(s.rows, s.ledger.Keys, cfg)
    decreases |more|
  {
    if more == [] {
      assert events + more == events;
    } else {
      var init, e := more[..|more| - 1], more[|more| - 1];
      DrainsWithoutEnqueues(cfg, events, init);
      LastStep(cfg, events, init, e);
      assert events + more == events + init + [e];
      AlwaysInv(cfg, events + init);
      StepTradesWork(After(cfg, events + init), cfg, e);
    }
  }

  lemma {:induction false} LastStep(cfg: Settings, events: seq<Event>, init: seq<Event>, e: Event)
    ensures After(cfg, events + init + [e]) == Step(After(cfg, events + init), cfg, e)
  {
    assert (events + init + [e])[..|events + init|] == events + init;
  }

  ghost predicate NothingPending(rows: map<nat, Row>) {
    forall id :: id in rows ==> !Pending(rows[id])
  }

  // Once a run without enqueues has settled as many claims as there was work left, nothing is pending.
  lemma {:induction false} SettlingAllDrains(cfg: Settings, events: seq<Event>, more: seq<Event>)
    requires forall i :: 0 <= i < |more| ==> !more[i].CommitEnqueues?
    requires var s := After(cfg, events);
      |After(cfg, events + more).settled| >= |s.settled| + Work(s.rows, s.ledger.Keys, cfg)
    ensures NothingPending(After(cfg, events + more).rows)
  {
    var t := After(cfg, events + more);
    DrainsWithoutEnqueues(cfg, events, more);
    AlwaysInv(cfg, events + more);
    NoWorkNothingPending(t.rows, t.ledger.Keys, cfg);
  }
}
