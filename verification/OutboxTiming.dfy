/**
 When rows are published: never before they are due, and after a failure not before the retry delay has passed.
 */
module OutboxTiming {
  import opened Common
  import opened OutboxSpec
  import opened OutboxFlushes
  import opened OutboxConservation
  import opened OutboxPublications

  // Publication i is a failure for this row in a flush that committed.
  predicate Failure(s: System, i: nat, id: nat) {
    i < |s.published| && !s.published[i].ok && s.published[i].id == id && CommittedFlush(s, s.published[i].flush)
  }

  function Failures(s: System, id: nat): set<nat> {
    set i | 0 <= i < |s.published| && Failure(s, i, id)
  }

  predicate IsLast(ids: set<nat>, l: nat) {
    l in ids && forall k :: k in ids ==> k <= l
  }

  // ---------------------------------------------------------------- the invariant

  // Publications are listed in order of time.
  ghost predicate Ordered(s: System) {
    (forall i {:trigger s.published[i]} :: 0 <= i < |s.published| ==> s.published[i].at <= s.now) &&
    (forall i, j {:trigger s.published[i].at, s.published[j].at} ::
      0 <= i < j < |s.published| ==> s.published[i].at <= s.published[j].at)
  }

  // Once a row is published again, the flush that published it before is over.
  ghost predicate EarlierClosed(s: System) {
    forall i, j {:trigger s.published[i].id, s.published[j].id} ::
      0 <= i < j < |s.published| && s.published[i].id == s.published[j].id ==> s.published[i].flush !in s.flushes
  }

  ghost predicate HeldAreDue(s: System) {
    forall n, id {:trigger id in s.flushes[n].batch} ::
      n in s.flushes && id in s.flushes[n].batch && id in s.rows ==> s.rows[id].availableAt <= s.now
  }

  // What an open flush has published is marked in its session, a failure with its delay.
  predicate Marked(s: System, cfg: Settings, i: nat) {
    i < |s.published| && s.published[i].flush in s.flushes ==>
      var p := s.published[i];
        var f := s.flushes[p.flush];
          p.id in f.loaded &&
          (p.ok || p.id in f.deleted ||
           f.loaded[p.id].availableAt == p.at + RetryDelay(cfg, f.loaded[p.id].attempts))
  }

  ghost predicate HasTried(published: seq<Publication>, n: nat, id: nat) {
    exists i :: 0 <= i < |published| && published[i].flush == n && published[i].id == id
  }

  ghost predicate AllMarked(s: System, cfg: Settings) {
    (forall i {:trigger s.published[i]} :: 0 <= i < |s.published| ==> Marked(s, cfg, i)) &&
    (forall n, k {:trigger s.flushes[n].batch[k]} ::
      n in s.flushes && 0 <= k < s.flushes[n].pos && k < |s.flushes[n].batch| ==>
        HasTried(s.published, n, s.flushes[n].batch[k]))
  }

  // A pending row has counted its failures, and waits since the last of them.
  ghost predicate RowTimed(s: System, cfg: Settings, id: nat) {
    id in s.rows && Pending(s.rows[id]) ==>
      s.rows[id].attempts == |Failures(s, id)| &&
      forall l: nat :: IsLast(Failures(s, id), l) ==>
        s.rows[id].availableAt == s.published[l].at + RetryDelay(cfg, |Failures(s, id)|)
  }

  ghost predicate RowsTimed(s: System, cfg: Settings) {
    forall id {:trigger s.rows[id]} :: id in s.rows ==> RowTimed(s, cfg, id)
  }

  ghost predicate Timed(s: System, cfg: Settings) {
    Ordered(s) && EarlierClosed(s) && HeldAreDue(s) && AllMarked(s, cfg) && RowsTimed(s, cfg)
  }

  // ---------------------------------------------------------------- publishing

  // What one publish changes.
  predicate Publishes(s: System, t: System, n: nat, id: nat, ok: bool) {
    n in s.flushes && t == s.(flushes := t.flushes, published := t.published) && n in t.flushes &&
    t.flushes == s.flushes[n := t.flushes[n]] && id in s.ledger &&
    t.published == s.published + [Publication(n, id, Normal(s.ledger[id]), ok, s.now)]
  }

  lemma {:induction false} PublishShape(s: System, cfg: Settings, n: nat, result: PublishResult)
    requires Inv(s, cfg) && n in s.flushes && s.flushes[n].pos < |s.flushes[n].batch|
    ensures var f, t := s.flushes[n], Step(s, cfg, PublishNext(n, result));
      var id := f.batch[f.pos];
      Publishes(s, t, n, id, result.Published?) && id in f.loaded && t.flushes[n] == Mark(f, cfg, result, s.now)
  {
    NextRecord(s.rows, s.flushes[n], cfg);
    PublishAppends(s, cfg, n, result);
  }

  lemma {:induction false} PublishKeepsOrder(s: System, t: System, n: nat, id: nat, ok: bool)
    ensures Publishes(s, t, n, id, ok) && Ordered(s) ==> Ordered(t)
  {
  }

  lemma {:induction false} PublishKeepsClosed(s: System, cfg: Settings, t: System, n: nat, id: nat, ok: bool)
    requires Inv(s, cfg) && AllRecorded(s) && EarlierClosed(s) && Publishes(s, t, n, id, ok)
    requires s.flushes[n].pos < |s.flushes[n].batch| && s.flushes[n].batch[s.flushes[n].pos] == id
    ensures EarlierClosed(t)
  {
    forall i, j | 0 <= i < j < |t.published| && t.published[i].id == t.published[j].id
      ensures t.published[i].flush !in t.flushes
    {
      if j == |s.published| {
        NotHeldElsewhere(s, cfg, n, s.published[i]);
      } else {
        assert s.published[i].id == s.published[j].id;
      }
    }
  }

  // The record published next was published by no open flush.
  lemma {:induction false} NotHeldElsewhere(s: System, cfg: Settings, n: nat, p: Publication)
    requires Inv(s, cfg) && Recorded(s, p) && n in s.flushes && s.flushes[n].pos < |s.flushes[n].batch|
    requires p.id == s.flushes[n].batch[s.flushes[n].pos]
    ensures p.flush !in s.flushes
  {
    var f := s.flushes[n];
    assert f.batch[f.pos] in f.batch;
    NextNotHandled(f);
    OneHolder(s, cfg, p.flush, n, p.id);
  }

  lemma {:induction false} OneHolder(s: System, cfg: Settings, m: nat, n: nat, id: nat)
    ensures
      FlushesSound(s, cfg) && m in s.flushes && n in s.flushes && id in s.flushes[m].batch &&
      id in s.flushes[n].batch ==>
      m == n
  {
  }

  lemma {:induction false} PublishKeepsFailures(s: System, t: System, n: nat, id: nat, ok: bool, x: nat)
    requires Publishes(s, t, n, id, ok)
    ensures Failures(t, x) == Failures(s, x)
  {
    forall i: nat ensures Failure(t, i, x) <==> Failure(s, i, x) {
      if i < |s.published| { assert t.published[i] == s.published[i]; }
    }
  }

  // g is f with its next record marked: a failure gets its delay or goes, the other marks stay.
  predicate MarksNext(f: Flush, g: Flush, cfg: Settings, ok: bool, now: real) {
    f.pos < |f.batch| && g.batch == f.batch && g.pos == f.pos + 1 &&
    var id := f.batch[f.pos];
      id in g.loaded &&
      (ok || id in g.deleted || g.loaded[id].availableAt == now + RetryDelay(cfg, g.loaded[id].attempts)) &&
      (forall x :: x != id && x in f.loaded ==> x in g.loaded && g.loaded[x] == f.loaded[x]) &&
      (forall x :: x in f.deleted ==> x in g.deleted)
  }

  lemma {:induction false} MarkDelays(f: Flush, cfg: Settings, result: PublishResult, now: real)
    ensures f.pos < |f.batch| && f.batch[f.pos] in f.loaded ==>
      MarksNext(f, Mark(f, cfg, result, now), cfg, result.Published?, now)
  {
    if f.pos < |f.batch| && f.batch[f.pos] in f.loaded && result.Rejected? {
      var id := f.batch[f.pos];
      assert id in f.deleted + [id];
    }
  }

  lemma {:induction false} PublishMarks(s: System, cfg: Settings, t: System, n: nat, id: nat, ok: bool)
    requires Inv(s, cfg) && AllRecorded(s) && AllMarked(s, cfg) && Publishes(s, t, n, id, ok)
    requires var f := s.flushes[n];
      f.pos < |f.batch| && f.batch[f.pos] == id && MarksNext(f, t.flushes[n], cfg, ok, s.now)
    ensures AllMarked(t, cfg)
  {
    forall i | 0 <= i < |t.published| ensures Marked(t, cfg, i) {
      if i < |s.published| {
        assert t.published[i] == s.published[i] && Marked(s, cfg, i);
        if s.published[i].id == id { NotHeldElsewhere(s, cfg, n, s.published[i]); }
      }
    }
    forall m, k | m in t.flushes && 0 <= k < t.flushes[m].pos && k < |t.flushes[m].batch|
      ensures HasTried(t.published, m, t.flushes[m].batch[k])
    {
      if m == n && k == s.flushes[n].pos {
        assert t.published[|s.published|].flush == n && t.published[|s.published|].id == id;
      } else {
        TriedKept(s.published, t.published[|s.published|], m, s.flushes[m].batch[k]);
      }
    }
  }

  lemma {:induction false} TriedKept(published: seq<Publication>, p: Publication, n: nat, id: nat)
    requires HasTried(published, n, id)
    ensures HasTried(published + [p], n, id)
  {
    var i :| 0 <= i < |published| && published[i].flush == n && published[i].id == id;
    assert (published + [p])[i] == published[i];
  }

  lemma {:induction false} PublishTimesRows(s: System, cfg: Settings, t: System, n: nat, id: nat, ok: bool)
    requires RowsTimed(s, cfg) && Publishes(s, t, n, id, ok)
    ensures RowsTimed(t, cfg)
  {
    forall x | x in t.rows ensures RowTimed(t, cfg, x) {
      assert RowTimed(s, cfg, x);
      PublishKeepsFailures(s, t, n, id, ok, x);
    }
  }

  lemma {:induction false} PublishKeepsTimed(s: System, cfg: Settings, n: nat, result: PublishResult)
    requires Inv(s, cfg) && AllRecorded(s) && Timed(s, cfg)
    ensures Timed(Step(s, cfg, PublishNext(n, result)), cfg)
  {
    if n in s.flushes && s.flushes[n].pos < |s.flushes[n].batch| {
      var f, t := s.flushes[n], Step(s, cfg, PublishNext(n, result));
      PublishShape(s, cfg, n, result);
      MarkDelays(f, cfg, result, s.now);
      PublishedTimed(s, cfg, t, n, f.batch[f.pos], result.Published?);
    }
  }

  lemma {:induction false} PublishedTimed(s: System, cfg: Settings, t: System, n: nat, id: nat, ok: bool)
    requires Inv(s, cfg) && AllRecorded(s) && Timed(s, cfg) && Publishes(s, t, n, id, ok)
    requires var f := s.flushes[n];
      f.pos < |f.batch| && f.batch[f.pos] == id && MarksNext(f, t.flushes[n], cfg, ok, s.now)
    ensures Timed(t, cfg)
  {
    PublishKeepsOrder(s, t, n, id, ok);
    PublishKeepsClosed(s, cfg, t, n, id, ok);
    PublishMarks(s, cfg, t, n, id, ok);
    PublishTimesRows(s, cfg, t, n, id, ok);
    PublishKeepsDue(s, t, n, id, ok);
  }

  lemma {:induction false} PublishKeepsDue(s: System, t: System, n: nat, id: nat, ok: bool)
    requires Publishes(s, t, n, id, ok) && HeldAreDue(s) && t.flushes[n].batch == s.flushes[n].batch
    ensures HeldAreDue(t)
  {
    forall m, x | m in t.flushes && x in t.flushes[m].batch && x in t.rows ensures t.rows[x].availableAt <= t.now {
      assert x in s.flushes[m].batch;
    }
  }

  // ---------------------------------------------------------------- committing

  lemma {:induction false} CommitKeepsTimed(s: System, cfg: Settings, n: nat)
    requires Inv(s, cfg) && AllRecorded(s) && Timed(s, cfg)
    ensures Timed(Step(s, cfg, CommitFlush(n)), cfg)
  {
    if n in s.flushes && s.flushes[n].pos == |s.flushes[n].batch| {
      var t := Step(s, cfg, CommitFlush(n));
      assert Commits(s, t, n);
      CommitMarks(s, cfg, t, n);
      CommitKeepsDue(s, cfg, t, n);
      forall id | id in t.rows ensures RowTimed(t, cfg, id) {
        if id in s.flushes[n].batch {
          CommitTimesRow(s, cfg, t, n, id);
        } else {
          CommitKeepsRow(s, cfg, t, n, id);
        }
      }
    }
  }

  predicate Commits(s: System, t: System, n: nat) {
    n in s.flushes && s.flushes[n].pos == |s.flushes[n].batch| && t.rows == Committed(s.rows, s.flushes[n]) &&
    t.flushes == s.flushes - {n} && t.published == s.published && t.next == s.next && t.aborted == s.aborted &&
    t.now == s.now
  }

  lemma {:induction false} CommitMarks(s: System, cfg: Settings, t: System, n: nat)
    requires AllMarked(s, cfg) && Commits(s, t, n)
    ensures AllMarked(t, cfg)
  {
    forall i | 0 <= i < |t.published| ensures Marked(t, cfg, i) {
      assert Marked(s, cfg, i);
    }
  }

  lemma {:induction false} CommitKeepsDue(s: System, cfg: Settings, t: System, n: nat)
    requires Inv(s, cfg) && HeldAreDue(s) && Commits(s, t, n)
    ensures HeldAreDue(t)
  {
    forall m, id | m in t.flushes && id in t.flushes[m].batch && id in t.rows ensures t.rows[id].availableAt <= t.now {
      OthersUntouched(s, cfg, n, m);
      assert id in s.flushes[m].batch && id in s.rows;
    }
  }

  // A row outside the batch stays as it was, and so do its failures.
  lemma {:induction false} CommitKeepsRow(s: System, cfg: Settings, t: System, n: nat, id: nat)
    requires Inv(s, cfg) && AllRecorded(s) && RowsTimed(s, cfg) && Commits(s, t, n)
    requires id !in s.flushes[n].batch
    ensures RowTimed(t, cfg, id)
  {
    UntouchedRow(s.rows, s.flushes[n], cfg, id);
    forall i: nat ensures Failure(t, i, id) <==> Failure(s, i, id) {
      if i < |s.published| { assert Recorded(s, s.published[i]); }
    }
    assert Failures(t, id) == Failures(s, id);
    if id in s.rows { assert RowTimed(s, cfg, id); }
  }

  // A row of the batch that is still pending has one more failure, its latest.
  lemma {:induction false} CommitTimesRow(s: System, cfg: Settings, t: System, n: nat, id: nat)
    requires Inv(s, cfg) && AllRecorded(s) && Timed(s, cfg) && Commits(s, t, n)
    requires id in s.flushes[n].batch
    ensures RowTimed(t, cfg, id)
  {
    var f := s.flushes[n];
    CommittedRow(s.rows, f, cfg, id);
    if id in t.rows && Pending(t.rows[id]) {
      var i := TriedBy(s, cfg, n, id);
      assert Recorded(s, s.published[i]) && Marked(s, cfg, i) && RowTimed(s, cfg, id);
      OneMoreFailure(s, t, n, id, i);
      assert t.rows[id] == f.loaded[id] && t.rows[id].attempts == |Failures(t, id)|;
    }
  }

  lemma {:induction false} TriedBy(s: System, cfg: Settings, n: nat, id: nat) returns (i: nat)
    requires AllMarked(s, cfg) && n in s.flushes && s.flushes[n].pos == |s.flushes[n].batch|
    requires id in s.flushes[n].batch
    ensures i < |s.published| && s.published[i].flush == n && s.published[i].id == id
  {
    var k :| 0 <= k < |s.flushes[n].batch| && s.flushes[n].batch[k] == id;
    assert HasTried(s.published, n, s.flushes[n].batch[k]);
    i :| 0 <= i < |s.published| && s.published[i].flush == n && s.published[i].id == id;
  }

  lemma {:induction false} OneMoreFailure(s: System, t: System, n: nat, id: nat, i: nat)
    requires EarlierClosed(s) && AllRecorded(s) && Commits(s, t, n) && n !in s.aborted
    requires i < |s.published| && s.published[i].flush == n && s.published[i].id == id && !s.published[i].ok
    ensures Failures(t, id) == Failures(s, id) + {i} && i !in Failures(s, id)
    ensures |Failures(t, id)| == |Failures(s, id)| + 1 && IsLast(Failures(t, id), i)
    ensures forall l: nat :: IsLast(Failures(t, id), l) ==> l == i
  {
    assert Recorded(s, s.published[i]);
    forall k: nat ensures Failure(t, k, id) <==> Failure(s, k, id) || k == i {
      if k < |s.published| && s.published[k].id == id && s.published[k].flush == n {
        assert k == i;
      }
    }
    assert Failures(t, id) == Failures(s, id) + {i};
    forall k | k in Failures(s, id) ensures k <= i {
      assert s.published[k].id == s.published[i].id;
    }
  }

  // ---------------------------------------------------------------- the other steps

  // Steps that publish nothing and commit no flush.
  lemma {:induction false} OtherTimes(s: System, cfg: Settings, e: Event)
    requires Inv(s, cfg) && AllRecorded(s) && Timed(s, cfg) && !e.PublishNext? && !e.CommitFlush?
    ensures Timed(Step(s, cfg, e), cfg)
  {
    OtherRuns(s, cfg, e);
    OtherOpen(s, cfg, e);
    HeldStayDue(s, cfg, e);
    OtherMarks(s, cfg, Step(s, cfg, e));
    OtherTimesRows(s, cfg, e);
  }

  // Present rows and their failures stay as they were.
  lemma {:induction false} OtherTimesRows(s: System, cfg: Settings, e: Event)
    requires Inv(s, cfg) && AllRecorded(s) && RowsTimed(s, cfg) && !e.PublishNext? && !e.CommitFlush?
    ensures RowsTimed(Step(s, cfg, e), cfg)
  {
    var t := Step(s, cfg, e);
    OtherRuns(s, cfg, e);
    forall id | id in t.rows ensures RowTimed(t, cfg, id) {
      OtherFailures(s, cfg, e, id);
      if id in s.rows {
        assert RowTimed(s, cfg, id);
      } else {
        NewRowUntried(s, cfg, e, id);
      }
    }
  }

  lemma {:induction false} OtherMarks(s: System, cfg: Settings, t: System)
    requires AllRecorded(s) && AllMarked(s, cfg) && t.published == s.published
    requires forall n :: n in t.flushes ==>
      (n in s.flushes && t.flushes[n] == s.flushes[n]) || (n == s.next && t.flushes[n].pos == 0)
    ensures AllMarked(t, cfg)
  {
    forall i | 0 <= i < |t.published| ensures Marked(t, cfg, i) {
      assert Marked(s, cfg, i) && Recorded(s, s.published[i]);
    }
    forall m, k | m in t.flushes && 0 <= k < t.flushes[m].pos && k < |t.flushes[m].batch|
      ensures HasTried(t.published, m, t.flushes[m].batch[k])
    {
      assert m in s.flushes;
    }
  }

  lemma {:induction false} OtherOpen(s: System, cfg: Settings, e: Event)
    ensures !e.PublishNext? && !e.CommitFlush? ==>
      var t := Step(s, cfg, e);
        s.now <= t.now &&
        forall n :: n in t.flushes ==>
          (n in s.flushes && t.flushes[n] == s.flushes[n]) || (n == s.next && t.flushes[n].pos == 0)
  {
  }

  lemma {:induction false} OtherFailures(s: System, cfg: Settings, e: Event, id: nat)
    requires Inv(s, cfg) && AllRecorded(s) && !e.PublishNext? && !e.CommitFlush?
    ensures Failures(Step(s, cfg, e), id) == Failures(s, id)
  {
    var t := Step(s, cfg, e);
    OtherCommits(s, cfg, e);
    forall i: nat ensures Failure(t, i, id) <==> Failure(s, i, id) {
      if i < |s.published| { assert Recorded(s, s.published[i]); }
    }
  }

  lemma {:induction false} OtherCommits(s: System, cfg: Settings, e: Event)
    ensures !e.PublishNext? && !e.CommitFlush? ==>
      var t := Step(s, cfg, e);
        t.published == s.published &&
        forall n: nat :: n < s.next ==> (CommittedFlush(t, n) <==> CommittedFlush(s, n))
  {
  }

  lemma {:induction false} NewRowUntried(s: System, cfg: Settings, e: Event, id: nat)
    requires Inv(s, cfg) && AllRecorded(s) && !e.PublishNext? && !e.CommitFlush?
    requires id in Step(s, cfg, e).rows && id !in s.rows
    ensures Failures(s, id) == {} && Step(s, cfg, e).rows[id].attempts == 0
  {
    NewRow(s, cfg, e, id);
    forall i: nat ensures !Failure(s, i, id) {
      if i < |s.published| { assert Recorded(s, s.published[i]); }
    }
  }

  lemma {:induction false} NewRow(s: System, cfg: Settings, e: Event, id: nat)
    ensures !e.PublishNext? && !e.CommitFlush? && id in Step(s, cfg, e).rows && id !in s.rows ==>
      id !in s.ledger && Step(s, cfg, e).rows[id].attempts == 0
  {
  }

  lemma {:induction false} HeldStayDue(s: System, cfg: Settings, e: Event)
    requires Inv(s, cfg) && HeldAreDue(s) && !e.PublishNext? && !e.CommitFlush?
    ensures HeldAreDue(Step(s, cfg, e))
  {
    var t := Step(s, cfg, e);
    OtherRuns(s, cfg, e);
    OtherOpen(s, cfg, e);
    if e.BeginFlush? {
      ClaimIsDue(s.rows, Locked(s), cfg.batchSize, s.now);
    } else {
      forall n, id | n in t.flushes && id in t.flushes[n].batch && id in t.rows
        ensures t.rows[id].availableAt <= t.now
      {
        HeldStays(s, cfg, e, n, id);
      }
    }
  }

  lemma {:induction false} ClaimIsDue(rows: map<nat, Row>, locked: set<nat>, limit: nat, now: real)
    ensures forall id :: id in ClaimBatch(rows, locked, limit, now).batch ==>
      (id in rows && rows[id].availableAt <= now)
  {
    FirstIdsAreLowest(DueIds(rows, locked, now), limit);
  }

  lemma {:induction false} HeldStays(s: System, cfg: Settings, e: Event, n: nat, id: nat)
    requires Inv(s, cfg) && !e.PublishNext? && !e.CommitFlush? && !e.BeginFlush?
    requires n in Step(s, cfg, e).flushes && id in Step(s, cfg, e).flushes[n].batch
    ensures n in s.flushes && id in s.flushes[n].batch && id in s.rows
    ensures id in Step(s, cfg, e).rows && Step(s, cfg, e).rows[id] == s.rows[id]
  {
    OtherRuns(s, cfg, e);
  }

  lemma {:induction false} StepKeepsTimed(s: System, cfg: Settings, e: Event)
    requires Inv(s, cfg) && AllRecorded(s) && Timed(s, cfg)
    ensures Timed(Step(s, cfg, e), cfg)
  {
    match e
    case PublishNext(n, result) => PublishKeepsTimed(s, cfg, n, result);
    case CommitFlush(n) => CommitKeepsTimed(s, cfg, n);
    case _ => OtherTimes(s, cfg, e);
  }

  lemma {:induction false} AlwaysTimed(cfg: Settings, events: seq<Event>)
    ensures Timed(After(cfg, events), cfg)
  {
    if events != [] {
      var n := |events| - 1;
      AlwaysSound(cfg, events[..n]);
      AlwaysTimed(cfg, events[..n]);
      StepKeepsTimed(After(cfg, events[..n]), cfg, events[n]);
    }
  }

  // ---------------------------------------------------------------- main results

  // A flush publishes only what is pending and due, as committed.
  lemma {:induction false} PublishedWhenDue(cfg: Settings, events: seq<Event>, n: nat, result: PublishResult)
    requires |After(cfg, events + [PublishNext(n, result)]).published| > |After(cfg, events).published|
    ensures var s := After(cfg, events);
      var published := After(cfg, events + [PublishNext(n, result)]).published;
      published[..|s.published|] == s.published && |published| == |s.published| + 1 &&
      var p := published[|s.published|];
      p.at == s.now && p.ok == result.Published? && p.id in s.rows &&
      s.rows[p.id].processedAt.None? && s.rows[p.id].availableAt <= p.at
  {
    var s := After(cfg, events);
    assert (events + [PublishNext(n, result)])[..|events|] == events;
    AlwaysSound(cfg, events);
    AlwaysTimed(cfg, events);
    PublishTimes(s, cfg, n, result);
  }

  lemma {:induction false} PublishTimes(s: System, cfg: Settings, n: nat, result: PublishResult)
    requires Inv(s, cfg) && HeldAreDue(s)
    requires |Step(s, cfg, PublishNext(n, result)).published| > |s.published|
    ensures var published := Step(s, cfg, PublishNext(n, result)).published;
      |published| == |s.published| + 1 && published[..|s.published|] == s.published &&
      var p := published[|s.published|];
      p.at == s.now && p.ok == result.Published? && p.id in s.rows &&
      Pending(s.rows[p.id]) && s.rows[p.id].availableAt <= p.at
  {
    PublishShape(s, cfg, n, result);
    NextRecord(s.rows, s.flushes[n], cfg);
    assert s.flushes[n].batch[s.flushes[n].pos] in s.flushes[n].batch;
  }

  // The attempts of a pending row are its failures in committed flushes; after the n-th of them, at time t, the row is
  // due at t + min(initial delay * 2^(n - 1), maximal delay).
  lemma {:induction false} DueAfterFailures(cfg: Settings, events: seq<Event>, id: nat)
    requires var s := After(cfg, events); id in s.rows && s.rows[id].processedAt.None?
    ensures var s := After(cfg, events);
      var n := |Failures(s, id)|;
      s.rows[id].attempts == n &&
      (n > 0 ==>
        exists l: nat :: IsLast(Failures(s, id), l) && DelayedTo(cfg, n, s.published[l].at, s.rows[id].availableAt))
  {
    AlwaysTimed(cfg, events);
    RowIsTimed(After(cfg, events), cfg, id);
  }

  lemma {:induction false} DelayPasses(cfg: Settings, n: nat, from: real, to: real)
    ensures n > 0 && to == from + RetryDelay(cfg, n) ==> DelayedTo(cfg, n, from, to)
  {
  }

  // From one time to the other the delay after the n-th failure passes.
  predicate DelayedTo(cfg: Settings, n: nat, from: real, to: real) {
    n > 0 &&
    var delay := cfg.initialRetryDelay * Pow2(n - 1);
    to == from + (if delay <= cfg.maxRetryDelay then delay else cfg.maxRetryDelay)
  }

  lemma {:induction false} RowIsTimed(s: System, cfg: Settings, id: nat)
    requires RowsTimed(s, cfg) && id in s.rows && Pending(s.rows[id])
    ensures s.rows[id].attempts == |Failures(s, id)|
    ensures Failures(s, id) != {} ==>
      exists l: nat :: IsLast(Failures(s, id), l) &&
        DelayedTo(cfg, |Failures(s, id)|, s.published[l].at, s.rows[id].availableAt)
  {
    if Failures(s, id) != {} {
      var l := LastFailure(s, cfg, id);
      DelayPasses(cfg, |Failures(s, id)|, s.published[l].at, s.rows[id].availableAt);
    } else {
      assert RowTimed(s, cfg, id);
    }
  }

  lemma {:induction false} LastFailure(s: System, cfg: Settings, id: nat) returns (l: nat)
    requires RowsTimed(s, cfg) && id in s.rows && Pending(s.rows[id]) && Failures(s, id) != {}
    ensures s.rows[id].attempts == |Failures(s, id)| && IsLast(Failures(s, id), l)
    ensures s.rows[id].availableAt == s.published[l].at + RetryDelay(cfg, |Failures(s, id)|)
  {
    assert RowTimed(s, cfg, id);
    l := Last(Failures(s, id));
  }

  lemma {:induction false} Last(ids: set<nat>) returns (l: nat)
    requires ids != {}
    ensures IsLast(ids, l)
    decreases |ids|
  {
    l :| l in ids;
    if ids != {l} {
      var rest := ids - {l};
      assert ids == rest + {l} && rest != {};
      var k := Last(rest);
      if l < k { l := k; }
    }
  }

  // A row is published no earlier than its enqueue asked for, or than the enqueue if that asked for no time; until its
  // first failure it is due at exactly that time.
  lemma {:induction false} NotBeforeAsked(cfg: Settings, events: seq<Event>, k: nat, id: nat, i: nat)
    requires k < |events| && events[k].CommitEnqueues? && id in events[k].entries
    requires events[k].entries.Keys !! After(cfg, events[..k]).ledger.Keys
    ensures var s := After(cfg, events);
      var asked := events[k].entries[id].availableAt;
      var time := if asked.Some? then asked.value else After(cfg, events[..k]).now;
      (i < |s.published| && s.published[i].id == id ==> s.published[i].at >= time) &&
      (id in s.rows && s.rows[id].processedAt.None? && s.rows[id].attempts == 0 ==> s.rows[id].availableAt == time)
  {
    var asked := events[k].entries[id].availableAt;
    var time := if asked.Some? then asked.value else After(cfg, events[..k]).now;
    AskedAlways(cfg, events, k, id, time);
  }

  ghost predicate Asked(s: System, id: nat, time: real) {
    id in s.ledger &&
    (id in s.rows && Pending(s.rows[id]) && s.rows[id].attempts == 0 ==> s.rows[id].availableAt == time) &&
    forall i {:trigger s.published[i]} :: 0 <= i < |s.published| && s.published[i].id == id ==>
      s.published[i].at >= time
  }

  lemma {:induction false} AskedAlways(cfg: Settings, events: seq<Event>, k: nat, id: nat, time: real)
    requires k < |events| && events[k].CommitEnqueues? && id in events[k].entries
    requires events[k].entries.Keys !! After(cfg, events[..k]).ledger.Keys
    requires var asked := events[k].entries[id].availableAt;
      time == if asked.Some? then asked.value else After(cfg, events[..k]).now
    ensures Asked(After(cfg, events), id, time)
  {
    var n := |events| - 1;
    assert events == events[..n] + [events[n]];
    if k == n {
      AlwaysSound(cfg, events[..n]);
      AskedFirst(After(cfg, events[..n]), cfg, events[n], id);
    } else {
      assert events[..n][..k] == events[..k];
      AskedAlways(cfg, events[..n], k, id, time);
      AskedNext(cfg, events[..n], events[n], id, time);
    }
  }

  lemma {:induction false} AskedNext(cfg: Settings, events: seq<Event>, e: Event, id: nat, time: real)
    requires Asked(After(cfg, events), id, time)
    ensures Asked(After(cfg, events + [e]), id, time)
  {
    assert (events + [e])[..|events|] == events;
    AlwaysSound(cfg, events);
    AlwaysTimed(cfg, events);
    AskedStays(After(cfg, events), cfg, e, id, time);
  }

  lemma {:induction false} AskedFirst(s: System, cfg: Settings, e: Event, id: nat)
    requires AllRecorded(s) && e.CommitEnqueues? && id in e.entries && e.entries.Keys !! s.ledger.Keys
    ensures var asked := e.entries[id].availableAt;
      Asked(Step(s, cfg, e), id, if asked.Some? then asked.value else s.now)
  {
    var t := Step(s, cfg, e);
    forall i | 0 <= i < |t.published| ensures t.published[i].id != id {
      assert Recorded(s, s.published[i]);
    }
  }

  lemma {:induction false} AskedStays(s: System, cfg: Settings, e: Event, id: nat, time: real)
    requires Inv(s, cfg) && AllRecorded(s) && Timed(s, cfg) && Asked(s, id, time)
    ensures Asked(Step(s, cfg, e), id, time)
  {
    var t := Step(s, cfg, e);
    if e.PublishNext? && |t.published| > |s.published| {
      AskedPublish(s, cfg, e.flush, e.result, id, time);
    } else if e.CommitFlush? && e.flush in s.flushes && s.flushes[e.flush].pos == |s.flushes[e.flush].batch| {
      AskedCommit(s, cfg, t, e.flush, id, time);
    } else {
      StepHistory(s, cfg, e);
      AskedOther(s, cfg, e, id, time);
    }
  }

  lemma {:induction false} AskedPublish(s: System, cfg: Settings, n: nat, result: PublishResult, id: nat, time: real)
    requires Inv(s, cfg) && Timed(s, cfg) && Asked(s, id, time)
    requires |Step(s, cfg, PublishNext(n, result)).published| > |s.published|
    ensures Asked(Step(s, cfg, PublishNext(n, result)), id, time)
  {
    var t := Step(s, cfg, PublishNext(n, result));
    PublishTimes(s, cfg, n, result);
    PublishShape(s, cfg, n, result);
    PublishedLater(s, cfg, id, time);
    forall i | 0 <= i < |t.published| && t.published[i].id == id ensures t.published[i].at >= time {
      if i < |s.published| { assert t.published[i] == s.published[i]; }
    }
  }

  // Once it is due, a row that was asked for is not asked for later than now.
  lemma {:induction false} PublishedLater(s: System, cfg: Settings, id: nat, time: real)
    requires Inv(s, cfg) && Timed(s, cfg) && Asked(s, id, time)
    ensures id in s.rows && Pending(s.rows[id]) && s.rows[id].availableAt <= s.now ==> s.now >= time
  {
    if id in s.rows && Pending(s.rows[id]) && s.rows[id].attempts > 0 {
      assert RowTimed(s, cfg, id);
      var l := Last(Failures(s, id));
      assert s.published[l].id == id;
    }
  }

  lemma {:induction false} AskedCommit(s: System, cfg: Settings, t: System, n: nat, id: nat, time: real)
    requires Inv(s, cfg) && Asked(s, id, time) && Commits(s, t, n) && t.ledger == s.ledger
    ensures Asked(t, id, time)
  {
    if id in s.flushes[n].batch {
      CommittedRow(s.rows, s.flushes[n], cfg, id);
    } else {
      UntouchedRow(s.rows, s.flushes[n], cfg, id);
    }
  }

  // A step that publishes nothing and commits no flush.
  lemma {:induction false} AskedOther(s: System, cfg: Settings, e: Event, id: nat, time: real)
    requires Asked(s, id, time) && |Step(s, cfg, e).published| == |s.published|
    requires !e.CommitFlush? || Step(s, cfg, e) == s
    ensures Asked(Step(s, cfg, e), id, time)
  {
    QuietShape(s, cfg, e, id);
  }

  lemma {:induction false} QuietShape(s: System, cfg: Settings, e: Event, id: nat)
    ensures var t := Step(s, cfg, e);
      |t.published| == |s.published| && (!e.CommitFlush? || t == s) && id in s.ledger ==>
        t.published == s.published && id in t.ledger &&
        (id in t.rows ==> id in s.rows && t.rows[id] == s.rows[id])
  {
  }

  // The failures for the row of publication i up to that one, in flushes that were not rolled back.
  function FailuresUpTo(s: System, i: nat): set<nat>
    requires i < |s.published|
  {
    set k | 0 <= k <= i && s.published[k].id == s.published[i].id && !s.published[k].ok &&
      s.published[k].flush !in s.aborted
  }

  // After the n-th failure of a row at time t, whatever publishes the row again does so no earlier than
  // t + min(initial delay * 2^(n - 1), maximal delay).
  lemma {:induction false} RetriesWait(cfg: Settings, events: seq<Event>, i: nat, j: nat)
    requires var s := After(cfg, events);
      i < j < |s.published| && s.published[i].id == s.published[j].id && !s.published[i].ok &&
      s.published[i].flush !in s.aborted
    ensures var s := After(cfg, events);
      exists due :: DelayedTo(cfg, |FailuresUpTo(s, i)|, s.published[i].at, due) && s.published[j].at >= due
  {
    WaitsAlways(cfg, events, i, j);
    var s := After(cfg, events);
    DelayPasses(cfg, |FailuresUpTo(s, i)|, s.published[i].at,
                s.published[i].at + RetryDelay(cfg, |FailuresUpTo(s, i)|));
  }

  predicate Waits(s: System, cfg: Settings, i: nat, j: nat) {
    i < j < |s.published| && s.published[i].id == s.published[j].id && !s.published[i].ok &&
    s.published[i].flush !in s.aborted ==>
      |FailuresUpTo(s, i)| > 0 && s.published[j].at >= s.published[i].at + RetryDelay(cfg, |FailuresUpTo(s, i)|)
  }

  lemma {:induction false} WaitsAlways(cfg: Settings, events: seq<Event>, i: nat, j: nat)
    ensures Waits(After(cfg, events), cfg, i, j)
  {
    if events != [] {
      var n := |events| - 1;
      assert events == events[..n] + [events[n]];
      forall l: nat ensures Waits(After(cfg, events[..n]), cfg, i, l) {
        WaitsAlways(cfg, events[..n], i, l);
      }
      AlwaysSound(cfg, events[..n]);
      AlwaysTimed(cfg, events[..n]);
      WaitsStep(After(cfg, events[..n]), cfg, events[n], i, j);
    }
  }

  lemma {:induction false} WaitsStep(s: System, cfg: Settings, e: Event, i: nat, j: nat)
    requires Inv(s, cfg) && AllRecorded(s) && Timed(s, cfg) && forall l: nat :: Waits(s, cfg, i, l)
    ensures Waits(Step(s, cfg, e), cfg, i, j)
  {
    var t := Step(s, cfg, e);
    StepHistory(s, cfg, e);
    if i < j < |s.published| {
      assert Waits(s, cfg, i, j);
      WaitsStays(s, cfg, t, i, j);
    } else if j == |s.published| < |t.published| {
      WaitsNext(s, cfg, e.flush, e.result, i);
    }
  }

  lemma {:induction false} WaitsNext(s: System, cfg: Settings, n: nat, result: PublishResult, i: nat)
    requires Inv(s, cfg) && AllRecorded(s) && Timed(s, cfg) && forall l: nat :: Waits(s, cfg, i, l)
    requires |Step(s, cfg, PublishNext(n, result)).published| > |s.published|
    ensures Waits(Step(s, cfg, PublishNext(n, result)), cfg, i, |s.published|)
  {
    var t := Step(s, cfg, PublishNext(n, result));
    PublishTimes(s, cfg, n, result);
    PublishShape(s, cfg, n, result);
    var id := t.published[|s.published|].id;
    if i < |s.published| && s.published[i].id == id && !s.published[i].ok && s.published[i].flush !in s.aborted {
      NoneOpen(s, cfg, n);
      assert s.published[i].id == id && Failure(s, i, id) && i in Failures(s, id);
      var l := LastFailure(s, cfg, id);
      if i == l {
        SameFailures(s, t, cfg, n, i);
      } else {
        assert Waits(s, cfg, i, l);
        SameUpTo(s, t, i);
      }
    }
  }

  // No open flush has published the record that flush n publishes next.
  lemma {:induction false} NoneOpen(s: System, cfg: Settings, n: nat)
    requires Inv(s, cfg) && AllRecorded(s) && n in s.flushes && s.flushes[n].pos < |s.flushes[n].batch|
    ensures forall k {:trigger s.published[k].id} ::
      0 <= k < |s.published| && s.published[k].id == s.flushes[n].batch[s.flushes[n].pos] ==>
        (s.published[k].flush !in s.flushes && s.published[k].flush < s.next)
  {
    forall k | 0 <= k < |s.published| && s.published[k].id == s.flushes[n].batch[s.flushes[n].pos]
      ensures s.published[k].flush !in s.flushes && s.published[k].flush < s.next
    {
      assert Recorded(s, s.published[k]);
      NotHeldElsewhere(s, cfg, n, s.published[k]);
    }
  }

  lemma {:induction false} SameFailures(s: System, t: System, cfg: Settings, n: nat, i: nat)
    requires Inv(s, cfg) && AllRecorded(s) && n in s.flushes && s.flushes[n].pos < |s.flushes[n].batch|
    requires i < |s.published| <= |t.published| && t.published[..|s.published|] == s.published && t.aborted == s.aborted
    requires s.published[i].id == s.flushes[n].batch[s.flushes[n].pos] && IsLast(Failures(s, s.published[i].id), i)
    ensures FailuresUpTo(t, i) == Failures(s, s.published[i].id)
  {
    NoneOpen(s, cfg, n);
    var id := s.published[i].id;
    forall k: nat ensures k in FailuresUpTo(t, i) <==> k in Failures(s, id) {
      if k <= i { assert t.published[k] == s.published[k] && (k == i || s.published[k].id == s.published[k].id); }
    }
  }

  lemma {:induction false} SameUpTo(s: System, t: System, i: nat)
    requires i < |s.published| <= |t.published| && t.published[..|s.published|] == s.published
    requires forall k :: 0 <= k <= i && s.published[k].id == s.published[i].id ==>
      (s.published[k].flush in t.aborted <==> s.published[k].flush in s.aborted)
    ensures FailuresUpTo(t, i) == FailuresUpTo(s, i) && t.published[i] == s.published[i]
  {
    assert forall k :: 0 <= k <= i ==> t.published[k] == s.published[k];
  }

  // What a step does to the history.
  lemma {:induction false} StepHistory(s: System, cfg: Settings, e: Event)
    ensures var t := Step(s, cfg, e);
      (t.published == s.published ||
       (e.PublishNext? && |t.published| == |s.published| + 1 && t.published[..|s.published|] == s.published &&
        t.aborted == s.aborted)) &&
      s.aborted <= t.aborted && forall n :: n in t.aborted && n !in s.aborted ==> n in s.flushes
  {
  }

  lemma {:induction false} WaitsStays(s: System, cfg: Settings, t: System, i: nat, j: nat)
    requires EarlierClosed(s) && Waits(s, cfg, i, j) && i < j < |s.published| <= |t.published|
    requires t.published[..|s.published|] == s.published && s.aborted <= t.aborted
    requires forall n :: n in t.aborted && n !in s.aborted ==> n in s.flushes
    ensures Waits(t, cfg, i, j)
  {
    assert t.published[j] == s.published[j] && t.published[i] == s.published[i];
    if s.published[i].id == s.published[j].id && s.published[i].flush !in t.aborted {
      forall k | 0 <= k <= i && s.published[k].id == s.published[i].id
        ensures s.published[k].flush in t.aborted <==> s.published[k].flush in s.aborted
      {
        assert s.published[j].id == s.published[k].id;
      }
      SameUpTo(s, t, i);
    }
  }
}
