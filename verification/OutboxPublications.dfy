/**
 Publications against committed states: what was published, in which order, and when a row counts as processed.
 */
module OutboxPublications {
  import opened Common
  import opened OutboxSpec
  import opened OutboxFlushes
  import opened OutboxConservation

  predicate Succeeded(f: Flush, id: nat) {
    f.pos <= |f.batch| && id in f.batch[..f.pos] && id in f.loaded && !Pending(f.loaded[id])
  }

  predicate CommittedFlush(s: System, n: nat) {
    n < s.next && n !in s.flushes && n !in s.aborted
  }

  // A publication carries the enqueued message; while its flush is open the flush has handled the row; a success is
  // recorded in the flush while that is open and in the committed row after it committed.
  predicate Recorded(s: System, p: Publication) {
    p.flush < s.next && p.id in s.ledger && p.message == Normal(s.ledger[p.id]) &&
    (p.flush in s.flushes ==>
      var f := s.flushes[p.flush];
      f.pos <= |f.batch| && p.id in f.batch[..f.pos] && (p.ok ==> Succeeded(f, p.id))) &&
    (p.ok && CommittedFlush(s, p.flush) ==> p.id in s.rows && !Pending(s.rows[p.id]))
  }

  ghost predicate AllRecorded(s: System) {
    forall i {:trigger s.published[i]} :: 0 <= i < |s.published| ==> Recorded(s, s.published[i])
  }

  // Of two successes for one row, the earlier belongs to an aborted flush.
  ghost predicate SuccessesApart(s: System) {
    forall i, j {:trigger s.published[i].ok, s.published[j].ok} ::
      0 <= i < j < |s.published| && s.published[i].ok && s.published[j].ok && s.published[i].id == s.published[j].id ==>
      s.published[i].flush in s.aborted
  }

  // Within one flush publications go in increasing id order.
  ghost predicate InOrder(s: System) {
    forall i, j {:trigger s.published[i].flush, s.published[j].flush} ::
      0 <= i < j < |s.published| && s.published[i].flush == s.published[j].flush ==>
          s.published[i].id < s.published[j].id
  }

  ghost predicate HasSuccess(published: seq<Publication>, n: nat, id: nat) {
    exists i :: 0 <= i < |published| && published[i].ok && published[i].flush == n && published[i].id == id
  }

  // Every processed row, committed or in a session, has a successful publish by its flush.
  ghost predicate Backed(s: System) {
    (forall id :: id in s.rows && !Pending(s.rows[id]) ==>
        exists n :: CommittedFlush(s, n) && HasSuccess(s.published, n, id)) &&
    (forall n, id :: n in s.flushes && Succeeded(s.flushes[n], id) ==> HasSuccess(s.published, n, id))
  }

  lemma SuccessKept(published: seq<Publication>, p: Publication, n: nat, id: nat)
    requires HasSuccess(published, n, id)
    ensures HasSuccess(published + [p], n, id)
  {
    var i :| 0 <= i < |published| && published[i].ok && published[i].flush == n && published[i].id == id;
    assert (published + [p])[i] == published[i];
  }

  // ---------------------------------------------------------------- publishing

  lemma {:induction false} MarkShape(f: Flush, cfg: Settings, result: PublishResult, now: real)
    ensures f.pos < |f.batch| && f.batch[f.pos] in f.loaded && Pending(f.loaded[f.batch[f.pos]]) ==>
      var g, id := Mark(f, cfg, result, now), f.batch[f.pos];
        g.batch == f.batch && g.pos == f.pos + 1 && g.loaded == f.loaded[id := g.loaded[id]] && id in g.loaded &&
        (Pending(g.loaded[id]) <==> !result.Published?)
  {
  }

  // A publish that succeeds makes the next record succeed in the session, and nothing else does.
  lemma {:induction false} MarkSucceeded(f: Flush, cfg: Settings, result: PublishResult, now: real, id: nat)
    requires f.pos < |f.batch| && f.batch[f.pos] in f.loaded && Pending(f.loaded[f.batch[f.pos]])
    requires Sorted(f.batch)
    ensures Succeeded(Mark(f, cfg, result, now), id) <==>
              Succeeded(f, id) || (id == f.batch[f.pos] && result.Published?)
    ensures id in Mark(f, cfg, result, now).batch[..f.pos + 1] <==> id in f.batch[..f.pos] || id == f.batch[f.pos]
  {
    var g := Mark(f, cfg, result, now);
    MarkShape(f, cfg, result, now);
    NextNotHandled(f);
    assert g.batch[..g.pos] == f.batch[..f.pos] + [f.batch[f.pos]];
  }

  lemma {:induction false} NextNotHandled(f: Flush)
    requires Sorted(f.batch) && f.pos < |f.batch|
    ensures f.batch[f.pos] !in f.batch[..f.pos]
  {
    forall k | 0 <= k < f.pos ensures f.batch[k] < f.batch[f.pos] {
    }
  }

  // A row that is being published has no earlier success that counts.
  lemma {:induction false} EarlierSuccessAborted(s: System, cfg: Settings, n: nat, i: nat)
    requires Inv(s, cfg) && AllRecorded(s) && n in s.flushes && s.flushes[n].pos < |s.flushes[n].batch|
    requires i < |s.published| && s.published[i].ok && s.published[i].id == s.flushes[n].batch[s.flushes[n].pos]
    ensures s.published[i].flush in s.aborted
  {
    var f, p := s.flushes[n], s.published[i];
    assert Recorded(s, p);
    assert f.batch[f.pos] in f.batch;
    NextNotHandled(f);
  }

  lemma {:induction false} PublishAppends(s: System, cfg: Settings, n: nat, result: PublishResult)
    requires Inv(s, cfg) && n in s.flushes && s.flushes[n].pos < |s.flushes[n].batch|
    ensures var f := s.flushes[n];
            var id := f.batch[f.pos];
            id in f.loaded && id in s.ledger &&
            PublishStep(s, cfg, n, result) ==
              s.(flushes := s.flushes[n := Mark(f, cfg, result, s.now)],
                 published := s.published + [Publication(n, id, Normal(s.ledger[id]), result.Published?, s.now)])
  {
    var f := s.flushes[n];
    assert f.batch[f.pos] in f.batch;
    RowMessage(s.rows[f.batch[f.pos]], s.ledger[f.batch[f.pos]]);
  }

  // An earlier publication stays recorded when an open flush handles one more record.
  lemma {:induction false} StaysRecorded(s: System, p: Publication, n: nat, g: Flush, published: seq<Publication>)
    ensures
      Recorded(s, p) && n in s.flushes &&
      g.pos <= |g.batch| &&
      (var f := s.flushes[n]; f.pos <= |f.batch| && p.id in f.batch[..f.pos] ==> p.id in g.batch[..g.pos]) &&
      (Succeeded(s.flushes[n], p.id) ==> Succeeded(g, p.id)) ==>
      Recorded(s.(flushes := s.flushes[n := g], published := published), p)
  {
  }

  lemma {:induction false} PublishRecords(s: System, cfg: Settings, n: nat, result: PublishResult)
    requires Inv(s, cfg) && AllRecorded(s) && n in s.flushes && s.flushes[n].pos < |s.flushes[n].batch|
    ensures s.flushes[n].batch[s.flushes[n].pos] in s.flushes[n].loaded
    ensures AllRecorded(PublishStep(s, cfg, n, result))
  {
    PublishAppends(s, cfg, n, result);
    var s', f := PublishStep(s, cfg, n, result), s.flushes[n];
    NextRecord(s.rows, f, cfg);
    MarkShape(f, cfg, result, s.now);
    forall i | 0 <= i < |s'.published| ensures Recorded(s', s'.published[i]) {
      var p := s'.published[i];
      MarkSucceeded(f, cfg, result, s.now, p.id);
      if i < |s.published| {
        assert p == s.published[i];
        StaysRecorded(s, p, n, s'.flushes[n], s'.published);
      }
    }
  }

  lemma {:induction false} PublishKeepsApart(s: System, cfg: Settings, n: nat, result: PublishResult)
    requires Inv(s, cfg) && AllRecorded(s) && SuccessesApart(s) && InOrder(s)
    requires n in s.flushes && s.flushes[n].pos < |s.flushes[n].batch|
    ensures s.flushes[n].batch[s.flushes[n].pos] in s.flushes[n].loaded
    ensures SuccessesApart(PublishStep(s, cfg, n, result)) && InOrder(PublishStep(s, cfg, n, result))
  {
    PublishAppends(s, cfg, n, result);
    var s', f := PublishStep(s, cfg, n, result), s.flushes[n];
    forall i, j | 0 <= i < j < |s'.published| && s'.published[i].ok && s'.published[j].ok &&
        s'.published[i].id == s'.published[j].id
      ensures s'.published[i].flush in s'.aborted
    {
      if j == |s.published| {
        EarlierSuccessAborted(s, cfg, n, i);
      } else {
        assert s.published[i].ok && s.published[j].ok;
      }
    }
    forall i, j | 0 <= i < j < |s'.published| && s'.published[i].flush == s'.published[j].flush
      ensures s'.published[i].id < s'.published[j].id
    {
      if j == |s.published| {
        assert Recorded(s, s.published[i]);
        var k :| 0 <= k < f.pos && f.batch[k] == s.published[i].id;
        assert f.batch[k] < f.batch[f.pos];
      } else {
        assert s.published[i].flush == s.published[j].flush;
      }
    }
  }

  lemma PublishBacks(s: System, cfg: Settings, n: nat, result: PublishResult)
    requires Inv(s, cfg) && Backed(s) && n in s.flushes && s.flushes[n].pos < |s.flushes[n].batch|
    ensures s.flushes[n].batch[s.flushes[n].pos] in s.flushes[n].loaded
    ensures Backed(PublishStep(s, cfg, n, result))
  {
    PublishAppends(s, cfg, n, result);
    var s', f := PublishStep(s, cfg, n, result), s.flushes[n];
    var p := s'.published[|s.published|];
    NextRecord(s.rows, f, cfg);
    forall id | id in s'.rows && !Pending(s'.rows[id])
      ensures exists m :: CommittedFlush(s', m) && HasSuccess(s'.published, m, id) {
      var m :| CommittedFlush(s, m) && HasSuccess(s.published, m, id);
      SuccessKept(s.published, p, m, id);
      assert CommittedFlush(s', m);
    }
    forall m, id | m in s'.flushes && Succeeded(s'.flushes[m], id) ensures HasSuccess(s'.published, m, id) {
      if m == n { MarkSucceeded(f, cfg, result, s.now, id); }
      if Succeeded(s.flushes[m], id) {
        SuccessKept(s.published, p, m, id);
      } else {
        assert s'.published[|s.published|] == p && p.ok && p.flush == m && p.id == id;
      }
    }
  }

  // ---------------------------------------------------------------- committing

  lemma {:induction false} CommitRecords(s: System, cfg: Settings, n: nat)
    requires Inv(s, cfg) && AllRecorded(s) && n in s.flushes && s.flushes[n].pos == |s.flushes[n].batch|
    ensures AllRecorded(Step(s, cfg, CommitFlush(n)))
  {
    var s', f := Step(s, cfg, CommitFlush(n)), s.flushes[n];
    forall i | 0 <= i < |s'.published| ensures Recorded(s', s'.published[i]) {
      var p := s.published[i];
      assert Recorded(s, p);
      if p.ok && CommittedFlush(s', p.flush) {
        if p.flush == n {
          CommittedRow(s.rows, f, cfg, p.id);
        } else {
          UntouchedRow(s.rows, f, cfg, p.id);
        }
      }
    }
  }

  lemma CommitBacks(s: System, cfg: Settings, n: nat)
    requires Inv(s, cfg) && Backed(s) && n in s.flushes && s.flushes[n].pos == |s.flushes[n].batch|
    ensures Backed(Step(s, cfg, CommitFlush(n)))
  {
    var s', f := Step(s, cfg, CommitFlush(n)), s.flushes[n];
    forall id | id in s'.rows && !Pending(s'.rows[id])
      ensures exists m :: CommittedFlush(s', m) && HasSuccess(s'.published, m, id) {
      if id in f.batch {
        CommittedRow(s.rows, f, cfg, id);
        assert f.batch[..f.pos] == f.batch;
        assert Succeeded(f, id) && CommittedFlush(s', n);
      } else {
        UntouchedRow(s.rows, f, cfg, id);
        var m :| CommittedFlush(s, m) && HasSuccess(s.published, m, id);
        assert CommittedFlush(s', m);
      }
    }
  }

  // ---------------------------------------------------------------- the other steps

  // Steps that publish nothing and commit no flush.
  lemma {:induction false} OtherRecords(s: System, cfg: Settings, e: Event)
    requires Inv(s, cfg) && AllRecorded(s) && !e.PublishNext? && !e.CommitFlush?
    ensures AllRecorded(Step(s, cfg, e))
  {
    var s' := Step(s, cfg, e);
    OtherRuns(s, cfg, e);
    forall i | 0 <= i < |s'.published| ensures Recorded(s', s'.published[i]) {
      StillRecorded(s, s', s.published[i]);
    }
  }

  lemma {:induction false} StillRecorded(s: System, s': System, p: Publication)
    ensures
      Recorded(s, p) && s.next <= s'.next &&
      (forall id :: id in s.ledger ==> id in s'.ledger && s'.ledger[id] == s.ledger[id]) &&
      (forall id :: id in s.rows && id in s.ledger ==> id in s'.rows && s'.rows[id] == s.rows[id]) &&
      (forall n :: n in s'.flushes && n < s.next ==> n in s.flushes && s'.flushes[n] == s.flushes[n]) &&
      (forall n: nat :: n < s.next && CommittedFlush(s', n) ==> CommittedFlush(s, n)) ==>
      Recorded(s', p)
  {
  }

  // What the other steps leave of the ledger, the rows and the flushes begun so far.
  lemma {:induction false} OtherRuns(s: System, cfg: Settings, e: Event)
    ensures RowsInLedger(s) && !e.PublishNext? && !e.CommitFlush? ==>
      var t := Step(s, cfg, e);
        t.published == s.published && s.next <= t.next &&
        (forall id :: id in s.ledger ==> id in t.ledger && t.ledger[id] == s.ledger[id]) &&
        (forall id :: id in s.rows && id in s.ledger ==> id in t.rows && t.rows[id] == s.rows[id]) &&
        (forall n :: n in t.flushes && n < s.next ==> n in s.flushes && t.flushes[n] == s.flushes[n]) &&
        (forall n: nat :: n < s.next && CommittedFlush(t, n) ==> CommittedFlush(s, n))
  {
  }

  // What is backed stays so while nothing is published and no row or session becomes processed.
  lemma {:induction false} StaysBacked(s: System, s': System)
    requires Backed(s) && s'.published == s.published
    requires forall id :: id in s'.rows && !Pending(s'.rows[id]) ==> id in s.rows && !Pending(s.rows[id])
    requires forall n :: CommittedFlush(s, n) ==> CommittedFlush(s', n)
    requires forall n, id :: n in s'.flushes && Succeeded(s'.flushes[n], id) ==>
      n in s.flushes && Succeeded(s.flushes[n], id)
    ensures Backed(s')
  {
    forall id | id in s'.rows && !Pending(s'.rows[id])
      ensures exists m :: CommittedFlush(s', m) && HasSuccess(s'.published, m, id)
    {
      var m :| CommittedFlush(s, m) && HasSuccess(s.published, m, id);
      assert CommittedFlush(s', m);
    }
  }

  lemma {:induction false} OtherBacks(s: System, cfg: Settings, e: Event)
    requires Inv(s, cfg) && Backed(s) && !e.PublishNext? && !e.CommitFlush?
    ensures Backed(Step(s, cfg, e))
  {
    match e
    case CommitEnqueues(_) => EnqueueBacks(s, cfg, e);
    case BeginFlush => BeginBacks(s, cfg);
    case AbortFlush(n) => AbortBacks(s, n);
    case Tick(_) =>
  }

  lemma {:induction false} EnqueueShape(s: System, cfg: Settings, e: Event)
    ensures e.CommitEnqueues? ==>
      var t := Step(s, cfg, e);
        t.flushes == s.flushes && t.published == s.published && t.next == s.next && t.aborted == s.aborted &&
        forall id :: id in t.rows && !Pending(t.rows[id]) ==> id in s.rows && !Pending(s.rows[id])
  {
  }

  lemma {:induction false} EnqueueBacks(s: System, cfg: Settings, e: Event)
    requires Backed(s) && e.CommitEnqueues?
    ensures Backed(Step(s, cfg, e))
  {
    EnqueueShape(s, cfg, e);
    StaysBacked(s, Step(s, cfg, e));
  }

  lemma {:induction false} AbortBacks(s: System, n: nat)
    requires Backed(s)
    ensures n in s.flushes ==> Backed(Abort(s, n))
  {
    if n in s.flushes { StaysBacked(s, Abort(s, n)); }
  }

  lemma {:induction false} BeginBacks(s: System, cfg: Settings)
    requires Inv(s, cfg) && Backed(s)
    ensures Backed(Step(s, cfg, BeginFlush))
  {
    var f := ClaimBatch(s.rows, Locked(s), cfg.batchSize, s.now);
    var s' := s.(flushes := s.flushes[s.next := f], next := s.next + 1);
    assert s.next !in s.flushes && f.pos == 0;
    StaysBacked(s, s');
  }

  ghost predicate PublicationsSound(s: System) {
    AllRecorded(s) && SuccessesApart(s) && InOrder(s) && Backed(s)
  }

  lemma {:induction false} PublishKeeps(s: System, cfg: Settings, n: nat, result: PublishResult)
    requires Inv(s, cfg) && PublicationsSound(s)
    ensures PublicationsSound(Step(s, cfg, PublishNext(n, result)))
  {
    if n in s.flushes && s.flushes[n].pos < |s.flushes[n].batch| {
      NextRecord(s.rows, s.flushes[n], cfg);
      assert Step(s, cfg, PublishNext(n, result)) == PublishStep(s, cfg, n, result);
      PublishRecords(s, cfg, n, result);
      PublishKeepsApart(s, cfg, n, result);
      PublishBacks(s, cfg, n, result);
    }
  }

  lemma {:induction false} CommitKeeps(s: System, cfg: Settings, n: nat)
    requires Inv(s, cfg) && PublicationsSound(s)
    ensures PublicationsSound(Step(s, cfg, CommitFlush(n)))
  {
    if n in s.flushes && s.flushes[n].pos == |s.flushes[n].batch| {
      CommitRecords(s, cfg, n);
      CommitBacks(s, cfg, n);
      SuccessesKept(s, Step(s, cfg, CommitFlush(n)));
    }
  }

  lemma {:induction false} SuccessesKept(s: System, s': System)
    ensures SuccessesApart(s) && InOrder(s) && s'.published == s.published && s.aborted <= s'.aborted ==>
      SuccessesApart(s') && InOrder(s')
  {
  }

  lemma {:induction false} OtherKeeps(s: System, cfg: Settings, e: Event)
    requires Inv(s, cfg) && PublicationsSound(s) && !e.PublishNext? && !e.CommitFlush?
    ensures PublicationsSound(Step(s, cfg, e))
  {
    OtherRecords(s, cfg, e);
    OtherBacks(s, cfg, e);
    SuccessesKept(s, Step(s, cfg, e));
  }

  lemma {:induction false} StepKeeps(s: System, cfg: Settings, e: Event)
    requires Inv(s, cfg) && PublicationsSound(s)
    ensures PublicationsSound(Step(s, cfg, e))
  {
    match e
    case PublishNext(n, result) => PublishKeeps(s, cfg, n, result);
    case CommitFlush(n) => CommitKeeps(s, cfg, n);
    case _ => OtherKeeps(s, cfg, e);
  }

  lemma {:induction false} AlwaysSound(cfg: Settings, events: seq<Event>)
    ensures PublicationsSound(After(cfg, events)) && Inv(After(cfg, events), cfg)
  {
    AlwaysInv(cfg, events);
    if events != [] {
      AlwaysSound(cfg, events[..|events| - 1]);
      StepKeeps(After(cfg, events[..|events| - 1]), cfg, events[|events| - 1]);
    }
  }

  // ---------------------------------------------------------------- main results

  // A row is processed exactly when some committed flush published it successfully, with the enqueued message.
  lemma ProcessedIffPublished(cfg: Settings, events: seq<Event>, id: nat)
    ensures var s := After(cfg, events);
            (id in s.rows && !Pending(s.rows[id])) <==>
            exists i :: 0 <= i < |s.published| && s.published[i].ok && s.published[i].id == id &&
              CommittedFlush(s, s.published[i].flush) && id in s.ledger &&
                  s.published[i].message == Normal(s.ledger[id])
  {
    AlwaysSound(cfg, events);
    var s := After(cfg, events);
    if id in s.rows && !Pending(s.rows[id]) {
      var n :| CommittedFlush(s, n) && HasSuccess(s.published, n, id);
      var i :| 0 <= i < |s.published| && s.published[i].ok && s.published[i].flush == n && s.published[i].id == id;
      assert Recorded(s, s.published[i]);
    }
    forall i | 0 <= i < |s.published| ensures Recorded(s, s.published[i]) {
    }
  }

  // Successes that were not rolled back are unique per row: with no aborted flush every row is published
  // successfully at most once, so every processed row exactly once.
  lemma PublishedOnce(cfg: Settings, events: seq<Event>, i: nat, j: nat)
    requires var s := After(cfg, events);
             i < |s.published| && j < |s.published| && s.published[i].ok && s.published[j].ok &&
             s.published[i].id == s.published[j].id &&
             s.published[i].flush !in s.aborted && s.published[j].flush !in s.aborted
    ensures i == j
  {
    AlwaysSound(cfg, events);
    var s := After(cfg, events);
    assert s.published[i].ok && s.published[j].ok;
  }

  lemma FlushPublishesInOrder(cfg: Settings, events: seq<Event>, i: nat, j: nat)
    requires var s := After(cfg, events);
             i < j < |s.published| && s.published[i].flush == s.published[j].flush
    ensures After(cfg, events).published[i].id < After(cfg, events).published[j].id
  {
    AlwaysSound(cfg, events);
    var s := After(cfg, events);
    assert s.published[i].flush == s.published[j].flush;
  }
}
