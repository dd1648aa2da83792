/**
 What a claim selects, what a flush may hold in its session, and how the open flushes share the rows.
 */
module OutboxFlushes {
  import opened Common
  import opened OutboxSpec

  // ---------------------------------------------------------------- claims

  predicate Sorted(ids: seq<nat>) {
    forall i, j :: 0 <= i < j < |ids| ==> ids[i] < ids[j]
  }

  // A claim takes distinct ids in increasing order, as many as the limit allows, and leaves only larger ones.
  lemma {:induction false} FirstIdsAreLowest(ids: set<nat>, limit: nat)
    ensures var b := FirstIds(ids, limit);
            Sorted(b) && |b| == (if limit < |ids| then limit else |ids|) && (forall id :: id in b ==> id in ids) &&
            (forall id, c :: id in ids && id !in b && c in b ==> c < id)
    decreases limit
  {
    if limit != 0 && ids != {} {
      var m := Least(ids);
      FirstIdsAreLowest(ids - {m}, limit - 1);
      var rest := FirstIds(ids - {m}, limit - 1);
      assert FirstIds(ids, limit) == [m] + rest;
      forall id, c | id in ids && id !in [m] + rest && c in [m] + rest ensures c < id {
        if c == m {
          assert m <= id && id != m;
        } else {
          assert id in ids - {m} && c in rest;
        }
      }
      SortedPrepend(m, rest);
    }
  }

  lemma SortedPrepend(m: nat, rest: seq<nat>)
    requires Sorted(rest) && forall id :: id in rest ==> m < id
    ensures Sorted([m] + rest)
  {
    forall i, j | 0 <= i < j < |[m] + rest| ensures ([m] + rest)[i] < ([m] + rest)[j] {
      if i == 0 { assert rest[j - 1] in rest; }
    }
  }

  // ---------------------------------------------------------------- one open flush

  function AttemptLimit(cfg: Settings): nat {
    if cfg.maxAttempts > 1 then cfg.maxAttempts else 1
  }

  predicate SameContent(a: Row, b: Row) {
    a.topic == b.topic && a.key == b.key && a.payload == b.payload && a.headers == b.headers &&
    a.createdAt == b.createdAt
  }

  // How the session's copy of a handled record relates to the committed row.
  predicate Handled(row: Row, copy: Row, gone: bool, cfg: Settings) {
    SameContent(row, copy) &&
    if gone then Pending(copy) && copy.attempts == row.attempts + 1 && copy.attempts >= cfg.maxAttempts
    else if Pending(copy) then copy.attempts == row.attempts + 1 < AttemptLimit(cfg)
    else copy.attempts == row.attempts
  }

  predicate LetterFrom(letter: DeadLetter, row: Row) {
    letter.originalTopic == row.topic && letter.key == row.key && letter.payload == row.payload &&
    letter.headers == row.headers && letter.originalCreatedAt == row.createdAt && letter.attempts == row.attempts + 1
  }

  // The batch is in order, all of it loaded, committed and pending.
  ghost predicate Claimed(rows: map<nat, Row>, f: Flush) {
    Sorted(f.batch) && f.pos <= |f.batch| &&
    (forall id :: id in f.loaded <==> id in f.batch) &&
    (forall id :: id in f.batch ==> id in rows && Pending(rows[id]))
  }

  // Records not handled yet are as committed.
  ghost predicate RestUntouched(rows: map<nat, Row>, f: Flush)
    requires Claimed(rows, f)
  {
    forall i {:trigger f.batch[i]} :: f.pos <= i < |f.batch| ==>
      f.loaded[f.batch[i]] == rows[f.batch[i]] && f.batch[i] !in f.deleted
  }

  ghost predicate DoneHandled(rows: map<nat, Row>, f: Flush, cfg: Settings)
    requires Claimed(rows, f)
  {
    forall i {:trigger f.batch[i]} :: 0 <= i < f.pos ==>
      Handled(rows[f.batch[i]], f.loaded[f.batch[i]], f.batch[i] in f.deleted, cfg)
  }

  // Deleted records are distinct, and each has its dead letter.
  ghost predicate LettersSound(rows: map<nat, Row>, f: Flush)
    requires Claimed(rows, f)
  {
    |f.added| == |f.deleted| &&
    (forall i, j :: 0 <= i < j < |f.deleted| ==> f.deleted[i] != f.deleted[j]) &&
    (forall k :: 0 <= k < |f.deleted| ==> f.deleted[k] in f.batch && LetterFrom(f.added[k], rows[f.deleted[k]]))
  }

  ghost predicate FlushSound(rows: map<nat, Row>, f: Flush, cfg: Settings) {
    Claimed(rows, f) && RestUntouched(rows, f) && DoneHandled(rows, f, cfg) && LettersSound(rows, f)
  }

  lemma ClaimIsSound(rows: map<nat, Row>, locked: set<nat>, limit: nat, now: real, cfg: Settings)
    ensures var f := ClaimBatch(rows, locked, limit, now);
            FlushSound(rows, f, cfg) && forall id :: id in f.batch ==> id !in locked
  {
    FirstIdsAreLowest(DueIds(rows, locked, now), limit);
    var f := ClaimBatch(rows, locked, limit, now);
    forall id | id in f.batch ensures id in DueIds(rows, locked, now) {
    }
  }

  // g is f with the next record settled: its copy replaced and, if that is the end of it, deleted with a dead letter.
  predicate Settles(rows: map<nat, Row>, f: Flush, g: Flush, cfg: Settings)
    requires f.pos < |f.batch|
  {
    var id := f.batch[f.pos];
    g.batch == f.batch && g.pos == f.pos + 1 && id in rows && id in g.loaded &&
    g.loaded == f.loaded[id := g.loaded[id]] &&
    if g.deleted == f.deleted then g.added == f.added && Handled(rows[id], g.loaded[id], false, cfg)
    else
      g.deleted == f.deleted + [id] && |g.added| == |f.added| + 1 && g.added[..|f.added|] == f.added &&
      LetterFrom(g.added[|f.added|], rows[id]) && Handled(rows[id], g.loaded[id], true, cfg)
  }

  lemma {:induction false} SettledRest(rows: map<nat, Row>, f: Flush, g: Flush, cfg: Settings)
    requires Claimed(rows, f) && RestUntouched(rows, f) && f.pos < |f.batch| && Settles(rows, f, g, cfg)
    ensures Claimed(rows, g) && RestUntouched(rows, g)
  {
    assert f.batch[f.pos] in f.batch;
    forall i | g.pos <= i < |g.batch|
      ensures g.loaded[g.batch[i]] == rows[g.batch[i]] && g.batch[i] !in g.deleted
    {
      assert f.batch[f.pos] < f.batch[i];
    }
  }

  lemma {:induction false} SettledDone(rows: map<nat, Row>, f: Flush, g: Flush, cfg: Settings)
    requires Claimed(rows, f) && Claimed(rows, g) && RestUntouched(rows, f) && DoneHandled(rows, f, cfg)
    requires f.pos < |f.batch| && Settles(rows, f, g, cfg)
    ensures DoneHandled(rows, g, cfg)
  {
    forall i | 0 <= i < g.pos
      ensures Handled(rows[g.batch[i]], g.loaded[g.batch[i]], g.batch[i] in g.deleted, cfg)
    {
      if i < f.pos { assert f.batch[i] < f.batch[f.pos]; }
    }
  }

  lemma {:induction false} SettledLetters(rows: map<nat, Row>, f: Flush, g: Flush, cfg: Settings)
    requires Claimed(rows, f) && Claimed(rows, g) && RestUntouched(rows, f) && LettersSound(rows, f)
    requires f.pos < |f.batch| && Settles(rows, f, g, cfg)
    ensures LettersSound(rows, g)
  {
    forall k | 0 <= k < |g.deleted| ensures g.deleted[k] in g.batch && LetterFrom(g.added[k], rows[g.deleted[k]]) {
      if k < |f.deleted| { assert g.deleted[k] == f.deleted[k] && g.added[k] == f.added[k]; }
    }
  }

  lemma {:induction false} SettledStaysSound(rows: map<nat, Row>, f: Flush, g: Flush, cfg: Settings)
    requires FlushSound(rows, f, cfg) && f.pos < |f.batch| && Settles(rows, f, g, cfg)
    ensures FlushSound(rows, g, cfg)
  {
    SettledRest(rows, f, g, cfg);
    SettledDone(rows, f, g, cfg);
    SettledLetters(rows, f, g, cfg);
  }

  // The record handled next is still as committed.
  lemma {:induction false} NextRecord(rows: map<nat, Row>, f: Flush, cfg: Settings)
    requires FlushSound(rows, f, cfg) && f.pos < |f.batch|
    ensures var id := f.batch[f.pos]; id in rows && id in f.loaded && f.loaded[id] == rows[id] && Pending(rows[id])
  {
    assert f.batch[f.pos] in f.batch;
  }

  lemma {:induction false} MarkSettles(rows: map<nat, Row>, f: Flush, cfg: Settings, result: PublishResult, now: real)
    requires f.pos < |f.batch|
    requires var id := f.batch[f.pos]; id in rows && id in f.loaded && f.loaded[id] == rows[id] && Pending(rows[id])
    ensures Settles(rows, f, Mark(f, cfg, result, now), cfg)
  {
    var g := Mark(f, cfg, result, now);
    if g.deleted != f.deleted { assert g.added[..|f.added|] == f.added; }
  }

  lemma {:induction false} MarkIsSound(rows: map<nat, Row>, f: Flush, cfg: Settings, result: PublishResult, now: real)
    requires FlushSound(rows, f, cfg) && f.pos < |f.batch|
    ensures f.batch[f.pos] in f.loaded && FlushSound(rows, Mark(f, cfg, result, now), cfg)
  {
    NextRecord(rows, f, cfg);
    MarkSettles(rows, f, cfg, result, now);
    SettledStaysSound(rows, f, Mark(f, cfg, result, now), cfg);
  }

  // ---------------------------------------------------------------- all open flushes

  // Every open flush is sound, holds rows no other open flush holds, and has its own number.
  ghost predicate FlushesSound(s: System, cfg: Settings) {
    (forall n :: n in s.flushes ==> n < s.next && n !in s.aborted && FlushSound(s.rows, s.flushes[n], cfg)) &&
    (forall m, n, id {:trigger id in s.flushes[m].batch, id in s.flushes[n].batch} ::
      m in s.flushes && n in s.flushes && id in s.flushes[m].batch && id in s.flushes[n].batch ==> m == n) &&
    (forall n :: n in s.aborted ==> n < s.next)
  }

  // Ledger and rows: what commits of other transactions must not touch while a flush is open.
  lemma {:induction false} OtherRowsSound(rows: map<nat, Row>, rows': map<nat, Row>, f: Flush, cfg: Settings)
    requires FlushSound(rows, f, cfg)
    requires forall id :: id in f.batch ==> id in rows' && rows'[id] == rows[id]
    ensures FlushSound(rows', f, cfg)
  {
    forall i | 0 <= i < |f.batch| ensures f.batch[i] in f.batch {}
  }

  ghost predicate RowsInLedger(s: System) {
    forall id :: id in s.rows ==> id in s.ledger
  }

  lemma {:induction false} EnqueueKeepsFlushes(s: System, cfg: Settings, e: Event)
    requires FlushesSound(s, cfg) && RowsInLedger(s) && e.CommitEnqueues?
    ensures FlushesSound(Step(s, cfg, e), cfg)
  {
    if e.entries.Keys !! s.ledger.Keys {
      RowsGrow(s, cfg, Step(s, cfg, e));
    }
  }

  // More rows, the present ones as they were.
  lemma {:induction false} RowsGrow(s: System, cfg: Settings, s': System)
    requires FlushesSound(s, cfg)
    requires s'.flushes == s.flushes && s'.next == s.next && s'.aborted == s.aborted
    requires forall id :: id in s.rows ==> id in s'.rows && s'.rows[id] == s.rows[id]
    ensures FlushesSound(s', cfg)
  {
    forall n | n in s.flushes ensures FlushSound(s'.rows, s.flushes[n], cfg) {
      OtherRowsSound(s.rows, s'.rows, s.flushes[n], cfg);
    }
  }

  lemma {:induction false} BeginKeepsFlushes(s: System, cfg: Settings)
    requires FlushesSound(s, cfg)
    ensures FlushesSound(Step(s, cfg, BeginFlush), cfg)
  {
    ClaimIsSound(s.rows, Locked(s), cfg.batchSize, s.now, cfg);
    forall n, id | n in s.flushes && id in s.flushes[n].batch ensures id in Locked(s) {
    }
  }

  lemma ReplaceFlush(s: System, cfg: Settings, n: nat, f: Flush, published: seq<Publication>)
    ensures FlushesSound(s, cfg) && n in s.flushes && f.batch == s.flushes[n].batch && FlushSound(s.rows, f, cfg) ==>
      FlushesSound(s.(flushes := s.flushes[n := f], published := published), cfg)
  {
  }

  lemma {:induction false} AbortKeepsFlushes(s: System, cfg: Settings, n: nat)
    ensures FlushesSound(s, cfg) && n in s.flushes ==> FlushesSound(Abort(s, n), cfg)
  {
  }

  lemma {:induction false} MarkedKeepsFlushes(s: System, cfg: Settings, n: nat, result: PublishResult,
      published: seq<Publication>)
    requires FlushesSound(s, cfg) && n in s.flushes && s.flushes[n].pos < |s.flushes[n].batch|
    ensures s.flushes[n].batch[s.flushes[n].pos] in s.flushes[n].loaded
    ensures var f := Mark(s.flushes[n], cfg, result, s.now);
            FlushesSound(s.(flushes := s.flushes[n := f], published := published), cfg)
  {
    assert s.flushes[n].batch[s.flushes[n].pos] in s.flushes[n].batch;
    var f := Mark(s.flushes[n], cfg, result, s.now);
    MarkIsSound(s.rows, s.flushes[n], cfg, result, s.now);
    ReplaceFlush(s, cfg, n, f, published);
  }

  lemma {:induction false} PublishKeepsFlushes(s: System, cfg: Settings, n: nat, result: PublishResult)
    requires FlushesSound(s, cfg)
    ensures FlushesSound(Step(s, cfg, PublishNext(n, result)), cfg)
  {
    if n in s.flushes && s.flushes[n].pos < |s.flushes[n].batch| {
      var f, s' := s.flushes[n], Step(s, cfg, PublishNext(n, result));
      assert f.batch[f.pos] in f.batch;
      match MessageOf(f.loaded[f.batch[f.pos]])
      case None => AbortKeepsFlushes(s, cfg, n);
      case Some(_) => MarkedKeepsFlushes(s, cfg, n, result, s'.published);
    }
  }

  lemma {:induction false} CommitKeepsFlushes(s: System, cfg: Settings, n: nat)
    requires FlushesSound(s, cfg)
    ensures FlushesSound(Step(s, cfg, CommitFlush(n)), cfg)
  {
    if n in s.flushes && s.flushes[n].pos == |s.flushes[n].batch| {
      var s' := Step(s, cfg, CommitFlush(n));
      forall m | m in s'.flushes ensures FlushSound(s'.rows, s'.flushes[m], cfg) {
        OthersUntouched(s, cfg, n, m);
        OtherRowsSound(s.rows, s'.rows, s.flushes[m], cfg);
      }
    }
  }

  lemma {:induction false} OthersUntouched(s: System, cfg: Settings, n: nat, m: nat)
    requires FlushesSound(s, cfg) && n in s.flushes && m in s.flushes && m != n
    ensures var rows := Committed(s.rows, s.flushes[n]);
      forall id :: id in s.flushes[m].batch ==> id in rows && rows[id] == s.rows[id]
  {
    forall id | id in s.flushes[m].batch ensures id !in s.flushes[n].batch && id in s.rows {
    }
    var f := s.flushes[n];
    forall k | 0 <= k < |f.deleted| ensures f.deleted[k] in f.batch {
    }
  }

  lemma {:induction false} StepKeepsFlushes(s: System, cfg: Settings, e: Event)
    requires FlushesSound(s, cfg) && RowsInLedger(s)
    ensures FlushesSound(Step(s, cfg, e), cfg)
  {
    match e
    case CommitEnqueues(_) => EnqueueKeepsFlushes(s, cfg, e);
    case BeginFlush => BeginKeepsFlushes(s, cfg);
    case PublishNext(n, result) => PublishKeepsFlushes(s, cfg, n, result);
    case CommitFlush(n) => CommitKeepsFlushes(s, cfg, n);
    case AbortFlush(n) => if n in s.flushes { AbortKeepsFlushes(s, cfg, n); }
    case Tick(_) => RowsGrow(s, cfg, Step(s, cfg, e));
  }
}
