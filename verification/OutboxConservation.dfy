/**
 Conservation: in every committed state each committed enqueue is a row or a dead letter, never both and never
 twice, with its content intact, whatever flushes were aborted on the way.
 */
module OutboxConservation {
  import opened Common
  import opened Base64
  import opened OutboxSpec
  import opened OutboxFlushes

  // ---------------------------------------------------------------- headers and messages

  lemma HeadersRoundTrip(headers: Option<map<string, Bytes>>)
    ensures DecodeHeaders(EncodeHeaders(headers)) ==
              Some(if headers == Some(map[]) then None else headers)
  {
    if headers.Some? && headers.value != map[] {
      var h := headers.value;
      var enc := EncodeHeaders(headers).value;
      forall k | k in h ensures Decode(enc[k]) == Some(h[k]) {
        RoundTrip(h[k]);
      }
      var k :| k in h;
      assert k in enc;
      assert DecodeHeaders(Some(enc)).value.value == h;
    }
  }

  predicate RowHolds(row: Row, m: Message) {
    row.topic == m.topic && row.key == m.key && row.payload == m.payload && row.headers == EncodeHeaders(m.headers)
  }

  predicate LetterHolds(letter: DeadLetter, m: Message) {
    letter.originalTopic == m.topic && letter.key == m.key && letter.payload == m.payload &&
    letter.headers == EncodeHeaders(m.headers)
  }

  // A dispatcher rebuilds the enqueued message from its row; decoding never fails.
  lemma {:induction false} RowMessage(row: Row, m: Message)
    ensures RowHolds(row, m) ==> MessageOf(row) == Some(Normal(m))
  {
    HeadersRoundTrip(m.headers);
  }

  // ---------------------------------------------------------------- the ledger

  // Every row is a committed enqueue with its content, and has failed fewer times than the limit.
  ghost predicate RowsConserved(rows: map<nat, Row>, ledger: map<nat, Message>, cfg: Settings) {
    forall id :: id in rows ==> id in ledger && RowHolds(rows[id], ledger[id]) && rows[id].attempts < AttemptLimit(cfg)
  }

  // Every dead letter is a committed enqueue with its content, no longer a row, buried once, when it reached the limit.
  ghost predicate LettersConserved(s: System, cfg: Settings) {
    |s.origins| == |s.dead| &&
    (forall i, j :: 0 <= i < j < |s.origins| ==> s.origins[i] != s.origins[j]) &&
    (forall k {:trigger s.origins[k]} :: 0 <= k < |s.origins| ==>
      s.origins[k] in s.ledger && s.origins[k] !in s.rows &&
      LetterHolds(s.dead[k], s.ledger[s.origins[k]]) && s.dead[k].attempts == AttemptLimit(cfg))
  }

  // No committed enqueue is lost.
  ghost predicate NoneLost(s: System) {
    forall id :: id in s.ledger ==> id in s.rows || id in s.origins
  }

  ghost predicate Conserved(s: System, cfg: Settings) {
    RowsConserved(s.rows, s.ledger, cfg) && LettersConserved(s, cfg) && NoneLost(s)
  }

  lemma {:induction false} EnqueueConserves(s: System, cfg: Settings, e: Event)
    requires Conserved(s, cfg) && e.CommitEnqueues?
    ensures Conserved(Step(s, cfg, e), cfg)
  {
    if e.entries.Keys !! s.ledger.Keys {
      var s' := Step(s, cfg, e);
      forall id | id in s'.rows
        ensures RowHolds(s'.rows[id], s'.ledger[id]) && s'.rows[id].attempts < AttemptLimit(cfg) {
        if id !in e.entries { assert id in s.rows; }
      }
      forall k | 0 <= k < |s'.origins|
        ensures s'.origins[k] !in s'.rows && s'.ledger[s'.origins[k]] == s.ledger[s.origins[k]] {
        assert s.origins[k] in s.ledger;
      }
    }
  }

  // What a committed flush leaves of a row it handled.
  lemma {:induction false} CommittedRow(rows: map<nat, Row>, f: Flush, cfg: Settings, id: nat)
    requires FlushSound(rows, f, cfg) && f.pos == |f.batch| && id in f.batch
    ensures id in Committed(rows, f) <==> id !in f.deleted
    ensures Handled(rows[id], f.loaded[id], id in f.deleted, cfg)
    ensures id !in f.deleted ==> Committed(rows, f)[id] == f.loaded[id]
  {
    var i :| 0 <= i < |f.batch| && f.batch[i] == id;
  }

  // What it leaves of every other row.
  lemma UntouchedRow(rows: map<nat, Row>, f: Flush, cfg: Settings, id: nat)
    ensures FlushSound(rows, f, cfg) && id !in f.batch ==>
      ((id in Committed(rows, f) <==> id in rows) &&
      (id in rows ==> Committed(rows, f)[id] == rows[id]))
  {
  }

  lemma {:induction false} CommitConservesRows(rows: map<nat, Row>, ledger: map<nat, Message>, f: Flush, cfg: Settings)
    requires RowsConserved(rows, ledger, cfg) && FlushSound(rows, f, cfg) && f.pos == |f.batch|
    ensures RowsConserved(Committed(rows, f), ledger, cfg)
  {
    var rows' := Committed(rows, f);
    forall id | id in rows'
      ensures id in ledger && RowHolds(rows'[id], ledger[id]) && rows'[id].attempts < AttemptLimit(cfg)
    {
      if id in f.batch { CommittedRow(rows, f, cfg, id); } else { UntouchedRow(rows, f, cfg, id); }
    }
  }

  // A new dead letter carries the content of the row it replaces.
  lemma {:induction false} NewLetter(rows: map<nat, Row>, ledger: map<nat, Message>, f: Flush, cfg: Settings, j: nat)
    requires RowsConserved(rows, ledger, cfg) && FlushSound(rows, f, cfg) && f.pos == |f.batch| && j < |f.deleted|
    ensures var id := f.deleted[j];
            id in rows && id in ledger && id !in Committed(rows, f) &&
            LetterHolds(f.added[j], ledger[id]) && f.added[j].attempts == AttemptLimit(cfg)
  {
    assert f.deleted[j] in f.batch;
    CommittedRow(rows, f, cfg, f.deleted[j]);
  }

  lemma OriginsStayDistinct(a: seq<nat>, b: seq<nat>)
    ensures
      (forall i, j :: 0 <= i < j < |a| ==> a[i] != a[j]) &&
      (forall i, j :: 0 <= i < j < |b| ==> b[i] != b[j]) &&
      (forall i, j :: 0 <= i < |a| && 0 <= j < |b| ==> a[i] != b[j]) ==>
      forall i, j :: 0 <= i < j < |a + b| ==> (a + b)[i] != (a + b)[j]
  {
  }

  // The dead letters of a committed flush, old and new, hold committed enqueues that are no longer rows.
  lemma {:induction false} LettersAfterCommit(s: System, cfg: Settings, n: nat, k: nat)
    requires Conserved(s, cfg) && n in s.flushes && FlushSound(s.rows, s.flushes[n], cfg)
    requires s.flushes[n].pos == |s.flushes[n].batch|
    requires k < |s.origins + s.flushes[n].deleted| == |s.dead + s.flushes[n].added|
    ensures var f := s.flushes[n];
      var id, letter := (s.origins + f.deleted)[k], (s.dead + f.added)[k];
      id in s.ledger && id !in Committed(s.rows, f) && LetterHolds(letter, s.ledger[id]) &&
      letter.attempts == AttemptLimit(cfg)
  {
    var f, before := s.flushes[n], |s.origins|;
    if k < before {
      UntouchedRow(s.rows, f, cfg, s.origins[k]);
    } else {
      NewLetter(s.rows, s.ledger, f, cfg, k - before);
    }
  }

  lemma {:induction false} OriginsAfterCommit(s: System, cfg: Settings, n: nat)
    requires Conserved(s, cfg) && n in s.flushes && FlushSound(s.rows, s.flushes[n], cfg)
    ensures var origins := s.origins + s.flushes[n].deleted;
      forall i, j :: 0 <= i < j < |origins| ==> origins[i] != origins[j]
  {
    var f := s.flushes[n];
    forall i, j | 0 <= i < |s.origins| && 0 <= j < |f.deleted| ensures s.origins[i] != f.deleted[j] {
      assert f.deleted[j] in f.batch;
    }
    OriginsStayDistinct(s.origins, f.deleted);
  }

  lemma {:induction false} CommitConservesLetters(s: System, cfg: Settings, n: nat)
    requires Conserved(s, cfg) && n in s.flushes && FlushSound(s.rows, s.flushes[n], cfg)
    requires s.flushes[n].pos == |s.flushes[n].batch|
    ensures LettersConserved(Step(s, cfg, CommitFlush(n)), cfg)
  {
    var f, s' := s.flushes[n], Step(s, cfg, CommitFlush(n));
    OriginsAfterCommit(s, cfg, n);
    forall k | 0 <= k < |s'.origins|
      ensures s'.origins[k] in s.ledger && s'.origins[k] !in s'.rows
      ensures LetterHolds(s'.dead[k], s.ledger[s'.origins[k]]) && s'.dead[k].attempts == AttemptLimit(cfg)
    {
      LettersAfterCommit(s, cfg, n, k);
    }
  }

  lemma {:induction false} CommitLosesNone(s: System, cfg: Settings, n: nat)
    requires Conserved(s, cfg) && n in s.flushes && FlushSound(s.rows, s.flushes[n], cfg)
    requires s.flushes[n].pos == |s.flushes[n].batch|
    ensures NoneLost(Step(s, cfg, CommitFlush(n)))
  {
    var f, s' := s.flushes[n], Step(s, cfg, CommitFlush(n));
    forall id | id in s.ledger ensures id in s'.rows || id in s'.origins {
      if id in f.batch { CommittedRow(s.rows, f, cfg, id); } else { UntouchedRow(s.rows, f, cfg, id); }
    }
  }

  ghost predicate Inv(s: System, cfg: Settings) {
    FlushesSound(s, cfg) && Conserved(s, cfg)
  }

  lemma {:induction false} CommitConserves(s: System, cfg: Settings, n: nat)
    requires Inv(s, cfg)
    ensures Conserved(Step(s, cfg, CommitFlush(n)), cfg)
  {
    if n in s.flushes && s.flushes[n].pos == |s.flushes[n].batch| {
      CommitConservesRows(s.rows, s.ledger, s.flushes[n], cfg);
      CommitConservesLetters(s, cfg, n);
      CommitLosesNone(s, cfg, n);
    }
  }

  // Only commits change what is conserved.
  lemma {:induction false} OtherShape(s: System, cfg: Settings, e: Event)
    ensures !e.CommitEnqueues? && !e.CommitFlush? ==>
      var t := Step(s, cfg, e);
        t.rows == s.rows && t.dead == s.dead && t.origins == s.origins && t.ledger == s.ledger
  {
  }

  lemma {:induction false} OtherConserves(s: System, t: System, cfg: Settings)
    requires Conserved(s, cfg)
    requires t.rows == s.rows && t.dead == s.dead && t.origins == s.origins && t.ledger == s.ledger
    ensures Conserved(t, cfg)
  {
    forall k | 0 <= k < |t.origins|
      ensures t.origins[k] in t.ledger && t.origins[k] !in t.rows
      ensures LetterHolds(t.dead[k], t.ledger[t.origins[k]]) && t.dead[k].attempts == AttemptLimit(cfg)
    {
      assert s.origins[k] in s.ledger;
    }
  }

  lemma {:induction false} StepConserves(s: System, cfg: Settings, e: Event)
    requires Inv(s, cfg)
    ensures Inv(Step(s, cfg, e), cfg)
  {
    StepKeepsFlushes(s, cfg, e);
    if e.CommitEnqueues? {
      EnqueueConserves(s, cfg, e);
    } else if e.CommitFlush? {
      CommitConserves(s, cfg, e.flush);
    } else {
      OtherShape(s, cfg, e);
      OtherConserves(s, Step(s, cfg, e), cfg);
    }
  }

  lemma {:induction false} AlwaysInv(cfg: Settings, events: seq<Event>)
    ensures Inv(After(cfg, events), cfg)
  {
    if events != [] {
      AlwaysInv(cfg, events[..|events| - 1]);
      StepConserves(After(cfg, events[..|events| - 1]), cfg, events[|events| - 1]);
    }
  }

  // ---------------------------------------------------------------- main results

  // Each committed enqueue is exactly one of pending, processed or dead-lettered, and its message is intact: a row
  // decodes to it, a dead letter carries its fields.
  lemma EveryEnqueueAccounted(cfg: Settings, events: seq<Event>, id: nat)
    requires id in After(cfg, events).ledger
    ensures var s := After(cfg, events);
            var m := s.ledger[id];
            (id in s.rows <==> id !in s.origins) &&
            (id in s.rows ==> MessageOf(s.rows[id]) == Some(Normal(m)) && s.rows[id].attempts < AttemptLimit(cfg)) &&
            |s.dead| == |s.origins| &&
            (forall j, k :: 0 <= j < |s.origins| && 0 <= k < |s.origins| && s.origins[j] == s.origins[k] ==> j == k) &&
            (forall k :: 0 <= k < |s.origins| && s.origins[k] == id ==>
               LetterHolds(s.dead[k], m) && s.dead[k].attempts == AttemptLimit(cfg))
  {
    AlwaysInv(cfg, events);
    var s := After(cfg, events);
    if id in s.rows { RowMessage(s.rows[id], s.ledger[id]); }
  }

  // No row is ever held by two open flushes, and every held row is committed and pending.
  lemma FlushesHoldDisjointRows(cfg: Settings, events: seq<Event>, m: nat, n: nat, id: nat)
    requires var s := After(cfg, events);
             m in s.flushes && n in s.flushes && id in s.flushes[m].batch && id in s.flushes[n].batch
    ensures m == n && id in After(cfg, events).rows && Pending(After(cfg, events).rows[id])
  {
    AlwaysInv(cfg, events);
  }
}
