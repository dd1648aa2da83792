/**
 The repository, the session and the dispatcher in the form of their source: a session that changes its copies of
 the claimed records in place, a transaction that commits all of it or nothing, and one flush as a loop.
 */
module Outbox {
  import opened Common
  import opened OutboxSpec
  import opened OutboxFlushes
  import opened OutboxConservation

  class Database {
    var rows: map<nat, Row>
    var dead: seq<DeadLetter>
    var nextId: nat

    constructor ()
      ensures rows == map[] && dead == [] && nextId == 0
    {
      rows, dead, nextId := map[], [], 0;
    }
  }

  // A claim takes the lowest of the rows that are pending, due and not locked.
  lemma {:induction false} ClaimTakesLowest(rows: map<nat, Row>, locked: set<nat>, limit: nat, now: real)
    ensures var batch := OutboxSpec.ClaimBatch(rows, locked, limit, now).batch;
      Sorted(batch) && |batch| <= limit &&
      forall id {:trigger id in batch} {:trigger id in rows} ::
        (id in batch ==> id in DueIds(rows, locked, now)) &&
        (id in DueIds(rows, locked, now) && id !in batch ==> |batch| == limit && forall c :: c in batch ==> c < id)
  {
    FirstIdsAreLowest(DueIds(rows, locked, now), limit);
    FirstIdsLeaveNone(DueIds(rows, locked, now), limit);
  }

  lemma {:induction false} FirstIdsLeaveNone(ids: set<nat>, limit: nat)
    ensures |FirstIds(ids, limit)| < limit ==> forall id :: id in ids ==> id in FirstIds(ids, limit)
    decreases limit
  {
    if limit != 0 && ids != {} {
      FirstIdsLeaveNone(ids - {Least(ids)}, limit - 1);
    }
  }

  // Rows inserted with consecutive new ids.
  function Inserted(rows: map<nat, Row>, first: nat, inserts: seq<Row>): map<nat, Row> {
    if inserts == [] then rows
    else
      var n := |inserts| - 1;
      Inserted(rows, first, inserts[..n])[first + n := inserts[n]]
  }

  function RowsOf(entries: seq<Entry>, now: real): (rows: seq<Row>)
    ensures |rows| == |entries|
  {
    if entries == [] then []
    else
      var n := |entries| - 1;
      RowsOf(entries[..n], now) + [Enqueued(entries[n].message, entries[n].availableAt, now)]
  }

  lemma {:induction false} RowsMore(entries: seq<Entry>, i: nat, now: real)
    requires i < |entries|
    ensures RowsOf(entries[..i + 1], now) ==
        RowsOf(entries[..i], now) + [Enqueued(entries[i].message, entries[i].availableAt, now)]
  {
    assert entries[..i + 1][..i] == entries[..i];
  }

  class OutboxSession {
    var loaded: map<nat, Row>
    var deleted: seq<nat>
    var added: seq<DeadLetter>
    var inserts: seq<Row>

    constructor ()
      ensures loaded == map[] && deleted == [] && added == [] && inserts == []
    {
      loaded, deleted, added, inserts := map[], [], [], [];
    }

    // What the session holds of a flush of this batch that has handled `pos` records.
    function AsFlush(batch: seq<nat>, pos: nat): Flush
      reads this
    {
      Flush(batch, pos, loaded, deleted, added)
    }

    // Adds one pending row, never tried, from which a dispatcher rebuilds the message; due now unless a time is given.
    method Enqueue(m: Message, availableAt: Option<real>, now: real)
      modifies this`inserts
      ensures inserts == old(inserts) + [Enqueued(m, availableAt, now)]
      ensures var row := inserts[|old(inserts)|];
              MessageOf(row) == Some(Normal(m)) && Pending(row) && row.attempts == 0 && row.createdAt == now &&
              row.availableAt == (if availableAt.Some? then availableAt.value else now) &&
              (row.headers.None? <==> m.headers.None? || m.headers.value == map[])
    {
      var row := Row(m.topic, m.key, m.payload, EncodeHeaders(m.headers), 0,
                     if availableAt.Some? then availableAt.value else now, now, None, None);
      RowMessage(row, m);
      inserts := inserts + [row];
    }

    // The unprocessed rows that are due and that no other transaction has locked: the lowest ids, in order, as many as
    // the limit allows. The session loads their committed values.
    method ClaimBatch(database: Database, locked: set<nat>, limit: nat, now: real) returns (batch: seq<nat>)
      modifies this`loaded
      ensures Sorted(batch) && |batch| <= limit
      ensures forall id :: id in batch ==>
        (id in database.rows && database.rows[id].processedAt.None? && database.rows[id].availableAt <= now &&
         id !in locked)
      ensures forall id :: id in database.rows && id !in locked && id !in batch ==>
        (database.rows[id].processedAt.None? && database.rows[id].availableAt <= now ==>
         |batch| == limit && forall c :: c in batch ==> c < id)
      ensures forall id :: id in loaded <==> id in old(loaded) || id in batch
      ensures forall id :: id in loaded ==> loaded[id] == if id in batch then database.rows[id] else old(loaded)[id]
      ensures batch == OutboxSpec.ClaimBatch(database.rows, locked, limit, now).batch
    {
      var f := OutboxSpec.ClaimBatch(database.rows, locked, limit, now);
      ClaimTakesLowest(database.rows, locked, limit, now);
      loaded := loaded + f.loaded;
      batch := f.batch;
    }

    method MarkProcessed(id: nat, now: real)
      requires id in loaded
      modifies this`loaded
      ensures loaded == old(loaded)[id := Processed(old(loaded)[id], now)]
    {
      loaded := loaded[id := loaded[id].(processedAt := Some(now), lastError := None)];
    }

    method MarkFailed(id: nat, error: string, retryDelay: real, maxAttempts: int, now: real)
      requires id in loaded
      modifies this`loaded, this`deleted, this`added
      ensures var failed := Failed(old(loaded)[id], error);
              if failed.attempts >= maxAttempts then
                loaded == old(loaded)[id := failed] && deleted == old(deleted) + [id] &&
                added == old(added) + [Letter(failed, error)]
              else
                loaded == old(loaded)[id := failed.(availableAt := now + retryDelay)] &&
                deleted == old(deleted) && added == old(added)
    {
      loaded := loaded[id := loaded[id].(attempts := loaded[id].attempts + 1)];
      loaded := loaded[id := loaded[id].(lastError := Some(Truncated(error)))];
      if loaded[id].attempts >= maxAttempts {
        MoveToDeadLetterQueue(id, error);
      } else {
        loaded := loaded[id := loaded[id].(availableAt := now + retryDelay)];
      }
    }

    method MoveToDeadLetterQueue(id: nat, error: string)
      requires id in loaded
      modifies this`deleted, this`added
      ensures deleted == old(deleted) + [id] && |added| == |old(added)| + 1 && added[..|old(added)|] == old(added)
      ensures var letter, row := added[|old(added)|], loaded[id];
              letter.originalTopic == row.topic && letter.key == row.key && letter.payload == row.payload &&
              letter.headers == row.headers && letter.attempts == row.attempts &&
              letter.originalCreatedAt == row.createdAt &&
              letter.lastError == (if |error| <= 1024 then error else error[..1024])
      ensures added == old(added) + [Letter(loaded[id], error)]
    {
      var row := loaded[id];
      added := added +
      [DeadLetter(row.topic, row.key, row.payload, row.headers, row.attempts, Truncated(error), row.createdAt)];
      deleted := deleted + [id];
    }

    // All changes of the session become visible at once.
    method Commit(database: Database)
      modifies database
      ensures database.rows == Inserted(Committed(old(database.rows), AsFlush([], 0)), old(database.nextId), inserts)
      ensures database.dead == old(database.dead) + added && database.nextId == old(database.nextId) + |inserts|
    {
      database.rows := (database.rows + loaded) - (set id | id in deleted);
      database.dead := database.dead + added;
      ghost var base, first := database.rows, database.nextId;
      for i := 0 to |inserts|
        invariant database.rows == Inserted(base, first, inserts[..i]) && database.nextId == first + i
        invariant database.dead == old(database.dead) + added
      {
        assert inserts[..i + 1][..i] == inserts[..i];
        database.rows := database.rows[database.nextId := inserts[i]];
        database.nextId := database.nextId + 1;
      }
      assert inserts[..|inserts|] == inserts;
    }
  }

  // The outcome of one publish and the time at which its record is marked.
  datatype Attempt = Attempt(result: PublishResult, at: real)

  function MarkNext(f: Flush, cfg: Settings, attempt: Attempt): Flush {
    if f.pos < |f.batch| && f.batch[f.pos] in f.loaded then Mark(f, cfg, attempt.result, attempt.at) else f
  }

  function MarkAll(f: Flush, cfg: Settings, attempts: seq<Attempt>): Flush {
    if attempts == [] then f
    else MarkNext(MarkAll(f, cfg, attempts[..|attempts| - 1]), cfg, attempts[|attempts| - 1])
  }

  lemma {:induction false} MarkNextSound(rows: map<nat, Row>, f: Flush, cfg: Settings, attempt: Attempt)
    requires FlushSound(rows, f, cfg) && f.pos < |f.batch|
    ensures var g := MarkNext(f, cfg, attempt); FlushSound(rows, g, cfg) && g.batch == f.batch && g.pos == f.pos + 1
  {
    MarkIsSound(rows, f, cfg, attempt.result, attempt.at);
    MarkKeepsBatch(f, cfg, attempt.result, attempt.at);
  }

  lemma {:induction false} MarkKeepsBatch(f: Flush, cfg: Settings, result: PublishResult, now: real)
    ensures f.pos < |f.batch| && f.batch[f.pos] in f.loaded ==>
      Mark(f, cfg, result, now).batch == f.batch && Mark(f, cfg, result, now).pos == f.pos + 1
  {
  }

  // After handling a prefix of the batch the session is sound.
  lemma {:induction false} MarkAllSound(rows: map<nat, Row>, f: Flush, cfg: Settings, attempts: seq<Attempt>)
    requires FlushSound(rows, f, cfg) && f.pos == 0 && |attempts| <= |f.batch|
    ensures var g := MarkAll(f, cfg, attempts);
            FlushSound(rows, g, cfg) && g.batch == f.batch && g.pos == |attempts|
  {
    if attempts != [] {
      var n := |attempts| - 1;
      MarkAllSound(rows, f, cfg, attempts[..n]);
      MarkNextSound(rows, MarkAll(f, cfg, attempts[..n]), cfg, attempts[n]);
    }
  }

  // The record handled next is still as committed.
  lemma {:induction false} NextUntouched(rows: map<nat, Row>, f: Flush, cfg: Settings, attempts: seq<Attempt>)
    requires FlushSound(rows, f, cfg) && f.pos == 0 && |attempts| < |f.batch|
    ensures var g, id := MarkAll(f, cfg, attempts), f.batch[|attempts|];
            g.batch == f.batch && g.pos == |attempts| && id in g.loaded && id in rows && g.loaded[id] == rows[id]
  {
    MarkAllSound(rows, f, cfg, attempts);
    NextRecord(rows, MarkAll(f, cfg, attempts), cfg);
  }

  function Successes(attempts: seq<Attempt>): nat {
    if attempts == [] then 0
    else Successes(attempts[..|attempts| - 1]) + (if attempts[|attempts| - 1].result.Published? then 1 else 0)
  }

  class OutboxDispatcher {
    const settings: Settings

    constructor (settings: Settings)
      ensures this.settings == settings
    {
      this.settings := settings;
    }

    method EnqueueEntry(session: OutboxSession, entry: Entry, now: real)
      modifies session`inserts
      ensures session.inserts == old(session.inserts) + [Enqueued(entry.message, entry.availableAt, now)]
    {
      session.Enqueue(entry.message, entry.availableAt, now);
    }

    // The handler: it enqueues these entries, or raises an exception on the way or after the last of them.
    method RunHandler(session: OutboxSession, entries: seq<Entry>, now: real, raisesAfter: Option<nat>)
      returns (raised: bool)
      requires session.inserts == []
      modifies session`inserts
      ensures raised <==> raisesAfter.Some? && raisesAfter.value <= |entries|
      ensures !raised ==> session.inserts == RowsOf(entries, now)
    {
      for i := 0 to |entries|
        invariant session.inserts == RowsOf(entries[..i], now)
        invariant !(raisesAfter.Some? && raisesAfter.value < i)
      {
        if raisesAfter == Some(i) {
          return true;
        }
        EnqueueEntry(session, entries[i], now);
        RowsMore(entries, i, now);
      }
      assert entries[..|entries|] == entries;
      return raisesAfter == Some(|entries|);
    }

    // A handler that enqueues inside one transaction: all of its rows are committed or the database is as it was.
    // The handler may raise an exception after any number of enqueues, and the commit may fail.
    method RunWithinTransaction(
        database: Database, entries: seq<Entry>, now: real, raisesAfter: Option<nat>, commitFails: bool)
      returns (committed: bool)
      modifies database
      ensures committed <==> !(raisesAfter.Some? && raisesAfter.value <= |entries|) && !commitFails
      ensures !committed ==> unchanged(database)
      ensures committed ==>
                database.rows == Inserted(old(database.rows), old(database.nextId), RowsOf(entries, now)) &&
                database.dead == old(database.dead) && database.nextId == old(database.nextId) + |entries|
    {
      var session := new OutboxSession();
      var raised := RunHandler(session, entries, now, raisesAfter);
      if raised || commitFails {
        return false;
      }
      session.Commit(database);
      assert Committed(old(database.rows), session.AsFlush([], 0)) == old(database.rows);
      return true;
    }

    // Mark the record that has just been published, or failed to be.
    method Settle(session: OutboxSession, batch: seq<nat>, pos: nat, attempt: Attempt)
      requires pos < |batch| && batch[pos] in session.loaded
      modifies session
      ensures session.AsFlush(batch, pos + 1) ==
          Mark(old(session.AsFlush(batch, pos)), settings, attempt.result, attempt.at)
      ensures session.inserts == old(session.inserts)
    {
      var id := batch[pos];
      match attempt.result {
        case Published => session.MarkProcessed(id, attempt.at);
        case Rejected(error) =>
          var retryDelay := RetryDelay(settings, session.loaded[id].attempts + 1);
          session.MarkFailed(id, error, retryDelay, settings.maxAttempts, attempt.at);
      }
    }

    // Publish and settle one claimed record; nothing is settled when the record does not decode.
    method PublishNext(session: OutboxSession, ghost rows: map<nat, Row>, ghost claim: Flush, batch: seq<nat>,
                       attempts: seq<Attempt>, pos: nat)
      returns (message: Option<Message>)
      requires FlushSound(rows, claim, settings) && claim.pos == 0 && claim.batch == batch
      requires pos < |batch| && pos < |attempts|
      requires session.AsFlush(batch, pos) == MarkAll(claim, settings, attempts[..pos])
      modifies session
      ensures session.inserts == old(session.inserts)
      ensures batch[pos] in rows && message == MessageOf(rows[batch[pos]])
      ensures message.Some? ==> session.AsFlush(batch, pos + 1) == MarkAll(claim, settings, attempts[..pos + 1])
    {
      NextUntouched(rows, claim, settings, attempts[..pos]);
      message := MessageOf(session.loaded[batch[pos]]);
      if message.Some? {
        assert attempts[..pos + 1][..pos] == attempts[..pos];
        Settle(session, batch, pos, attempts[pos]);
      }
    }

    // The loop of one flush: publish and settle the claimed records in order, until they or the attempts run out or
    // a record does not decode.
    method Drain(session: OutboxSession, ghost rows: map<nat, Row>, ghost claim: Flush, batch: seq<nat>,
        attempts: seq<Attempt>)
      returns (processed: nat, sent: seq<(nat, Message)>)
      requires FlushSound(rows, claim, settings) && claim.pos == 0 && claim.batch == batch
      requires session.AsFlush(batch, 0) == claim && session.inserts == []
      modifies session
      ensures |sent| <= |batch| && |sent| <= |attempts| && session.inserts == []
      ensures |sent| == |batch| ==> session.AsFlush(batch, |sent|) == MarkAll(claim, settings, attempts[..|sent|])
      ensures processed == Successes(attempts[..|sent|])
      ensures SentFrom(rows, batch, sent)
      ensures |sent| < |batch| && |sent| < |attempts| ==> batch[|sent|] in rows && MessageOf(rows[batch[|sent|]]).None?
    {
      processed, sent := 0, [];
      for pos := 0 to |batch|
        invariant pos <= |attempts| && |sent| == pos && session.inserts == []
        invariant session.AsFlush(batch, pos) == MarkAll(claim, settings, attempts[..pos])
        invariant processed == Successes(attempts[..pos])
        invariant SentFrom(rows, batch, sent)
      {
        if pos == |attempts| {
          return;
        }
        var message := PublishNext(session, rows, claim, batch, attempts, pos);
        if message.None? {
          return;
        }
        SentMore(rows, batch, sent, message.value);
        SuccessesMore(attempts, pos);
        sent := sent + [(batch[pos], message.value)];
        if attempts[pos].result.Published? {
          processed := processed + 1;
        }
      }
    }

    // One flush. `attempts` says how the publishes end. If they run out, a row does not decode or the commit fails,
    // the flush is cut short and the database is unchanged. Otherwise the claimed records are handled in order and
    // committed together. `sent` is what was published either way.
    method FlushOnce(database: Database, locked: set<nat>, now: real, attempts: seq<Attempt>, commitFails: bool)
      returns (committed: bool, processed: nat, sent: seq<(nat, Message)>)
      modifies database
      ensures !committed ==> unchanged(database)
      ensures committed <==>
          !commitFails && |sent| == |OutboxSpec.ClaimBatch(old(database.rows), locked, settings.batchSize, now).batch|
      ensures var batch := OutboxSpec.ClaimBatch(old(database.rows), locked, settings.batchSize, now).batch;
              |sent| < |batch| && |sent| < |attempts| ==>
                batch[|sent|] in old(database.rows) && MessageOf(old(database.rows)[batch[|sent|]]).None?
      ensures var claim := OutboxSpec.ClaimBatch(old(database.rows), locked, settings.batchSize, now);
              SentFrom(old(database.rows), claim.batch, sent) && |sent| <= |claim.batch| && |sent| <= |attempts| &&
              processed == Successes(attempts[..|sent|]) &&
              (committed ==>
                var f := MarkAll(claim, settings, attempts[..|sent|]);
                |sent| == |claim.batch| == f.pos &&
                database.rows == Committed(old(database.rows), f) && database.dead == old(database.dead) + f.added &&
                database.nextId == old(database.nextId))
    {
      var session := new OutboxSession();
      ghost var claim := OutboxSpec.ClaimBatch(database.rows, locked, settings.batchSize, now);
      ClaimIsSound(database.rows, locked, settings.batchSize, now, settings);
      var batch := session.ClaimBatch(database, locked, settings.batchSize, now);
      assert session.loaded == claim.loaded;
      committed := false;
      processed, sent := Drain(session, database.rows, claim, batch, attempts);
      if |sent| < |batch| || commitFails {
        return;
      }
      MarkAllSound(database.rows, claim, settings, attempts[..|sent|]);
      session.Commit(database);
      committed := true;
    }
  }

  lemma {:induction false} SuccessesMore(attempts: seq<Attempt>, pos: nat)
    requires pos < |attempts|
    ensures Successes(attempts[..pos + 1]) ==
        Successes(attempts[..pos]) + (if attempts[pos].result.Published? then 1 else 0)
  {
    assert attempts[..pos + 1][..pos] == attempts[..pos];
  }

  lemma {:induction false} SentMore(rows: map<nat, Row>, batch: seq<nat>, sent: seq<(nat, Message)>, m: Message)
    ensures
      SentFrom(rows, batch, sent) && |sent| < |batch| &&
      batch[|sent|] in rows && MessageOf(rows[batch[|sent|]]) == Some(m) ==>
      SentFrom(rows, batch, sent + [(batch[|sent|], m)])
  {
  }

  // Each message sent is the one of the committed row at its place in the batch.
  ghost predicate SentFrom(rows: map<nat, Row>, batch: seq<nat>, sent: seq<(nat, Message)>) {
    |sent| <= |batch| &&
    forall i :: 0 <= i < |sent| ==>
      sent[i].0 == batch[i] && batch[i] in rows && MessageOf(rows[batch[i]]) == Some(sent[i].1)
  }
}
