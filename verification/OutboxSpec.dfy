/**
 The transactional outbox: committed rows and dead letters, open flushes that hold row locks and have changed rows
 only in their session, and publications, which cannot be undone.
 */
module OutboxSpec {
  import opened Common
  import opened Base64

  type Bytes = seq<Byte>

  // ---------------------------------------------------------------- messages and rows

  datatype Message = Message(topic: string, key: Option<Bytes>, payload: Bytes, headers: Option<map<string, Bytes>>)

  datatype Row = Row(
    topic: string,
    key: Option<Bytes>,
    payload: Bytes,
    headers: Option<map<string, string>>,
    attempts: nat,
    availableAt: real,
    createdAt: real,
    processedAt: Option<real>,
    lastError: Option<string>)

  datatype DeadLetter = DeadLetter(
    originalTopic: string,
    key: Option<Bytes>,
    payload: Bytes,
    headers: Option<map<string, string>>,
    attempts: nat,
    lastError: string,
    originalCreatedAt: real)

  datatype Settings = Settings(batchSize: nat, initialRetryDelay: real, maxRetryDelay: real, maxAttempts: int)

  function EncodeHeaders(headers: Option<map<string, Bytes>>): Option<map<string, string>> {
    if headers.None? || headers.value == map[] then None
    else Some(map k | k in headers.value :: Encode(headers.value[k]))
  }

  // The decoded headers, or None for an exception.
  function DecodeHeaders(headers: Option<map<string, string>>): Option<Option<map<string, Bytes>>> {
    if headers.None? || headers.value == map[] then Some(None)
    else if exists k :: k in headers.value && Decode(headers.value[k]).None? then None
    else Some(Some(map k | k in headers.value :: Decode(headers.value[k]).value))
  }

  // Empty headers are stored as none at all.
  function Normal(m: Message): Message {
    if m.headers == Some(map[]) then m.(headers := None) else m
  }

  function Enqueued(m: Message, availableAt: Option<real>, now: real): Row {
    Row(m.topic, m.key, m.payload, EncodeHeaders(m.headers), 0,
        if availableAt.Some? then availableAt.value else now, now, None, None)
  }

  // The message a dispatcher builds from a row; None for an exception while decoding.
  function MessageOf(row: Row): Option<Message> {
    match DecodeHeaders(row.headers)
    case None => None
    case Some(headers) => Some(Message(row.topic, row.key, row.payload, headers))
  }

  predicate Pending(row: Row) {
    row.processedAt.None?
  }

  // ---------------------------------------------------------------- retries

  function Pow2(n: nat): real {
    if n == 0 then 1.0 else 2.0 * Pow2(n - 1)
  }

  function RetryDelay(s: Settings, attempt: int): real {
    RealMin(s.initialRetryDelay * Pow2(if attempt - 1 > 0 then attempt - 1 else 0), s.maxRetryDelay)
  }

  function Truncated(error: string): string {
    if |error| <= 1024 then error else error[..1024]
  }

  // ---------------------------------------------------------------- one flush

  function DueIds(rows: map<nat, Row>, locked: set<nat>, now: real): set<nat> {
    set id | id in rows && Pending(rows[id]) && rows[id].availableAt <= now && id !in locked
  }

  function Least(ids: set<nat>): (m: nat)
    requires ids != {}
    ensures m in ids && forall i :: i in ids ==> m <= i
  {
    var x :| x in ids;
    LeastExists(ids, x);
    var m :| m in ids && forall i :: i in ids ==> m <= i;
    m
  }

  lemma LeastExists(ids: set<nat>, x: nat)
    requires x in ids
    ensures exists m :: m in ids && forall i :: i in ids ==> m <= i
  {
    if i :| i in ids && i < x {
      LeastExists(ids, i);
    }
  }

  // ORDER BY id LIMIT n.
  function FirstIds(ids: set<nat>, limit: nat): seq<nat>
    decreases limit
  {
    if limit == 0 || ids == {} then []
    else
      var m := Least(ids);
      [m] + FirstIds(ids - {m}, limit - 1)
  }

  // `loaded` holds the claimed records as the session sees them; `deleted` and `added` are its pending changes.
  datatype Flush = Flush(batch: seq<nat>, pos: nat, loaded: map<nat, Row>, deleted: seq<nat>, added: seq<DeadLetter>)

  datatype PublishResult = Published | Rejected(error: string)

  function ClaimBatch(rows: map<nat, Row>, locked: set<nat>, limit: nat, now: real): Flush {
    var batch := FirstIds(DueIds(rows, locked, now), limit);
    Flush(batch, 0, map id | id in rows && id in batch :: rows[id], [], [])
  }

  function Processed(row: Row, now: real): Row {
    row.(processedAt := Some(now), lastError := None)
  }

  function Failed(row: Row, error: string): Row {
    row.(attempts := row.attempts + 1, lastError := Some(Truncated(error)))
  }

  function Letter(row: Row, error: string): DeadLetter {
    DeadLetter(row.topic, row.key, row.payload, row.headers, row.attempts, Truncated(error), row.createdAt)
  }

  // Mark the record that has just been published, or failed to be.
  function Mark(f: Flush, s: Settings, result: PublishResult, now: real): Flush
    requires f.pos < |f.batch| && f.batch[f.pos] in f.loaded
  {
    var id := f.batch[f.pos];
    var row := f.loaded[id];
    match result
    case Published => f.(pos := f.pos + 1, loaded := f.loaded[id := Processed(row, now)])
    case Rejected(error) =>
      var failed := Failed(row, error);
      if failed.attempts >= s.maxAttempts then
        f.(pos := f.pos + 1, loaded := f.loaded[id := failed], deleted := f.deleted + [id],
            added := f.added + [Letter(failed, error)])
      else
        f.(pos := f.pos + 1, loaded := f.loaded[id := failed.(availableAt := now + RetryDelay(s, row.attempts + 1))])
  }

  function Committed(rows: map<nat, Row>, f: Flush): map<nat, Row> {
    (rows + f.loaded) - (set id | id in f.deleted)
  }

  // ---------------------------------------------------------------- the whole system

  datatype Publication = Publication(flush: nat, id: nat, message: Message, ok: bool, at: real)

  // `origins` lists the outbox ids of the dead letters; `ledger` the committed enqueues; `aborted` the flushes rolled
  // back; `settled` the ids handled by committed flushes. They record history and are read by no step.
  datatype System = System(
    now: real,
    rows: map<nat, Row>,
    dead: seq<DeadLetter>,
    flushes: map<nat, Flush>,
    next: nat,
    published: seq<Publication>,
    origins: seq<nat>,
    ledger: map<nat, Message>,
    aborted: set<nat>,
    settled: seq<nat>)

  datatype Entry = Entry(message: Message, availableAt: Option<real>)

  datatype Event =
    | CommitEnqueues(entries: map<nat, Entry>)
    | BeginFlush
    | PublishNext(flush: nat, result: PublishResult)
    | CommitFlush(flush: nat)
    | AbortFlush(flush: nat)
    | Tick(elapsed: real)

  function Locked(s: System): set<nat> {
    set n, id | n in s.flushes && id in s.flushes[n].batch :: id
  }

  function Abort(s: System, n: nat): System {
    s.(flushes := s.flushes - {n}, aborted := s.aborted + {n})
  }

  // One publish and the mark that follows it. A row whose headers do not decode ends the flush with an exception.
  function PublishStep(s: System, cfg: Settings, n: nat, result: PublishResult): System
    requires n in s.flushes && s.flushes[n].pos < |s.flushes[n].batch| &&
        s.flushes[n].batch[s.flushes[n].pos] in s.flushes[n].loaded
  {
    var f := s.flushes[n];
    var id := f.batch[f.pos];
    match MessageOf(f.loaded[id])
    case None => Abort(s, n)
    case Some(m) =>
      s.(flushes := s.flushes[n := Mark(f, cfg, result, s.now)],
         published := s.published + [Publication(n, id, m, result.Published?, s.now)])
  }

  // Steps that are not enabled change nothing.
  function Step(s: System, cfg: Settings, e: Event): System {
    match e
    case CommitEnqueues(entries) =>
      if entries.Keys !! s.ledger.Keys then
        s.(rows := s.rows + map id | id in entries :: Enqueued(entries[id].message, entries[id].availableAt, s.now),
           ledger := s.ledger + map id | id in entries :: entries[id].message)
      else s
    case BeginFlush =>
      s.(flushes := s.flushes[s.next := ClaimBatch(s.rows, Locked(s), cfg.batchSize, s.now)], next := s.next + 1)
    case PublishNext(n, result) =>
      if n in s.flushes && s.flushes[n].pos < |s.flushes[n].batch| &&
          s.flushes[n].batch[s.flushes[n].pos] in s.flushes[n].loaded
      then PublishStep(s, cfg, n, result)
      else s
    case CommitFlush(n) =>
      if n in s.flushes && s.flushes[n].pos == |s.flushes[n].batch| then
        var f := s.flushes[n];
        s.(rows := Committed(s.rows, f), dead := s.dead + f.added, origins := s.origins + f.deleted,
           flushes := s.flushes - {n}, settled := s.settled + f.batch)
      else s
    case AbortFlush(n) => if n in s.flushes then Abort(s, n) else s
    case Tick(elapsed) => if elapsed >= 0.0 then s.(now := s.now + elapsed) else s
  }

  function After(cfg: Settings, events: seq<Event>): System {
    if events == [] then System(0.0, map[], [], map[], 0, [], [], map[], {}, [])
    else Step(After(cfg, events[..|events| - 1]), cfg, events[|events| - 1])
  }
}
