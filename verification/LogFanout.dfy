/** The log handler with its list of client queues, updated in place. */
module LogFanout {
  import opened LogFanoutSpec

  class ClientQueue {
    var items: seq<Record>

    constructor ()
      ensures items == []
    {
      items := [];
    }

    // put_nowait: false stands for queue.Full.
    method PutNowait(r: Record) returns (ok: bool)
      modifies this
      ensures items == Put(old(items), r) && ok == (|old(items)| < MAX_QUEUE)
    {
      ok := |items| < MAX_QUEUE;
      if ok {
        items := items + [r];
      }
    }

    // get: false stands for the timeout on an empty queue.
    method Get() returns (ok: bool, r: Record)
      modifies this
      ensures ok == (old(items) != [])
      ensures if ok then [r] + items == old(items) else items == old(items)
    {
      ok, r := items != [], "";
      if ok {
        r, items := items[0], items[1..];
      }
    }
  }

  function Occurrences<T(==)>(s: seq<T>, x: T): nat {
    if s == [] then 0 else Occurrences(s[..|s| - 1], x) + (if s[|s| - 1] == x then 1 else 0)
  }

  function PutTimes(items: seq<Record>, r: Record, n: nat): seq<Record> {
    if n == 0 then items else Put(PutTimes(items, r, n - 1), r)
  }

  class GrpcLogHandler {
    var clientQueues: seq<ClientQueue>

    constructor ()
      ensures clientQueues == []
    {
      clientQueues := [];
    }

    method AddClientQueue(q: ClientQueue)
      modifies this
      ensures clientQueues == old(clientQueues) + [q]
    {
      clientQueues := clientQueues + [q];
    }

    method RemoveClientQueue(q: ClientQueue)
      modifies this
      ensures clientQueues == Remove(old(clientQueues), q)
    {
      var i := 0;
      while i < |clientQueues| && clientQueues[i] != q
        invariant i <= |clientQueues| && clientQueues == old(clientQueues)
        invariant Remove(clientQueues, q) == clientQueues[..i] + Remove(clientQueues[i..], q)
      {
        assert clientQueues[i..][1..] == clientQueues[i + 1..];
        i := i + 1;
      }
      if i < |clientQueues| {
        assert clientQueues[i..][1..] == clientQueues[i + 1..];
        clientQueues := clientQueues[..i] + clientQueues[i + 1..];
      }
    }

    // Every queue gets the record as often as it is in the list, as far as it has room.
    method Emit(r: Record)
      modifies clientQueues
      ensures forall q :: q in clientQueues ==> q.items == PutTimes(old(q.items), r, Occurrences(clientQueues, q))
    {
      var copy := clientQueues;
      for i := 0 to |copy|
        invariant clientQueues == copy
        invariant forall q :: q in copy ==> q.items == PutTimes(old(q.items), r, Occurrences(copy[..i], q))
      {
        assert copy[..i + 1][..i] == copy[..i];
        var ok := copy[i].PutNowait(r);
      }
      assert copy[..|copy|] == copy;
    }
  }

  // ---------------------------------------------------------------- one subscriber's stream

  // What happens before one get of the consumer: records are emitted; `active` says whether its client is still there.
  datatype Turn = Turn(emitted: seq<Record>, active: bool)

  function OfferAll(q: Queue, records: seq<Record>): Queue {
    if records == [] then q else OfferTo(OfferAll(q, records[..|records| - 1]), records[|records| - 1])
  }

  function TakeFrom(q: Queue): Queue {
    if q.items == [] then q else q.(items := q.items[1..], taken := q.taken + [q.items[0]])
  }

  // The queue after these turns.
  function Served(turns: seq<Turn>): Queue {
    if turns == [] then Queue([], [], [])
    else
      var n := |turns| - 1;
      TakeFrom(OfferAll(Served(turns[..n]), turns[n].emitted))
  }

  function EmittedIn(turns: seq<Turn>): seq<Record> {
    if turns == [] then [] else EmittedIn(turns[..|turns| - 1]) + turns[|turns| - 1].emitted
  }

  lemma {:induction false} OfferAllFaithful(q: Queue, records: seq<Record>)
    requires Faithful(q)
    ensures var o := OfferAll(q, records);
      Faithful(o) && o.taken == q.taken && Records(o.offers) == Records(q.offers) + records
  {
    if records != [] {
      var n := |records| - 1;
      var o := OfferAll(q, records[..n]);
      OfferAllFaithful(q, records[..n]);
      OfferFaithful(o, records[n]);
      RecordsMore(o.offers, [Offer(records[n], |o.items|)]);
      assert records == records[..n] + [records[n]];
    }
  }

  // What a stream has served and what waits for it are the records emitted meanwhile, but for those that found its
  // queue full.
  lemma {:induction false} StreamFaithful(turns: seq<Turn>)
    ensures var q := Served(turns);
      q.taken + q.items == Accepted(q.offers) && |q.items| <= 1000 && Records(q.offers) == EmittedIn(turns)
    ensures Faithful(Served(turns))
  {
    if turns != [] {
      var n := |turns| - 1;
      StreamFaithful(turns[..n]);
      OfferAllFaithful(Served(turns[..n]), turns[n].emitted);
      var o := OfferAll(Served(turns[..n]), turns[n].emitted);
      if o.items != [] { TakeFaithful(o); }
    }
  }

  lemma {:induction false} OnceInList<T>(s: seq<T>, x: T)
    requires x !in s
    ensures Occurrences(s + [x], x) == 1 && Remove(s + [x], x) == s
  {
    NotInList(s, x);
    assert (s + [x])[..|s|] == s;
    RemoveLast(s, x);
  }

  lemma {:induction false} NotInList<T>(s: seq<T>, x: T)
    requires x !in s
    ensures Occurrences(s, x) == 0
  {
    if s != [] { NotInList(s[..|s| - 1], x); }
  }

  lemma {:induction false} RemoveLast<T>(s: seq<T>, x: T)
    requires x !in s
    ensures Remove(s + [x], x) == s
  {
    if s != [] {
      assert (s + [x])[1..] == s[1..] + [x];
      RemoveLast(s[1..], x);
    }
  }

  // Emit in order, as the other threads do.
  method EmitAll(handler: GrpcLogHandler, q: ClientQueue, records: seq<Record>, ghost before: Queue)
    requires q in handler.clientQueues && Occurrences(handler.clientQueues, q) == 1 && q.items == before.items
    modifies handler.clientQueues
    ensures q.items == OfferAll(before, records).items
  {
    for i := 0 to |records|
      invariant q.items == OfferAll(before, records[..i]).items
    {
      assert records[..i + 1][..i] == records[..i];
      handler.Emit(records[i]);
      assert PutTimes(OfferAll(before, records[..i]).items, records[i], 1) == OfferAll(before, records[..i + 1]).items;
    }
    assert records[..|records|] == records;
  }

  // Some records are emitted, then one is taken if there is any.
  method ServeTurn(handler: GrpcLogHandler, q: ClientQueue, records: seq<Record>, ghost before: Queue)
      returns (ok: bool, r: Record)
    requires q in handler.clientQueues && Occurrences(handler.clientQueues, q) == 1 && q.items == before.items
    modifies handler.clientQueues
    ensures var offered := OfferAll(before, records);
      q.items == TakeFrom(offered).items && (ok <==> offered.items != []) &&
      TakeFrom(offered).taken == before.taken + if ok then [r] else []
  {
    OfferAllTakes(before, records);
    EmitAll(handler, q, records, before);
    ok, r := q.Get();
  }

  // At this turn nothing is waiting and the client is gone.
  predicate TimedOut(turns: seq<Turn>, k: nat)
    requires k < |turns|
  {
    OfferAll(Served(turns[..k]), turns[k].emitted).items == [] && !turns[k].active
  }

  // The consumer: subscribe a new queue, take from it until a timeout finds the client gone, and unsubscribe. The
  // stream may be cut short by the end of the turns.
  method StreamLogs(handler: GrpcLogHandler, turns: seq<Turn>) returns (served: seq<Record>, done: nat)
    modifies handler, handler.clientQueues
    ensures handler.clientQueues == old(handler.clientQueues)
    ensures done <= |turns| && served == Served(turns[..done]).taken
    ensures done < |turns| ==> done > 0 && TimedOut(turns, done - 1)
    ensures forall k :: 0 <= k < done - 1 ==> !TimedOut(turns, k)
  {
    var q := new ClientQueue();
    handler.AddClientQueue(q);
    OnceInList(old(handler.clientQueues), q);
    served, done := [], 0;
    while done < |turns|
      invariant done <= |turns| && handler.clientQueues == old(handler.clientQueues) + [q]
      invariant q.items == Served(turns[..done]).items && served == Served(turns[..done]).taken
      invariant forall k :: 0 <= k < done ==> !TimedOut(turns, k)
    {
      assert turns[..done + 1][..done] == turns[..done];
      var ok, r := ServeTurn(handler, q, turns[done].emitted, Served(turns[..done]));
      done := done + 1;
      if ok {
        served := served + [r];
      } else if !turns[done - 1].active {
        break;
      }
    }
    handler.RemoveClientQueue(q);
  }

  lemma {:induction false} OfferAllTakes(q: Queue, records: seq<Record>)
    ensures OfferAll(q, records).taken == q.taken
  {
    if records != [] { OfferAllTakes(q, records[..|records| - 1]); }
  }
}
