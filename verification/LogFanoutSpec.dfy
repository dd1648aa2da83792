/**
 The log fan-out: every record goes to a bounded queue of each subscriber, or is dropped for those whose queue is
 full. Subscribing, unsubscribing, emitting and taking interleave freely.
 */
module LogFanoutSpec {
  const MAX_QUEUE: nat := 1000

  type Record = string

  // A record offered to a queue that held `before` records.
  datatype Offer = Offer(record: Record, before: nat)

  // `offers` and `taken` record history: every record emitted while subscribed, and every record taken.
  datatype Queue = Queue(items: seq<Record>, offers: seq<Offer>, taken: seq<Record>)

  datatype State = State(subscribers: seq<nat>, queues: map<nat, Queue>)

  datatype Event =
    | Subscribe(id: nat)
    | Unsubscribe(id: nat)
    | Emit(record: Record)
    | Take(id: nat)

  function Put(items: seq<Record>, r: Record): seq<Record> {
    if |items| < MAX_QUEUE then items + [r] else items
  }

  function OfferTo(q: Queue, r: Record): Queue {
    q.(items := Put(q.items, r), offers := q.offers + [Offer(r, |q.items|)])
  }

  // The loop of emit, over the subscribers in order.
  function EmitTo(queues: map<nat, Queue>, subscribers: seq<nat>, r: Record): map<nat, Queue> {
    if subscribers == [] then queues
    else
      var n := |subscribers| - 1;
      var before := EmitTo(queues, subscribers[..n], r);
      if subscribers[n] in before then before[subscribers[n] := OfferTo(before[subscribers[n]], r)] else before
  }

  // list.remove: the first occurrence, if any.
  function Remove<T(==)>(s: seq<T>, x: T): seq<T> {
    if s == [] then [] else if s[0] == x then s[1..] else [s[0]] + Remove(s[1..], x)
  }

  function Step(s: State, e: Event): State {
    match e
    case Subscribe(id) =>
      if id in s.queues then s else State(s.subscribers + [id], s.queues[id := Queue([], [], [])])
    case Unsubscribe(id) => s.(subscribers := Remove(s.subscribers, id))
    case Emit(r) => s.(queues := EmitTo(s.queues, s.subscribers, r))
    case Take(id) =>
      if id in s.queues && s.queues[id].items != [] then
        var q := s.queues[id];
        s.(queues := s.queues[id := q.(items := q.items[1..], taken := q.taken + [q.items[0]])])
      else s
  }

  function After(events: seq<Event>): State {
    if events == [] then State([], map[])
    else Step(After(events[..|events| - 1]), events[|events| - 1])
  }

  // ---------------------------------------------------------------- a queue delivers what it could hold

  // The records offered while the queue had room, in the order offered.
  function Accepted(offers: seq<Offer>): seq<Record> {
    if offers == [] then []
    else
      var n := |offers| - 1;
      Accepted(offers[..n]) + (if offers[n].before < MAX_QUEUE then [offers[n].record] else [])
  }

  // What was taken and what is queued are exactly the records offered while the queue had room, in order, and the
  // queue is never over its bound.
  predicate Faithful(q: Queue) {
    q.taken + q.items == Accepted(q.offers) && |q.items| <= MAX_QUEUE &&
    forall i :: 0 <= i < |q.offers| ==> q.offers[i].before <= MAX_QUEUE
  }

  ghost predicate AllFaithful(s: State) {
    (forall id :: id in s.queues ==> Faithful(s.queues[id])) &&
    (forall i {:trigger s.subscribers[i]} :: 0 <= i < |s.subscribers| ==> s.subscribers[i] in s.queues) &&
    (forall i, j :: 0 <= i < j < |s.subscribers| ==> s.subscribers[i] != s.subscribers[j])
  }

  lemma {:induction false} OfferFaithful(q: Queue, r: Record)
    requires Faithful(q)
    ensures Faithful(OfferTo(q, r))
  {
    var o := OfferTo(q, r);
    assert o.offers[..|q.offers|] == q.offers;
    assert q.taken + (q.items + [r]) == (q.taken + q.items) + [r];
  }

  lemma {:induction false} TakeFaithful(q: Queue)
    requires Faithful(q) && q.items != []
    ensures Faithful(q.(items := q.items[1..], taken := q.taken + [q.items[0]]))
  {
    assert q.taken + [q.items[0]] + q.items[1..] == q.taken + q.items;
  }

  lemma {:induction false} RemoveKeeps<T>(s: seq<T>, x: T)
    requires forall i, j :: 0 <= i < j < |s| ==> s[i] != s[j]
    ensures var r := Remove(s, x);
            (forall y :: y in r <==> y in s && y != x) && (forall i, j :: 0 <= i < j < |r| ==> r[i] != r[j])
  {
    if s != [] {
      RemoveKeeps(s[1..], x);
      assert s[0] !in s[1..];
      assert forall y :: y in s <==> y == s[0] || y in s[1..];
    }
  }

  // Each subscriber is offered the record once; nobody else's queue changes.
  lemma {:induction false} EmitOffersOnce(queues: map<nat, Queue>, subscribers: seq<nat>, r: Record)
    requires forall i, j :: 0 <= i < j < |subscribers| ==> subscribers[i] != subscribers[j]
    ensures EmitTo(queues, subscribers, r).Keys == queues.Keys
    ensures forall id :: id in queues ==>
              EmitTo(queues, subscribers, r)[id] == if id in subscribers then OfferTo(queues[id], r) else queues[id]
  {
    if subscribers != [] {
      var n := |subscribers| - 1;
      EmitOffersOnce(queues, subscribers[..n], r);
      assert subscribers == subscribers[..n] + [subscribers[n]];
    }
  }

  lemma UnsubscribeFaithful(s: State, id: nat)
    requires AllFaithful(s)
    ensures AllFaithful(Step(s, Unsubscribe(id)))
  {
    var s' := Step(s, Unsubscribe(id));
    RemoveKeeps(s.subscribers, id);
    forall i | 0 <= i < |s'.subscribers| ensures s'.subscribers[i] in s'.queues {
      assert s'.subscribers[i] in s.subscribers;
    }
  }

  lemma EmitFaithful(s: State, r: Record)
    requires AllFaithful(s)
    ensures AllFaithful(Step(s, Emit(r)))
  {
    var s' := Step(s, Emit(r));
    EmitOffersOnce(s.queues, s.subscribers, r);
    forall id | id in s'.queues ensures Faithful(s'.queues[id]) {
      OfferFaithful(s.queues[id], r);
    }
  }

  lemma StepFaithful(s: State, e: Event)
    requires AllFaithful(s)
    ensures AllFaithful(Step(s, e))
  {
    match e
    case Subscribe(_) =>
    case Unsubscribe(id) => UnsubscribeFaithful(s, id);
    case Emit(r) => EmitFaithful(s, r);
    case Take(id) => if id in s.queues && s.queues[id].items != [] { TakeFaithful(s.queues[id]); }
  }

  lemma {:induction false} AlwaysFaithful(events: seq<Event>)
    ensures AllFaithful(After(events))
  {
    if events != [] {
      AlwaysFaithful(events[..|events| - 1]);
      StepFaithful(After(events[..|events| - 1]), events[|events| - 1]);
    }
  }

  // ---------------------------------------------------------------- what was emitted, from the events alone

  // Each identifier stands for one queue, which is subscribed once and not again after it is unsubscribed.
  predicate Subscribed(events: seq<Event>, id: nat) {
    events != [] &&
    var front, e := events[..|events| - 1], events[|events| - 1];
    (Subscribed(front, id) && e != Unsubscribe(id)) || (e == Subscribe(id) && Subscribe(id) !in front)
  }

  // The records emitted while id was subscribed.
  function EmittedTo(events: seq<Event>, id: nat): seq<Record> {
    if events == [] then []
    else
      var front, e := events[..|events| - 1], events[|events| - 1];
      EmittedTo(front, id) + (if e.Emit? && Subscribed(front, id) then [e.record] else [])
  }

  // Those of them emitted while its own queue held fewer than 1000.
  function Deliverable(events: seq<Event>, id: nat): seq<Record> {
    if events == [] then []
    else
      var front, e := events[..|events| - 1], events[|events| - 1];
      Deliverable(front, id) + (if e.Emit? && Subscribed(front, id) && Room(After(front), id) then [e.record] else [])
  }

  predicate Room(s: State, id: nat) {
    id in s.queues && |s.queues[id].items| < 1000
  }

  function Records(offers: seq<Offer>): seq<Record> {
    seq(|offers|, i requires 0 <= i < |offers| => offers[i].record)
  }

  // One step offers a record exactly to those subscribed when it is emitted.
  lemma {:induction false} OfferStep(s: State, e: Event, id: nat)
    requires id in s.queues && forall i, j :: 0 <= i < j < |s.subscribers| ==> s.subscribers[i] != s.subscribers[j]
    ensures var s' := Step(s, e);
            id in s'.queues &&
            s'.queues[id].offers == s.queues[id].offers +
              (if e.Emit? && id in s.subscribers then [Offer(e.record, |s.queues[id].items|)] else [])
  {
    if e.Emit? { EmitOffersOnce(s.queues, s.subscribers, e.record); }
  }

  lemma {:induction false} SubscribedStep(s: State, e: Event, id: nat)
    requires AllFaithful(s)
    ensures var t := Step(s, e);
      (id in t.queues <==> id in s.queues || e == Subscribe(id)) &&
      (id in t.subscribers <==>
        (id in s.subscribers && e != Unsubscribe(id)) || (e == Subscribe(id) && id !in s.queues))
  {
    match e
    case Subscribe(_) =>
    case Unsubscribe(x) => RemoveKeeps(s.subscribers, x);
    case Emit(r) => EmitOffersOnce(s.queues, s.subscribers, r);
    case Take(_) =>
  }

  // The state knows who is subscribed.
  lemma {:induction false} SubscribedInState(events: seq<Event>, id: nat)
    ensures id in After(events).queues <==> Subscribe(id) in events
    ensures id in After(events).subscribers <==> Subscribed(events, id)
  {
    if events != [] {
      var n := |events| - 1;
      assert events == events[..n] + [events[n]];
      SubscribedInState(events[..n], id);
      AlwaysFaithful(events[..n]);
      SubscribedStep(After(events[..n]), events[n], id);
    }
  }

  lemma {:induction false} RecordsMore(offers: seq<Offer>, more: seq<Offer>)
    ensures Records(offers + more) == Records(offers) + Records(more)
  {
  }

  // The queue of a new subscriber is empty, in a run too.
  lemma {:induction false} JustSubscribed(front: seq<Event>, e: Event, id: nat)
    requires Subscribe(id) !in front && e == Subscribe(id)
    ensures id in After(front + [e]).queues && After(front + [e]).queues[id] == Queue([], [], [])
  {
    SubscribedInState(front, id);
    assert (front + [e])[..|front|] == front;
  }

  // In every run the records offered to a queue are exactly those emitted while it was subscribed.
  lemma {:induction false} OfferedWhileSubscribed(events: seq<Event>, id: nat)
    requires Subscribe(id) in events
    ensures id in After(events).queues && Records(After(events).queues[id].offers) == EmittedTo(events, id)
  {
    var n := |events| - 1;
    var front, e := events[..n], events[n];
    assert events == front + [e];
    if Subscribe(id) in front {
      OfferedWhileSubscribed(front, id);
      SubscribedInState(front, id);
      AlwaysFaithful(front);
      OfferStep(After(front), e, id);
      RecordsMore(After(front).queues[id].offers,
                  if e.Emit? && Subscribed(front, id) then [Offer(e.record, |After(front).queues[id].items|)] else []);
    } else {
      NothingBefore(front, id);
      JustSubscribed(front, e, id);
    }
  }

  lemma {:induction false} NothingBefore(events: seq<Event>, id: nat)
    requires Subscribe(id) !in events
    ensures !Subscribed(events, id) && EmittedTo(events, id) == [] && Deliverable(events, id) == []
  {
    if events != [] { NothingBefore(events[..|events| - 1], id); }
  }

  lemma {:induction false} AcceptedStep(offers: seq<Offer>, more: seq<Offer>)
    requires |more| <= 1
    ensures Accepted(offers + more) ==
      Accepted(offers) + (if more != [] && more[0].before < MAX_QUEUE then [more[0].record] else [])
  {
    if more == [] {
      assert offers + more == offers;
    } else {
      assert (offers + more)[..|offers|] == offers;
    }
  }

  lemma {:induction false} AcceptedIsDeliverable(events: seq<Event>, id: nat)
    requires Subscribe(id) in events
    ensures id in After(events).queues && Accepted(After(events).queues[id].offers) == Deliverable(events, id)
  {
    var n := |events| - 1;
    var front, e := events[..n], events[n];
    assert events == front + [e];
    if Subscribe(id) in front {
      AcceptedIsDeliverable(front, id);
      SubscribedInState(front, id);
      var q := After(front).queues[id];
      AlwaysFaithful(front);
      OfferStep(After(front), e, id);
      AcceptedStep(q.offers, if e.Emit? && Subscribed(front, id) then [Offer(e.record, |q.items|)] else []);
    } else {
      NothingBefore(front, id);
      JustSubscribed(front, e, id);
    }
  }

  // For every subscriber of every run: records taken followed by records queued are, in order, the records emitted
  // while it was subscribed, except those emitted while its own queue held 1000; no queue ever exceeds 1000.
  lemma {:induction false} QueuesAreFaithful(events: seq<Event>, id: nat)
    requires Subscribe(id) in events
    ensures id in After(events).queues
    ensures var q := After(events).queues[id]; q.taken + q.items == Deliverable(events, id) && |q.items| <= 1000
  {
    AcceptedIsDeliverable(events, id);
    AlwaysFaithful(events);
  }

  // ---------------------------------------------------------------- subscribers do not disturb each other

  // The events one subscriber takes part in: its own and every emission.
  function Own(events: seq<Event>, id: nat): seq<Event> {
    if events == [] then []
    else
      var n := |events| - 1;
      Own(events[..n], id) + (if events[n].Emit? || events[n].id == id then [events[n]] else [])
  }

  ghost predicate Agree(s: State, t: State, id: nat) {
    (id in s.queues <==> id in t.queues) && (id in s.queues ==> s.queues[id] == t.queues[id]) &&
    (id in s.subscribers <==> id in t.subscribers)
  }

  lemma OwnStepAgrees(s: State, t: State, e: Event, id: nat)
    requires AllFaithful(s) && AllFaithful(t) && Agree(s, t, id)
    ensures Agree(Step(s, e), Step(t, e), id)
  {
    SubscribedStep(s, e, id);
    SubscribedStep(t, e, id);
    if id in s.queues {
      OwnQueueStep(s, e, id);
      OwnQueueStep(t, e, id);
    }
  }

  // What a step does to one queue depends on that queue and its subscription only.
  lemma {:induction false} OwnQueueStep(s: State, e: Event, id: nat)
    requires AllFaithful(s) && id in s.queues
    ensures var q := s.queues[id];
      id in Step(s, e).queues &&
      Step(s, e).queues[id] ==
        if e.Emit? && id in s.subscribers then OfferTo(q, e.record)
        else if e == Take(id) && q.items != [] then q.(items := q.items[1..], taken := q.taken + [q.items[0]])
        else q
  {
    if e.Emit? { EmitOffersOnce(s.queues, s.subscribers, e.record); }
  }

  lemma OtherStepAgrees(s: State, e: Event, id: nat)
    requires AllFaithful(s) && !e.Emit? && e.id != id
    ensures Agree(Step(s, e), s, id)
  {
    if e.Unsubscribe? { RemoveKeeps(s.subscribers, e.id); }
  }

  // A subscriber's queue, what it was offered and what it took depend only on the emissions and its own actions:
  // other subscribers, however slow, never cost it a record.
  lemma {:induction false} SubscribersIndependent(events: seq<Event>, id: nat)
    ensures Agree(After(events), After(Own(events, id)), id)
  {
    if events != [] {
      var n := |events| - 1;
      var front, e := events[..n], events[n];
      SubscribersIndependent(front, id);
      AlwaysFaithful(front);
      AlwaysFaithful(Own(front, id));
      if e.Emit? || e.id == id {
        OwnStepAgrees(After(front), After(Own(front, id)), e, id);
        assert (Own(front, id) + [e])[..|Own(front, id)|] == Own(front, id);
      } else {
        OtherStepAgrees(After(front), e, id);
        assert Own(events, id) == Own(front, id);
      }
    }
  }
}
