/**
  The server-sent-events fan-out bus (cryptomarket/project/sse_manager.py).

  Every connection owns one bounded queue, registered under a key.  subscribe, unsubscribe and
  broadcast run under one asyncio lock; only broadcast can suspend while it holds the lock: on a
  full queue, or while it deletes the cache record of a key nobody subscribes to.  Consumers take
  messages without the lock.

  `Bus` is the state between two suspension points and `Step` one atomic piece of code.
  `SseManager` is the manager itself, proved to do nothing but such steps.
*/
module SseBus {
  import opened Prelude

  /** The broadcast that holds the lock, if any: the queues its loop has still to visit and those
      whose put raised an exception other than QueueFull. */
  datatype Flight<Q, M> =
    | Idle
    | Deleting(missing: string)
    | Putting(key: string, message: M, remaining: seq<Q>, dead: seq<Q>)

  datatype Bus<Q, M> = Bus(
    capacity: nat,
    connections: map<string, set<Q>>,
    buffered: map<Q, seq<M>>,   // contents of every queue ever created
    consumed: map<Q, seq<M>>,   // what the consumers took from each, in order
    flight: Flight<Q, M>)

  datatype Event<Q, M> =
    | Subscribe(key: string, queue: Q)
    | Unsubscribe(key: string, queue: Q)
    | Start(key: string, message: M, order: seq<Q>)   // order: how the loop walks the set
    | Put(queue: Q)        // put_nowait, or the awaited put once a consumer made room
    | PutFails(queue: Q)
    | Finish
    | Deleted
    | Get(queue: Q)

  function Empty<Q, M>(capacity: nat): Bus<Q, M> {
    Bus(capacity, map[], map[], map[], Idle)
  }

  predicate Enabled<Q(==), M>(s: Bus<Q, M>, e: Event<Q, M>) {
    match e
    case Subscribe(_, q) => s.flight.Idle? && q !in s.buffered
    case Unsubscribe(_, _) => s.flight.Idle?
    case Start(key, _, order) =>
      && s.flight.Idle?
      && Distinct(order)
      && Elements(order) == (if key in s.connections then s.connections[key] else {})
    case Put(q) =>
      && s.flight.Putting? && s.flight.remaining != [] && s.flight.remaining[0] == q
      && q in s.buffered && |s.buffered[q]| < s.capacity
    case PutFails(q) => s.flight.Putting? && s.flight.remaining != [] && s.flight.remaining[0] == q
    case Finish => s.flight.Putting? && s.flight.remaining == [] && s.flight.key in s.connections
    case Deleted => s.flight.Deleting?
    case Get(q) => q in s.buffered && q in s.consumed && s.buffered[q] != []
  }

  function Added<Q(==)>(c: map<string, set<Q>>, key: string, q: Q): map<string, set<Q>> {
    c[key := (if key in c then c[key] else {}) + {q}]
  }

  /** discard, then delete the key when its set became empty. */
  function Removed<Q(==)>(c: map<string, set<Q>>, key: string, q: Q): map<string, set<Q>> {
    if key !in c then c
    else if c[key] - {q} == {} then c - {key}
    else c[key := c[key] - {q}]
  }

  function Step<Q(==), M>(s: Bus<Q, M>, e: Event<Q, M>): Bus<Q, M>
    requires Enabled(s, e)
  {
    match e
    case Subscribe(key, q) =>
      s.(connections := Added(s.connections, key, q), buffered := s.buffered[q := []], consumed := s.consumed[q := []])
    case Unsubscribe(key, q) => s.(connections := Removed(s.connections, key, q))
    case Start(key, m, order) =>
      s.(flight := if key in s.connections then Putting(key, m, order, []) else Deleting(key))
    case Put(q) =>
      s.(buffered := s.buffered[q := s.buffered[q] + [s.flight.message]],
      flight := s.flight.(remaining := s.flight.remaining[1..]))
    case PutFails(q) =>
      s.(flight := s.flight.(remaining := s.flight.remaining[1..], dead := s.flight.dead + [q]))
    case Finish =>
      var left := set q | q in s.connections[s.flight.key] && q !in s.flight.dead;
      s.(connections := s.connections[s.flight.key := left], flight := Idle)
    case Deleted => s.(flight := Idle)
    case Get(q) =>
      s.(buffered := s.buffered[q := s.buffered[q][1..]], consumed := s.consumed[q := s.consumed[q] + [s.buffered[q][0]]])
  }

  /** The state after a whole interleaving, or None when some event was not possible. */
  function Run<Q(==), M>(s: Bus<Q, M>, events: seq<Event<Q, M>>): Option<Bus<Q, M>> {
    if events == [] then Some(s)
    else
      match Run(s, Front(events))
      case None => None
      case Some(t) => if Enabled(t, Last(events)) then Some(Step(t, Last(events))) else None
  }

  lemma RunExtends<Q, M>(s: Bus<Q, M>, events: seq<Event<Q, M>>, e: Event<Q, M>)
    requires Run(s, events).Some? && Enabled(Run(s, events).value, e)
    ensures Run(s, events + [e]) == Some(Step(Run(s, events).value, e))
  {
  }

  // ---------------------------------------------------------------------------------------------
  // What a subscriber is owed, read off the history of calls alone (no queue is looked at)
  // ---------------------------------------------------------------------------------------------

  /** The key a queue is registered under, or None before it subscribes and after it left. */
  function HomeOf<Q(==), M>(events: seq<Event<Q, M>>, q: Q): Option<string> {
    if events == [] then None
    else
      var before := HomeOf(Front(events), q);
      match Last(events)
      case Subscribe(key, x) => if x == q then Some(key) else before
      case Unsubscribe(key, x) => if x == q && before == Some(key) then None else before
      case PutFails(x) => if x == q then None else before
      case _ => before
  }

  /** Every message whose broadcast started on the queue's key while it was registered. */
  function Owed<Q(==), M>(events: seq<Event<Q, M>>, q: Q): seq<M> {
    if events == [] then []
    else
      var before := Owed(Front(events), q);
      var e := Last(events);
      if e.Start? && HomeOf(Front(events), q) == Some(e.key) then before + [e.message] else before
  }

  function LastStarted<Q, M>(events: seq<Event<Q, M>>): seq<M> {
    if events == [] then []
    else if Last(events).Start? then [Last(events).message]
    else LastStarted(Front(events))
  }

  /** The message whose put into the queue raised: it was owed and never arrives. */
  function Lost<Q(==), M>(events: seq<Event<Q, M>>, q: Q): seq<M> {
    if events == [] then []
    else if Last(events) == PutFails(q) then LastStarted(Front(events))
    else Lost(Front(events), q)
  }

  /** What the broadcast in flight has not put into the queue yet. */
  function InFlight<Q(==), M>(s: Bus<Q, M>, q: Q): seq<M> {
    if s.flight.Putting? && q in s.flight.remaining then [s.flight.message] else []
  }

  function Received<Q(==), M>(s: Bus<Q, M>, q: Q): seq<M>
    requires q in s.buffered && q in s.consumed
  {
    s.consumed[q] + s.buffered[q]
  }

  // ---------------------------------------------------------------------------------------------
  // The invariant
  // ---------------------------------------------------------------------------------------------

  /** Registry shape: every registered queue exists and sits under one key only. */
  ghost predicate Shape<Q, M>(s: Bus<Q, M>) {
    && s.buffered.Keys == s.consumed.Keys
    && (forall k, q :: k in s.connections && q in s.connections[k] ==> q in s.buffered)
    && (forall k, l, q :: k in s.connections && l in s.connections && q in s.connections[k] && q in s.connections[l] ==> k == l)
    && (forall q :: q in s.buffered ==> |s.buffered[q]| <= s.capacity)
    && (s.flight.Putting? ==>
          && s.flight.key in s.connections
          && Distinct(s.flight.remaining)
          && (forall q :: q in s.flight.remaining ==> q !in s.flight.dead)
          && (forall q :: q in s.flight.remaining ==> q in s.connections[s.flight.key])
          && (forall q :: q in s.flight.dead ==> q in s.connections[s.flight.key]))
  }

  predicate IsDead<Q(==), M>(s: Bus<Q, M>, q: Q) {
    s.flight.Putting? && q in s.flight.dead
  }

  /** The registry agrees with the history about q: it sits under k exactly when k is its home (a
      queue whose put failed keeps its place until the broadcast ends). */
  ghost predicate AtHome<Q, M>(events: seq<Event<Q, M>>, s: Bus<Q, M>, q: Q) {
    && (forall k :: k in s.connections && q in s.connections[k] && !IsDead(s, q) ==> HomeOf(events, q) == Some(k))
    && (HomeOf(events, q).Some? ==>
          && q in s.buffered && !IsDead(s, q)
          && HomeOf(events, q).value in s.connections && q in s.connections[HomeOf(events, q).value]
          && Lost(events, q) == [])
    && (q !in s.buffered ==> Owed(events, q) == [] && Lost(events, q) == [])
    && (s.flight.Putting? ==> LastStarted(events) == [s.flight.message])
  }

  ghost predicate Conserved<Q, M>(events: seq<Event<Q, M>>, s: Bus<Q, M>, q: Q) {
    q in s.buffered ==> q in s.consumed && Received(s, q) + InFlight(s, q) + Lost(events, q) == Owed(events, q)
  }

  /** Visiting the head of the loop's order. */
  lemma HeadLeaves<Q>(order: seq<Q>)
    requires order != [] && Distinct(order)
    ensures Distinct(order[1..])
    ensures forall q :: q in order[1..] <==> q in order && q != order[0]
  {
  }

  lemma ShapeStep<Q, M>(s: Bus<Q, M>, e: Event<Q, M>)
    requires Shape(s) && Enabled(s, e)
    ensures Shape(Step(s, e))
  {
  }

  lemma {:induction false} ShapeAlways<Q, M>(capacity: nat, events: seq<Event<Q, M>>)
    requires Run(Empty(capacity), events).Some?
    ensures Shape(Run(Empty(capacity), events).value) && Run(Empty(capacity), events).value.capacity == capacity
  {
    if events != [] {
      ShapeAlways(capacity, Front(events));
      ShapeStep(Run(Empty(capacity), Front(events)).value, Last(events));
    }
  }

  lemma AtHomeStep<Q, M>(events: seq<Event<Q, M>>, s: Bus<Q, M>, e: Event<Q, M>, q: Q)
    requires Shape(s) && AtHome(events, s, q) && Enabled(s, e)
    ensures AtHome(events + [e], Step(s, e), q)
  {
    assert Front(events + [e]) == events && Last(events + [e]) == e;
    if e.Put? || e.PutFails? {
      HeadLeaves(s.flight.remaining);
    }
    if e.Unsubscribe? && HomeOf(events, q) == Some(e.key) && e.queue != q {
      assert q in s.connections[e.key] - {e.queue};
    }
  }

  /** A starting broadcast will visit exactly the queues that are at home under its key. */
  lemma StartReachesHomes<Q, M>(events: seq<Event<Q, M>>, s: Bus<Q, M>, e: Event<Q, M>, q: Q)
    requires Shape(s) && AtHome(events, s, q) && e.Start? && Enabled(s, e)
    ensures q in e.order <==> HomeOf(events, q) == Some(e.key)
    ensures q in e.order ==> Step(s, e).flight.Putting? && Lost(events, q) == []
  {
    assert q in e.order <==> q in Elements(e.order);
    assert q in e.order <==> e.key in s.connections && q in s.connections[e.key];
    assert !IsDead(s, q);
  }

  /** What each event does to the history's two accounts of a queue. */
  lemma BooksChange<Q, M>(events: seq<Event<Q, M>>, e: Event<Q, M>, q: Q)
    ensures Owed(events + [e], q)
            == Owed(events, q) + (if e.Start? && HomeOf(events, q) == Some(e.key) then [e.message] else [])
    ensures Lost(events + [e], q) == if e == PutFails(q) then LastStarted(events) else Lost(events, q)
  {
  }

  /** What each event does to the queue itself. */
  lemma ReceivedChanges<Q, M>(s: Bus<Q, M>, e: Event<Q, M>, q: Q)
    requires Shape(s) && Enabled(s, e) && q in s.buffered
    ensures Received(Step(s, e), q) == Received(s, q) + (if e == Put(q) then [s.flight.message] else [])
  {
  }

  lemma InFlightChanges<Q, M>(s: Bus<Q, M>, e: Event<Q, M>, q: Q)
    requires Shape(s) && Enabled(s, e) && !e.Start?
    ensures InFlight(Step(s, e), q) == if e == Put(q) || e == PutFails(q) then [] else InFlight(s, q)
    ensures e == Put(q) || e == PutFails(q) ==> InFlight(s, q) == [s.flight.message]
  {
  }

  /** One queue's books before and after one event. */
  lemma ConservedAt<Q, M>(events: seq<Event<Q, M>>, s: Bus<Q, M>, e: Event<Q, M>, q: Q)
    requires Shape(s) && AtHome(events, s, q) && Enabled(s, e)
    requires q in s.buffered && Received(s, q) + InFlight(s, q) + Lost(events, q) == Owed(events, q)
    ensures Received(Step(s, e), q) + InFlight(Step(s, e), q) + Lost(events + [e], q) == Owed(events + [e], q)
  {
    BooksChange(events, e, q);
    ReceivedChanges(s, e, q);
    if e.Start? {
      StartReachesHomes(events, s, e, q);
    } else {
      InFlightChanges(s, e, q);
      if e == Put(q) || e == PutFails(q) {
        assert q in s.connections[s.flight.key];
        assert HomeOf(events, q).Some?;
      }
    }
  }

  lemma {:induction false} Invariant<Q, M>(capacity: nat, events: seq<Event<Q, M>>, q: Q)
    requires Run(Empty(capacity), events).Some?
    ensures var s := Run(Empty(capacity), events).value;
            s.capacity == capacity && Shape(s) && AtHome(events, s, q) && Conserved(events, s, q)
  {
    if events != [] {
      var past, e := Front(events), Last(events);
      var s := Run(Empty(capacity), past).value;
      Invariant(capacity, past, q);
      assert events == past + [e];
      ShapeStep(s, e);
      AtHomeStep(past, s, e, q);
      if q in s.buffered {
        ConservedAt(past, s, e, q);
      } else {
        BooksChange(past, e, q);
      }
    }
  }

  // ---------------------------------------------------------------------------------------------
  // Main results
  // ---------------------------------------------------------------------------------------------

  /** Delivery conservation.  In every interleaving, what a queue's consumer took, followed by what
      still sits in the queue, by the message in flight if it has not reached it, and by the message
      lost to a failed put, is exactly, and in order, what was broadcast to the queue's key while it
      was registered.  No queue exceeds its capacity. */
  lemma DeliveryConservation<Q, M>(capacity: nat, events: seq<Event<Q, M>>, q: Q)
    requires Run(Empty(capacity), events).Some?
    requires q in Run(Empty(capacity), events).value.buffered
    ensures var s := Run(Empty(capacity), events).value;
            && q in s.consumed
            && s.consumed[q] + s.buffered[q] + InFlight(s, q) + Lost(events, q) == Owed(events, q)
            && |s.buffered[q]| <= capacity
            && (s.flight.Idle? && HomeOf(events, q).Some? ==> Received(s, q) == Owed(events, q))
  {
    Invariant(capacity, events, q);
  }

  /** A registered queue is found by exactly the broadcasts to its home key. */
  lemma RegistryMatchesHistory<Q, M>(capacity: nat, events: seq<Event<Q, M>>, k: string, q: Q)
    requires Run(Empty(capacity), events).Some?
    requires !IsDead(Run(Empty(capacity), events).value, q)
    ensures var s := Run(Empty(capacity), events).value;
            (k in s.connections && q in s.connections[k]) <==> HomeOf(events, q) == Some(k)
  {
    Invariant(capacity, events, q);
  }

  /** q subscribed to k before r did, in this history. */
  ghost predicate SubscribedBefore<Q, M>(events: seq<Event<Q, M>>, q: Q, r: Q) {
    events != [] &&
    if Last(events).Subscribe? && Last(events).queue == r then HomeOf(Front(events), q).Some?
    else SubscribedBefore(Front(events), q, r)
  }

  lemma {:induction false} EarlierExists<Q, M>(capacity: nat, events: seq<Event<Q, M>>, q: Q, r: Q)
    requires Run(Empty(capacity), events).Some? && SubscribedBefore(events, q, r)
    ensures q in Run(Empty(capacity), events).value.buffered
  {
    Invariant(capacity, Front(events), q);
    if !(Last(events).Subscribe? && Last(events).queue == r) {
      EarlierExists(capacity, Front(events), q, r);
    }
  }

  lemma {:induction false} OwedIsSuffix<Q, M>(capacity: nat, events: seq<Event<Q, M>>, q: Q, r: Q)
    requires Run(Empty(capacity), events).Some?
    requires q != r && HomeOf(events, q).Some? && HomeOf(events, q) == HomeOf(events, r)
    requires SubscribedBefore(events, q, r)
    ensures IsSuffix(Owed(events, r), Owed(events, q))
  {
    var past, e := Front(events), Last(events);
    Invariant(capacity, past, r);
    if e.Subscribe? && e.queue == r {
      assert Owed(past, r) == [];
    } else {
      EarlierExists(capacity, past, q, r);
      OwedIsSuffix(capacity, past, q, r);
      if e.Start? {
        SuffixGrows(Owed(past, r), Owed(past, q), [e.message]);
      }
    }
  }

  /** Subscriber agreement.  Whenever no broadcast holds the lock, of two queues under one key the
      later subscriber has received a suffix of what the earlier one received. */
  lemma SubscribersAgree<Q, M>(capacity: nat, events: seq<Event<Q, M>>, q: Q, r: Q)
    requires Run(Empty(capacity), events).Some? && Run(Empty(capacity), events).value.flight.Idle?
    requires q != r && HomeOf(events, q).Some? && HomeOf(events, q) == HomeOf(events, r)
    requires SubscribedBefore(events, q, r)
    ensures var s := Run(Empty(capacity), events).value;
            && q in s.buffered && q in s.consumed && r in s.buffered && r in s.consumed
            && IsSuffix(Received(s, r), Received(s, q))
  {
    Invariant(capacity, events, q);
    Invariant(capacity, events, r);
    DeliveryConservation(capacity, events, q);
    DeliveryConservation(capacity, events, r);
    OwedIsSuffix(capacity, events, q, r);
  }

  /** Broadcasts to other keys, and whatever else goes on, leave a subscriber's account alone. */
  lemma {:induction false} OtherKeysDoNotMatter<Q, M>(past: seq<Event<Q, M>>, more: seq<Event<Q, M>>, q: Q, key: string)
    requires HomeOf(past, q) == None || HomeOf(past, q) == Some(key)
    requires forall e :: e in more ==> !(e.Subscribe? && e.queue == q) && !(e.Start? && e.key == key)
    ensures Owed(past + more, q) == Owed(past, q)
    ensures HomeOf(past + more, q) == None || HomeOf(past + more, q) == Some(key)
  {
    if more == [] {
      assert past + more == past;
    } else {
      forall e | e in Front(more) ensures e in more {}
      assert Last(more) in more;
      OtherKeysDoNotMatter(past, Front(more), q, key);
      assert Front(past + more) == past + Front(more);
    }
  }

  /** Iteration safety.  From the moment a broadcast holds the lock until it lets it go, whatever
      the consumers do meanwhile, the registry it iterates over does not change. */
  lemma {:induction false} LockFreezesRegistry<Q, M>(s: Bus<Q, M>, events: seq<Event<Q, M>>)
    requires !s.flight.Idle? && Run(s, events).Some?
    requires Finish !in events && Deleted !in events
    ensures Run(s, events).value.connections == s.connections && !Run(s, events).value.flight.Idle?
  {
    if events != [] {
      assert Last(events) in events;
      forall e | e in Front(events) ensures e in events {}
      LockFreezesRegistry(s, Front(events));
      var t := Run(s, Front(events)).value;
      assert Last(events) != Finish && Last(events) != Deleted;
      assert Step(t, Last(events)).connections == t.connections;
    }
  }

  function LastStartedKey<Q, M>(events: seq<Event<Q, M>>): Option<string> {
    if events == [] then None
    else if Last(events).Start? then Some(Last(events).key)
    else LastStartedKey(Front(events))
  }

  /** Whatever holds the lock is the last started broadcast: it walks the queues of that broadcast's key when
      the registry knows the key, and otherwise deletes the record of that very key. */
  lemma {:induction false} LockHolder<Q, M>(capacity: nat, events: seq<Event<Q, M>>)
    requires Run(Empty(capacity), events).Some?
    ensures var s := Run(Empty(capacity), events).value;
            !s.flight.Idle? ==>
              var key := LastStartedKey(events);
              && key.Some?
              && (s.flight.Putting? <==> key.value in s.connections)
              && (s.flight.Putting? ==> s.flight.key == key.value)
              && (s.flight.Deleting? ==> s.flight.missing == key.value)
  {
    if events != [] {
      LockHolder(capacity, Front(events));
      ShapeAlways(capacity, Front(events));
      var s := Run(Empty(capacity), Front(events)).value;
      if Last(events).Put? || Last(events).PutFails? || Last(events).Get? {
        assert Step(s, Last(events)).connections == s.connections;
      }
    }
  }

  /** A broadcast to a key without subscribers takes the lock to delete the key's record, gives nobody
      anything, and releases the lock with registry and queues as they were. */
  lemma UnknownKeyLeavesBus<Q, M>(s: Bus<Q, M>, key: string, m: M)
    requires s.flight.Idle? && key !in s.connections
    ensures Enabled(s, Start(key, m, []))
    ensures var t := Step(s, Start(key, m, []));
            t == s.(flight := Deleting(key)) && Enabled(t, Deleted) && Step(t, Deleted) == s
  {
  }

  /** Without reading, a subscriber brings its key to a halt: however the run goes on, at most one
      broadcast more than its queue has places ever starts on its key, and that last one stays in
      flight with the lock held. */
  lemma UnreadQueueHaltsItsKey<Q, M>(capacity: nat, events: seq<Event<Q, M>>, q: Q)
    requires Run(Empty(capacity), events).Some?
    requires Get(q) !in events && PutFails(q) !in events
    ensures |Owed(events, q)| <= capacity + 1
    ensures |Owed(events, q)| == capacity + 1 ==>
              var s := Run(Empty(capacity), events).value;
              s.flight.Putting? && q in s.flight.remaining && q in s.buffered && |s.buffered[q]| == capacity
  {
    Invariant(capacity, events, q);
    NothingTaken(capacity, events, q);
    NothingLost(events, q);
  }

  lemma {:induction false} NothingTaken<Q, M>(capacity: nat, events: seq<Event<Q, M>>, q: Q)
    requires Run(Empty(capacity), events).Some? && Get(q) !in events
    ensures q in Run(Empty(capacity), events).value.consumed ==> Run(Empty(capacity), events).value.consumed[q] == []
  {
    if events != [] {
      assert Last(events) in events;
      NothingTaken(capacity, Front(events), q);
    }
  }

  lemma {:induction false} NothingLost<Q, M>(events: seq<Event<Q, M>>, q: Q)
    requires PutFails(q) !in events
    ensures Lost(events, q) == []
  {
    if events != [] {
      assert Last(events) in events;
      NothingLost(Front(events), q);
    }
  }

  /** The broadcast waits on a full queue. */
  predicate StuckOn<Q(==), M>(s: Bus<Q, M>, q: Q) {
    s.flight.Putting? && s.flight.remaining != [] && s.flight.remaining[0] == q && q in s.buffered && |s.buffered[q]| >= s.capacity
  }

  /** While a broadcast waits on a full queue nobody reads, the whole bus stands still: the only
      events are consumers taking from other queues, the broadcast keeps the lock with its loop where
      it is, and neither subscribe, unsubscribe, another broadcast nor the end of this one is possible. */
  lemma {:induction false} UnreadQueueStopsTheBus<Q, M>(s: Bus<Q, M>, events: seq<Event<Q, M>>, q: Q)
    requires StuckOn(s, q) && Run(s, events).Some?
    requires Get(q) !in events && PutFails(q) !in events
    ensures forall e :: e in events ==> e.Get?
    ensures var t := Run(s, events).value;
            && StuckOn(t, q) && t.flight == s.flight && t.connections == s.connections && t.buffered[q] == s.buffered[q]
            && forall e :: Enabled(t, e) ==> e.Get? || e == PutFails(q)
  {
    if events != [] {
      assert Last(events) in events;
      UnreadQueueStopsTheBus(s, Front(events), q);
      forall e | e in events ensures e.Get? {
        assert e in Front(events) || e == Last(events);
      }
    }
  }

  lemma {:induction false} RunTwice<Q, M>(s: Bus<Q, M>, first: seq<Event<Q, M>>, more: seq<Event<Q, M>>)
    requires Run(s, first).Some?
    ensures Run(s, first + more) == Run(Run(s, first).value, more)
  {
    if more == [] {
      assert first + more == first;
    } else {
      RunTwice(s, first, Front(more));
      assert Front(first + more) == first + Front(more) && Last(first + more) == Last(more);
    }
  }

  lemma RunOne<Q, M>(s: Bus<Q, M>, e: Event<Q, M>)
    requires Enabled(s, e)
    ensures Run(s, [e]) == Some(Step(s, e))
  {
    assert Front([e]) == [];
  }

  /** One message taken from that queue is exactly what lets the broadcast go on. */
  lemma ReadingFreesTheBus<Q, M>(s: Bus<Q, M>, e: Event<Q, M>, q: Q)
    requires StuckOn(s, q) && |s.buffered[q]| == s.capacity && Enabled(s, e) && e != PutFails(q)
    ensures Enabled(Step(s, e), Put(q)) <==> e == Get(q)
  {
  }

  predicate ReadsFullAhead<Q(==), M>(s: Bus<Q, M>, e: Event<Q, M>) {
    && e.Get? && s.flight.Putting? && e.queue in s.flight.remaining
    && e.queue in s.buffered && |s.buffered[e.queue]| == s.capacity
  }

  /** The loop needs nothing but consumers: the broadcast in flight can always be brought to its end, by
      reading exactly those queues ahead of it that are full. */
  lemma BroadcastCanEnd<Q, M>(s: Bus<Q, M>) returns (events: seq<Event<Q, M>>)
    requires Shape(s) && s.flight.Putting? && (s.flight.remaining != [] ==> 0 < s.capacity)
    ensures Run(s, events).Some? && Run(s, events).value.flight.Idle?
    ensures forall e :: e in events ==> e.Put? || e.Finish? || ReadsFullAhead(s, e)
    decreases |s.flight.remaining|
  {
    if s.flight.remaining == [] {
      RunOne(s, Finish);
      events := [Finish];
    } else {
      var q := s.flight.remaining[0];
      assert q in s.flight.remaining;
      events := [];
      var t := s;
      if |s.buffered[q]| == s.capacity {
        ReadingFreesTheBus(s, Get(q), q);
        ShapeStep(s, Get(q));
        RunOne(s, Get(q));
        t := Step(s, Get(q));
        events := [Get(q)];
      }
      RunOne(t, Put(q));
      ShapeStep(t, Put(q));
      RunTwice(s, events, [Put(q)]);
      events := events + [Put(q)];
      var more := BroadcastCanEnd(Step(t, Put(q)));
      RunTwice(s, events, more);
      forall e | e in more ensures e.Put? || e.Finish? || ReadsFullAhead(s, e) {
        HeadLeaves(s.flight.remaining);
      }
      events := events + more;
    }
  }

  /** A run from s, without a read and without a failing put, at whose end the lock is free. */
  ghost predicate EndsUnread<Q, M>(s: Bus<Q, M>, events: seq<Event<Q, M>>) {
    Run(s, events).Some? && Run(s, events).value.flight.Idle? && forall e :: e in events ==> !e.Get? && !e.PutFails?
  }

  /** A broadcast that has to put into a full queue nobody reads keeps the lock. */
  lemma {:induction false} FullQueueAheadBlocks<Q, M>(s: Bus<Q, M>, events: seq<Event<Q, M>>, q: Q)
    requires Run(s, events).Some? && forall e :: e in events ==> !e.Get? && !e.PutFails?
    requires s.flight.Putting? && q in s.flight.remaining && q in s.buffered && |s.buffered[q]| >= s.capacity
    ensures var t := Run(s, events).value;
            t.flight.Putting? && q in t.flight.remaining && q in t.buffered && |t.buffered[q]| >= t.capacity
  {
    if events != [] {
      forall e | e in Front(events) ensures e in events {}
      assert Last(events) in events;
      FullQueueAheadBlocks(s, Front(events), q);
      var t := Run(s, Front(events)).value;
      if Last(events).Put? {
        assert t.flight.remaining == [t.flight.remaining[0]] + t.flight.remaining[1..];
      }
    }
  }

  /** Before a broadcast starts: it can be brought to its end without anybody reading exactly when every
      queue of its key has room. */
  lemma EndsUnreadIffRoom<Q, M>(s: Bus<Q, M>, key: string, m: M, order: seq<Q>)
    requires Shape(s) && Enabled(s, Start(key, m, order)) && key in s.connections
    ensures (exists events :: EndsUnread(Step(s, Start(key, m, order)), events)) <==>
            forall q :: q in s.connections[key] ==> |s.buffered[q]| < s.capacity
  {
    var t := Step(s, Start(key, m, order));
    ShapeStep(s, Start(key, m, order));
    assert forall q :: q in order <==> q in Elements(order);
    if events :| EndsUnread(t, events) {
      forall q | q in s.connections[key] ensures |s.buffered[q]| < s.capacity {
        if |s.buffered[q]| >= s.capacity {
          FullQueueAheadBlocks(t, events, q);
        }
      }
    }
    if forall q :: q in s.connections[key] ==> |s.buffered[q]| < s.capacity {
      if order != [] {
        assert order[0] in order;
      }
      var events := BroadcastCanEnd(t);
      assert EndsUnread(t, events);
    }
  }

  // How the standstill is reached: one subscriber, never read, and one broadcast more than it can hold.

  function Repeat<M>(m: M, n: nat): seq<M> {
    seq(n, _ => m)
  }

  function Broadcasts<Q, M>(key: string, q: Q, m: M, n: nat): seq<Event<Q, M>> {
    if n == 0 then [Subscribe(key, q)] else Broadcasts(key, q, m, n - 1) + [Start(key, m, [q]), Put(q), Finish]
  }

  lemma {:induction false} BroadcastsFill<Q, M>(capacity: nat, key: string, q: Q, m: M, n: nat)
    requires n <= capacity
    ensures Run(Empty(capacity), Broadcasts(key, q, m, n))
            == Some(Bus(capacity, map[key := {q}], map[q := Repeat(m, n)], map[q := []], Idle))
  {
    if n == 0 {
      RunOne(Empty<Q, M>(capacity), Subscribe(key, q));
      assert {} + {q} == {q} && Repeat(m, 0) == [];
    } else {
      BroadcastsFill(capacity, key, q, m, n - 1);
      var s: Bus<Q, M> := Bus(capacity, map[key := {q}], map[q := Repeat(m, n - 1)], map[q := []], Idle);
      OneBroadcast(s, key, q, m);
      RunTwice(Empty(capacity), Broadcasts(key, q, m, n - 1), [Start(key, m, [q]), Put(q), Finish]);
      assert Repeat(m, n - 1) + [m] == Repeat(m, n);
      assert s.buffered[q := Repeat(m, n)] == map[q := Repeat(m, n)];
    }
  }

  lemma OneBroadcast<Q, M>(s: Bus<Q, M>, key: string, q: Q, m: M)
    requires s.flight.Idle? && s.connections == map[key := {q}] && q in s.buffered && |s.buffered[q]| < s.capacity
    ensures Run(s, [Start(key, m, [q]), Put(q), Finish]) == Some(s.(buffered := s.buffered[q := s.buffered[q] + [m]]))
  {
    var e1: Event<Q, M>, e2: Event<Q, M>, e3: Event<Q, M> := Start(key, m, [q]), Put(q), Finish;
    assert Elements([q]) == {q};
    RunOne(s, e1);
    RunExtends(s, [e1], e2);
    RunExtends(s, [e1] + [e2], e3);
    assert [e1, e2, e3] == [e1] + [e2] + [e3];
    var t := Step(Step(s, e1), e2);
    assert t.flight == Putting(key, m, [], []);
    assert (set x | x in t.connections[key] && x !in t.flight.dead) == {q};
    assert Step(t, e3).connections == s.connections;
  }

  /** For every capacity some run without a read gets there: one broadcast more than the queue has places
      was started, and it waits on the full queue. */
  lemma StandstillIsReached<Q, M>(capacity: nat, key: string, q: Q, m: M) returns (events: seq<Event<Q, M>>)
    ensures Run(Empty(capacity), events).Some? && StuckOn(Run(Empty(capacity), events).value, q)
    ensures Get(q) !in events && PutFails(q) !in events
    ensures |Owed(events, q)| == capacity + 1
  {
    BroadcastsFill(capacity, key, q, m, capacity);
    events := Broadcasts(key, q, m, capacity) + [Start(key, m, [q])];
    assert Elements([q]) == {q};
    RunExtends(Empty(capacity), Broadcasts(key, q, m, capacity), Start(key, m, [q]));
    NobodyReads(key, q, m, capacity);
    DeliveryConservation(capacity, events, q);
    NothingLost(events, q);
  }

  lemma {:induction false} NobodyReads<Q, M>(key: string, q: Q, m: M, n: nat)
    ensures Get(q) !in Broadcasts(key, q, m, n) && PutFails(q) !in Broadcasts(key, q, m, n)
  {
    if n > 0 {
      NobodyReads(key, q, m, n - 1);
    }
  }


  /** Without failing puts no key is left with an empty set. */
  lemma {:induction false} NoEmptyKeys<Q, M>(capacity: nat, events: seq<Event<Q, M>>)
    requires Run(Empty(capacity), events).Some?
    requires forall e :: e in events ==> !e.PutFails?
    ensures var s := Run(Empty(capacity), events).value;
            && (forall k :: k in s.connections ==> s.connections[k] != {})
            && (s.flight.Putting? ==> s.flight.dead == [])
  {
    if events != [] {
      assert Last(events) in events;
      forall e | e in Front(events) ensures e in events {}
      NoEmptyKeys(capacity, Front(events));
      var s := Run(Empty(capacity), Front(events)).value;
      if Last(events).Finish? {
        assert Step(s, Finish).connections[s.flight.key] == s.connections[s.flight.key];
      }
    }
  }

  /** The end of a broadcast leaves an empty set behind exactly when every put of it failed: the
      clean-up loop removes queues, and not the key. */
  lemma FinishEmptiesKey<Q, M>(s: Bus<Q, M>)
    requires Enabled(s, Finish)
    ensures Step(s, Finish).connections[s.flight.key] == {} <==>
            (forall q :: q in s.connections[s.flight.key] ==> q in s.flight.dead)
  {
    var left := Step(s, Finish).connections[s.flight.key];
    if left == {} {
      forall q | q in s.connections[s.flight.key] ensures q in s.flight.dead {
        assert q !in left;
      }
    }
  }

  /** Unsubscribing the queue just created restores the registry, unless the key was left with an
      empty set by failed puts (then the key disappears as well). */
  lemma UnsubscribeUndoesSubscribe<Q, M>(s: Bus<Q, M>, key: string, q: Q)
    requires Shape(s) && Enabled(s, Subscribe(key, q))
    ensures Enabled(Step(s, Subscribe(key, q)), Unsubscribe(key, q))
    ensures Step(Step(s, Subscribe(key, q)), Unsubscribe(key, q)).connections == s.connections
            <==> (key in s.connections ==> s.connections[key] != {})
  {
  }
}
