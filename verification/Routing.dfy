/**
  Routing across the whole pipeline: a connection's cache record is written by enqueue, rewritten by
  the price sender (cryptomarket/tasks/celery/task_send_every_60_seconds.py), deleted by broadcasts to
  unknown keys, and read by event generators (cryptomarket/project/functions.py) that broadcast it.
  All of them interleave; reading and writing back a record are separate steps.
*/
module Routing {
  import opened Prelude
  import opened Records
  import opened SseBus

  /** A sender task between its awaits: it has found a record's key, then holds the record it read. */
  datatype Sending =
    | Found(message: Message<string>, key: string)
    | Holding(message: Message<string>, key: string, read: Envelope<Message<string>>)

  datatype World<Q> = World(
    cache: map<string, Envelope<Message<string>>>,
    senders: map<nat, Sending>,
    readers: map<nat, Envelope<Message<string>>>,       // what an event generator read last
    bus: Bus<Q, Message<string>>,
    home: map<Q, string>)              // history: the key each queue subscribed under

  datatype Event<Q> =
    | Enqueued(key: string)                                       // a cache write of enqueue lands
    | Scan(task: nat, person: string, body: string, key: string)  // the sender's SCAN finds a key
    | ReadBack(task: nat)
    | WriteBack(task: nat)
    | Drop(key: string)                                           // deletion or expiry of a record
    | ReadEntry(reader: nat, key: string)
    | Broadcast(reader: nat, order: seq<Q>)
    | OnBus(step: SseBus.Event<Q, Message<string>>)                       // any other step of the bus

  predicate Enabled<Q(==)>(w: World<Q>, e: Event<Q>) {
    match e
    case Enqueued(_) => true
    case Scan(t, person, _, key) => t !in w.senders && key in w.cache && Matches(PersonPattern(person), key)
    case ReadBack(t) => t in w.senders && w.senders[t].Found?
    case WriteBack(t) => t in w.senders && w.senders[t].Holding?
    case Drop(_) => true
    case ReadEntry(_, key) => key in w.cache
    case Broadcast(r, order) =>
      r in w.readers && (w.readers[r].message.Some? ==>
                           SseBus.Enabled(w.bus, Start(w.readers[r].mappedKey, w.readers[r].message.value, order)))
    case OnBus(step) => !step.Start? && SseBus.Enabled(w.bus, step)
  }

  function Step<Q(==)>(w: World<Q>, e: Event<Q>): World<Q>
    requires Enabled(w, e)
  {
    match e
    case Enqueued(key) => w.(cache := w.cache[key := Envelope(key, None)])
    case Scan(t, person, body, key) => w.(senders := w.senders[t := Found(Message(person, body), key)])
    case ReadBack(t) =>
      var s := w.senders[t];
      if s.key in w.cache then w.(senders := w.senders[t := Holding(s.message, s.key, w.cache[s.key])])
      else w.(senders := w.senders - {t})
    case WriteBack(t) =>
      var s := w.senders[t];
      w.(cache := w.cache[s.key := s.read.(message := Some(s.message))], senders := w.senders - {t})
    case Drop(key) => w.(cache := w.cache - {key})
    case ReadEntry(r, key) => w.(readers := w.readers[r := w.cache[key]])
    case Broadcast(r, order) =>
      var env := w.readers[r];
      if env.message.None? then w
      else w.(bus := SseBus.Step(w.bus, Start(env.mappedKey, env.message.value, order)))
    case OnBus(step) =>
      var bus := SseBus.Step(w.bus, step);
      match step
      case Subscribe(key, q) => w.(bus := bus, home := w.home[q := key])
      case Deleted => w.(bus := bus, cache := w.cache - {w.bus.flight.missing})
      case _ => w.(bus := bus)
  }

  function Init<Q>(capacity: nat): World<Q> {
    World(map[], map[], map[], Empty(capacity), map[])
  }

  function Run<Q(==)>(w: World<Q>, events: seq<Event<Q>>): Option<World<Q>> {
    if events == [] then Some(w)
    else
      match Run(w, Front(events))
      case None => None
      case Some(v) => if Enabled(v, Last(events)) then Some(Step(v, Last(events))) else None
  }

  // ---------------------------------------------------------------------------------------------
  // The invariant
  // ---------------------------------------------------------------------------------------------

  predicate SenderOk(s: Sending) {
    Fits(s.message, s.key) && (s.Holding? ==> Belongs(s.read, s.key))
  }

  predicate CacheOk(cache: map<string, Envelope<Message<string>>>) {
    forall k :: k in cache ==> Belongs(cache[k], k)
  }

  predicate SendersOk(senders: map<nat, Sending>) {
    forall t :: t in senders ==> SenderOk(senders[t])
  }

  predicate ReadersOk(readers: map<nat, Envelope<Message<string>>>) {
    forall r :: r in readers ==> Belongs(readers[r], readers[r].mappedKey)
  }

  predicate StoresOk<Q>(w: World<Q>) {
    CacheOk(w.cache) && SendersOk(w.senders) && ReadersOk(w.readers)
  }

  /** A queue sits under the key it subscribed with, if anywhere. */
  ghost predicate HomesOk<Q>(w: World<Q>) {
    && w.home.Keys == w.bus.buffered.Keys
    && (forall k, q :: k in w.bus.connections && q in w.bus.connections[k] ==> q in w.home && w.home[q] == k)
    && (w.bus.flight.Putting? ==> Fits(w.bus.flight.message, w.bus.flight.key))
  }

  ghost predicate MessagesOk<Q>(w: World<Q>) {
    forall q :: q in w.bus.buffered && q in w.bus.consumed && q in w.home ==>
      AllFit(w.bus.consumed[q] + w.bus.buffered[q], w.home[q])
  }

  ghost predicate BusOk<Q>(w: World<Q>) {
    Shape(w.bus) && HomesOk(w) && MessagesOk(w)
  }

  predicate AllFit(messages: seq<Message<string>>, key: string) {
    forall m :: m in messages ==> Fits(m, key)
  }

  lemma CacheStep<Q>(w: World<Q>, e: Event<Q>)
    requires StoresOk(w) && Enabled(w, e)
    ensures CacheOk(Step(w, e).cache)
  {
  }

  lemma SendersStep<Q>(w: World<Q>, e: Event<Q>)
    requires StoresOk(w) && Enabled(w, e)
    ensures SendersOk(Step(w, e).senders)
  {
  }

  lemma ReadersStep<Q>(w: World<Q>, e: Event<Q>)
    requires StoresOk(w) && Enabled(w, e)
    ensures ReadersOk(Step(w, e).readers)
  {
  }

  lemma StoresStep<Q>(w: World<Q>, e: Event<Q>)
    requires StoresOk(w) && Enabled(w, e)
    ensures StoresOk(Step(w, e))
  {
    CacheStep(w, e);
    SendersStep(w, e);
    ReadersStep(w, e);
  }

  /** A step of the bus that is no start gives a queue nothing that does not fit its home. */
  lemma StaysFitting<Q>(w: World<Q>, step: SseBus.Event<Q, Message<string>>, q: Q)
    requires BusOk(w) && Enabled(w, OnBus(step)) && q in w.bus.buffered
    ensures AllFit(Received(SseBus.Step(w.bus, step), q), w.home[q])
  {
    ReceivedChanges(w.bus, step, q);
    assert AllFit(Received(w.bus, q), w.home[q]);
    if step == Put(q) {
      assert q in w.bus.connections[w.bus.flight.key];
      assert Fits(w.bus.flight.message, w.home[q]);
    }
  }

  lemma HomesStep<Q>(w: World<Q>, step: SseBus.Event<Q, Message<string>>)
    requires Shape(w.bus) && HomesOk(w) && Enabled(w, OnBus(step))
    ensures HomesOk(Step(w, OnBus(step)))
  {
  }

  lemma MessagesStep<Q>(w: World<Q>, step: SseBus.Event<Q, Message<string>>)
    requires BusOk(w) && Enabled(w, OnBus(step))
    ensures MessagesOk(Step(w, OnBus(step)))
  {
    var v := Step(w, OnBus(step));
    forall q | q in v.bus.buffered && q in v.bus.consumed && q in v.home
      ensures AllFit(v.bus.consumed[q] + v.bus.buffered[q], v.home[q])
    {
      if q in w.bus.buffered {
        StaysFitting(w, step, q);
      }
    }
  }

  lemma BusOkOnStep<Q>(w: World<Q>, step: SseBus.Event<Q, Message<string>>)
    requires BusOk(w) && Enabled(w, OnBus(step))
    ensures BusOk(Step(w, OnBus(step)))
  {
    ShapeStep(w.bus, step);
    HomesStep(w, step);
    MessagesStep(w, step);
  }

  lemma BusOkBroadcast<Q>(w: World<Q>, r: nat, order: seq<Q>)
    requires StoresOk(w) && BusOk(w) && Enabled(w, Broadcast(r, order))
    ensures BusOk(Step(w, Broadcast(r, order)))
  {
    var env := w.readers[r];
    if env.message.Some? {
      ShapeStep(w.bus, Start(env.mappedKey, env.message.value, order));
    }
  }

  lemma {:induction false} Invariant<Q>(capacity: nat, events: seq<Event<Q>>)
    requires Run(Init(capacity), events).Some?
    ensures StoresOk(Run(Init(capacity), events).value) && BusOk(Run(Init(capacity), events).value)
  {
    if events != [] {
      Invariant(capacity, Front(events));
      var w, e := Run(Init(capacity), Front(events)).value, Last(events);
      StoresStep(w, e);
      match e
      case Broadcast(r, order) => BusOkBroadcast(w, r, order);
      case OnBus(step) => BusOkOnStep(w, step);
      case _ => assert Step(w, e).bus == w.bus && Step(w, e).home == w.home;
    }
  }

  /** Routing.  In every interleaving of writes, rewrites, deletions, reads and broadcasts, a message
      prepared for a person only ever enters queues that subscribed under a key that person's
      pattern matches. */
  lemma RoutedByPattern<Q>(capacity: nat, events: seq<Event<Q>>, q: Q, m: Message<string>)
    requires Run(Init(capacity), events).Some?
    requires var w := Run(Init(capacity), events).value;
             q in w.bus.buffered && q in w.bus.consumed && m in w.bus.consumed[q] + w.bus.buffered[q]
    ensures var w := Run(Init(capacity), events).value;
            q in w.home && Matches(PersonPattern(m.owner), w.home[q])
  {
    Invariant(capacity, events);
    var w := Run(Init(capacity), events).value;
    assert AllFit(w.bus.consumed[q] + w.bus.buffered[q], w.home[q]);
  }

  // ---------------------------------------------------------------------------------------------
  // When the owner, and only the owner, is reached
  // ---------------------------------------------------------------------------------------------

  /** So with ids free of colons and pattern characters every message reaches its owner's
      connections only. */
  lemma OnlyTheOwner<Q>(capacity: nat, events: seq<Event<Q>>, q: Q, m: Message<string>, user: string, stamp: string)
    requires Run(Init(capacity), events).Some?
    requires var w := Run(Init(capacity), events).value;
             && q in w.bus.buffered && q in w.bus.consumed && m in w.bus.consumed[q] + w.bus.buffered[q]
             && q in w.home && w.home[q] == ConnectionKey(user, stamp)
    requires NoGlob(m.owner) && ':' !in stamp && ':' !in user
    ensures m.owner == user
  {
    RoutedByPattern(capacity, events, q, m);
    PatternMatchesUser(m.owner, user, stamp);
    assert (m.owner + ":")[|m.owner|] == ':';
  }

  // ---------------------------------------------------------------------------------------------
  // What becomes of a record
  // ---------------------------------------------------------------------------------------------

  /** An event generator that broadcasts a record nobody subscribes to has exactly that record deleted: the
      other records, the queues, the registry and the other parties stay as they are. */
  lemma UnknownKeyIsDeleted<Q>(w: World<Q>, reader: nat)
    requires reader in w.readers && w.readers[reader].message.Some?
    requires w.bus.flight.Idle? && w.readers[reader].mappedKey !in w.bus.connections
    ensures Enabled(w, Broadcast(reader, []))
    ensures var v := Step(w, Broadcast(reader, []));
            && v == w.(bus := w.bus.(flight := Deleting(w.readers[reader].mappedKey)))
            && Enabled(v, OnBus(Deleted))
            && Step(v, OnBus(Deleted)) == w.(cache := w.cache - {w.readers[reader].mappedKey})
  {
    UnknownKeyLeavesBus(w.bus, w.readers[reader].mappedKey, w.readers[reader].message.value);
  }

  /** A record without a message is not broadcast at all. */
  lemma EmptyRecordIsNotBroadcast<Q>(w: World<Q>, reader: nat, order: seq<Q>)
    requires reader in w.readers && w.readers[reader].message.None?
    ensures Enabled(w, Broadcast(reader, order)) && Step(w, Broadcast(reader, order)) == w
  {
  }

  /** The key whose record an event creates, replaces or deletes. */
  function Touched<Q>(w: World<Q>, e: Event<Q>): Option<string> {
    match e
    case Enqueued(key) => Some(key)
    case WriteBack(task) => if task in w.senders then Some(w.senders[task].key) else None
    case Drop(key) => Some(key)
    case OnBus(Deleted) => if w.bus.flight.Deleting? then Some(w.bus.flight.missing) else None
    case _ => None
  }

  /** Every other record stays as it is; a cache write of enqueue leaves a record of its own key without a
      message, whatever was there; a deletion leaves none. */
  lemma RecordChanges<Q>(w: World<Q>, e: Event<Q>, k: string)
    requires Enabled(w, e)
    ensures Touched(w, e) != Some(k) ==>
              (k in Step(w, e).cache <==> k in w.cache) && (k in w.cache ==> Step(w, e).cache[k] == w.cache[k])
    ensures e == Enqueued(k) ==> k in Step(w, e).cache && Step(w, e).cache[k] == Envelope(k, None)
    ensures e == Drop(k) ==> k !in Step(w, e).cache
    ensures e == OnBus(Deleted) && Touched(w, e) == Some(k) ==> k !in Step(w, e).cache
  {
  }

  /** Writes and deletions are possible at any time; a sender whose record is gone by the time it reads it
      back gives up and changes nothing. */
  lemma AlwaysPossible<Q>(w: World<Q>, k: string, task: nat)
    ensures Enabled(w, Enqueued(k)) && Enabled(w, Drop(k))
    ensures task in w.senders && w.senders[task].Found? && w.senders[task].key !in w.cache ==>
              Enabled(w, ReadBack(task)) && Step(w, ReadBack(task)) == w.(senders := w.senders - {task})
  {
  }

  // ---------------------------------------------------------------------------------------------
  // A message does arrive
  // ---------------------------------------------------------------------------------------------

  /** A sender whose three steps are not disturbed replaces the message of the record it found, and
      nothing else. */
  lemma SenderRewrites<Q>(w: World<Q>, task: nat, person: string, body: string, key: string)
    requires StoresOk(w) && task !in w.senders && key in w.cache && Matches(PersonPattern(person), key)
    ensures Enabled(w, Scan(task, person, body, key))
    ensures var w1 := Step(w, Scan(task, person, body, key));
            && Enabled(w1, ReadBack(task)) && Enabled(Step(w1, ReadBack(task)), WriteBack(task))
            && Step(Step(w1, ReadBack(task)), WriteBack(task)) ==
               w.(cache := w.cache[key := Envelope(key, Some(Message(person, body)))])
  {
    var w1 := Step(w, Scan(task, person, body, key));
    var w2 := Step(w1, ReadBack(task));
    assert Step(w2, WriteBack(task)).senders == w.senders;
    assert w.cache[key].mappedKey == key;
  }

  /** An event generator that reads a record carrying a message, with the lock free, and whose
      broadcast finds room in the first queue of the record's key, appends exactly that message. */
  lemma GeneratorDelivers<Q>(w: World<Q>, reader: nat, key: string, m: Message<string>, order: seq<Q>)
    requires BusOk(w) && w.bus.flight.Idle? && key in w.cache && w.cache[key] == Envelope(key, Some(m))
    requires key in w.bus.connections && Distinct(order) && order != [] && Elements(order) == w.bus.connections[key]
    requires order[0] in w.bus.buffered && |w.bus.buffered[order[0]]| < w.bus.capacity
    ensures Enabled(w, ReadEntry(reader, key)) && Enabled(Step(w, ReadEntry(reader, key)), Broadcast(reader, order))
    ensures var v := Step(Step(w, ReadEntry(reader, key)), Broadcast(reader, order));
            && Enabled(v, OnBus(Put(order[0])))
            && Step(v, OnBus(Put(order[0]))).bus.buffered == w.bus.buffered[order[0] := w.bus.buffered[order[0]] + [m]]
  {
  }

  /** The run ends with the message in a queue that subscribed under the key. */
  ghost predicate Delivers<Q>(capacity: nat, events: seq<Event<Q>>, q: Q, m: Message<string>, key: string) {
    Run(Init(capacity), events).Some? &&
    var w := Run(Init(capacity), events).value;
    && q in w.bus.buffered && q in w.bus.consumed && m in w.bus.consumed[q] + w.bus.buffered[q]
    && q in w.home && w.home[q] == key
  }

  /** One connection and one price: from the registration of the connection to its queue. */
  function ShortestRun<Q>(q: Q, m: Message<string>, key: string): seq<Event<Q>> {
    [Enqueued(key), OnBus(Subscribe(key, q)), Scan(0, m.owner, m.body, key), ReadBack(0), WriteBack(0),
     ReadEntry(0, key), Broadcast(0, [q]), OnBus(Put(q))]
  }

  lemma RunExtends<Q>(w: World<Q>, events: seq<Event<Q>>, e: Event<Q>)
    requires Run(w, events).Some? && Enabled(Run(w, events).value, e)
    ensures Run(w, events + [e]) == Some(Step(Run(w, events).value, e))
  {
  }

  lemma ThreeMore<Q>(w: World<Q>, events: seq<Event<Q>>, a: Event<Q>, b: Event<Q>, c: Event<Q>)
    requires Run(w, events).Some?
    requires var v := Run(w, events).value;
             && Enabled(v, a) && Enabled(Step(v, a), b) && Enabled(Step(Step(v, a), b), c)
    ensures Run(w, events + [a, b, c]) == Some(Step(Step(Step(Run(w, events).value, a), b), c))
  {
    RunExtends(w, events, a);
    RunExtends(w, events + [a], b);
    RunExtends(w, events + [a] + [b], c);
    assert events + [a, b, c] == events + [a] + [b] + [c];
  }

  lemma ConnectionOpens<Q>(capacity: nat, q: Q, key: string)
    ensures var r := Run(Init(capacity), [Enqueued(key), OnBus(Subscribe(key, q))]);
            && r.Some? && r.value.cache == map[key := Envelope(key, None)] && r.value.senders == map[]
            && r.value.bus == Bus(capacity, map[key := {q}], map[q := []], map[q := []], Idle)
            && r.value.home == map[q := key]
  {
    var e1: Event<Q>, e2: Event<Q> := Enqueued(key), OnBus(Subscribe(key, q));
    RunExtends(Init(capacity), [], e1);
    RunExtends(Init(capacity), [e1], e2);
    assert [e1] == [] + [e1] && [e1, e2] == [e1] + [e2];
    assert {} + {q} == {q};
  }

  lemma MessageStored<Q>(capacity: nat, events: seq<Event<Q>>, m: Message<string>, key: string)
    requires Run(Init(capacity), events).Some?
    requires var w := Run(Init(capacity), events).value; w.senders == map[] && key in w.cache
    requires Matches(PersonPattern(m.owner), key)
    ensures var w := Run(Init(capacity), events).value;
            Run(Init(capacity), events + [Scan(0, m.owner, m.body, key), ReadBack(0), WriteBack(0)])
            == Some(w.(cache := w.cache[key := Envelope(key, Some(m))]))
  {
    Invariant(capacity, events);
    SenderRewrites(Run(Init(capacity), events).value, 0, m.owner, m.body, key);
    ThreeMore(Init(capacity), events, Scan(0, m.owner, m.body, key), ReadBack(0), WriteBack(0));
  }

  lemma MessageBroadcast<Q>(capacity: nat, events: seq<Event<Q>>, q: Q, m: Message<string>, key: string)
    requires Run(Init(capacity), events).Some?
    requires var w := Run(Init(capacity), events).value;
             && w.bus == Bus(capacity, map[key := {q}], map[q := []], map[q := []], Idle) && w.home == map[q := key]
             && key in w.cache && w.cache[key] == Envelope(key, Some(m))
    requires 0 < capacity
    ensures Delivers(capacity, events + [ReadEntry(0, key), Broadcast(0, [q]), OnBus(Put(q))], q, m, key)
  {
    Invariant(capacity, events);
    var w := Run(Init(capacity), events).value;
    assert Elements([q]) == {q};
    GeneratorDelivers(w, 0, key, m, [q]);
    ThreeMore(Init(capacity), events, ReadEntry(0, key), Broadcast(0, [q]), OnBus(Put(q)));
  }

  lemma ShortestRunDelivers<Q>(capacity: nat, q: Q, m: Message<string>, key: string)
    requires 0 < capacity && Matches(PersonPattern(m.owner), key)
    ensures Delivers(capacity, ShortestRun(q, m, key), q, m, key)
  {
    var start: seq<Event<Q>> := [Enqueued(key), OnBus(Subscribe(key, q))];
    var written := start + [Scan(0, m.owner, m.body, key), ReadBack(0), WriteBack(0)];
    ConnectionOpens(capacity, q, key);
    MessageStored(capacity, start, m, key);
    MessageBroadcast(capacity, written, q, m, key);
    assert ShortestRun(q, m, key) == written + [ReadEntry(0, key), Broadcast(0, [q]), OnBus(Put(q))];
  }

  /** The whole pipeline, both ways, for every id and every key: some run brings a person's message to a
      queue that subscribed under the key exactly when the person's pattern matches the key. */
  lemma ReachesExactly<Q>(capacity: nat, q: Q, m: Message<string>, key: string)
    requires 0 < capacity
    ensures (exists events :: Delivers(capacity, events, q, m, key)) <==> Matches(PersonPattern(m.owner), key)
  {
    if events :| Delivers(capacity, events, q, m, key) {
      RoutedByPattern(capacity, events, q, m);
    }
    if Matches(PersonPattern(m.owner), key) {
      ShortestRunDelivers(capacity, q, m, key);
    }
  }

  /** For an owner whose id is free of pattern characters: exactly when the two are the same, or the
      user's id starts with the owner's id and a colon. */
  lemma PlainOwnerReaches<Q>(capacity: nat, q: Q, m: Message<string>, user: string, stamp: string)
    requires 0 < capacity && NoGlob(m.owner) && ':' !in stamp
    ensures (exists events :: Delivers(capacity, events, q, m, ConnectionKey(user, stamp))) <==>
            m.owner == user || m.owner + ":" <= user
  {
    ReachesExactly(capacity, q, m, ConnectionKey(user, stamp));
    PatternMatchesUser(m.owner, user, stamp);
  }

  /** A message prepared for a person called '*' can reach everybody. */
  lemma StarOwnerReachesEverybody<Q>(capacity: nat, q: Q, body: string, user: string, stamp: string)
    requires 0 < capacity
    ensures exists events :: Delivers(capacity, events, q, Message("*", body), ConnectionKey(user, stamp))
  {
    StarPersonMatchesEverybody(user, stamp);
    ReachesExactly(capacity, q, Message("*", body), ConnectionKey(user, stamp));
  }
}
