/**
  The producer of ready-made workers (start_worker, cryptomarket/deribit_client/deribit_clients.py): it
  fills one bounded queue up to a limit of its own, while any number of sessions take from it.
*/
module WorkerQueue {
  import opened Prelude

  /** The size of deque_coroutines = asyncio.Queue(40). */
  const QUEUE_SIZE: nat := 40

  /** blocked: the producer's put_nowait met a full queue and it awaits a put instead. */
  datatype Workers = Workers(limit: nat, size: nat, blocked: bool)

  datatype Event = Offer | PutAwaited | Take

  predicate Enabled(w: Workers, e: Event) {
    match e
    case Offer => !w.blocked
    case PutAwaited => w.blocked && w.size < QUEUE_SIZE
    case Take => 0 < w.size
  }

  /** Offer is one pass of the producer's inner loop: at its limit it only sleeps. */
  function Step(w: Workers, e: Event): Workers
    requires Enabled(w, e)
  {
    match e
    case Offer =>
      if w.size >= w.limit then w
      else if w.size < QUEUE_SIZE then w.(size := w.size + 1)
      else w.(blocked := true)
    case PutAwaited => w.(size := w.size + 1, blocked := false)
    case Take => w.(size := w.size - 1)
  }

  function Run(w: Workers, events: seq<Event>): Option<Workers> {
    if events == [] then Some(w)
    else
      match Run(w, Front(events))
      case None => None
      case Some(v) => if Enabled(v, Last(events)) then Some(Step(v, Last(events))) else None
  }

  function Start(limit: nat): Workers {
    Workers(limit, 0, false)
  }

  /** In every interleaving with the consumers the queue holds at most min(limit, 40) workers. */
  lemma {:induction false} SizeIsCapped(limit: nat, events: seq<Event>)
    requires Run(Start(limit), events).Some?
    ensures var w := Run(Start(limit), events).value;
            && w.limit == limit && w.size <= limit && w.size <= QUEUE_SIZE
            && (w.blocked ==> QUEUE_SIZE < limit)
  {
    if events != [] {
      SizeIsCapped(limit, Front(events));
    }
  }

  function Offers(n: nat): seq<Event> {
    if n == 0 then [] else Offers(n - 1) + [Offer]
  }

  lemma {:induction false} OffersFill(limit: nat, n: nat)
    requires n <= limit && n <= QUEUE_SIZE
    ensures Run(Start(limit), Offers(n)) == Some(Workers(limit, n, false))
  {
    if n > 0 {
      OffersFill(limit, n - 1);
      assert Front(Offers(n)) == Offers(n - 1);
    }
  }

  predicate Blocks(limit: nat, events: seq<Event>) {
    Run(Start(limit), events).Some? && Run(Start(limit), events).value.blocked
  }

  /** The branch for a full queue can be reached exactly when the limit exceeds the queue's size. */
  lemma FullBranchReachable(limit: nat)
    ensures (exists events :: Blocks(limit, events)) <==> QUEUE_SIZE < limit
  {
    if events :| Blocks(limit, events) {
      SizeIsCapped(limit, events);
    }
    if QUEUE_SIZE < limit {
      OffersFill(limit, QUEUE_SIZE);
      var events := Offers(QUEUE_SIZE) + [Offer];
      assert Front(events) == Offers(QUEUE_SIZE);
      assert Blocks(limit, events);
    }
  }

  /** How often the producer went through its inner loop. */
  function Passes(events: seq<Event>): nat {
    if events == [] then 0 else Passes(Front(events)) + if Last(events).Offer? then 1 else 0
  }

  lemma RunExtends(limit: nat, events: seq<Event>, e: Event)
    requires Run(Start(limit), events).Some? && Enabled(Run(Start(limit), events).value, e)
    ensures Run(Start(limit), events + [e]) == Some(Step(Run(Start(limit), events).value, e))
    ensures Passes(events + [e]) == Passes(events) + if e.Offer? then 1 else 0
  {
  }

  class WorkerPool {
    const limit: nat
    var size: nat
    var blocked: bool
    ghost var history: seq<Event>

    ghost function View(): Workers
      reads this
    {
      Workers(limit, size, blocked)
    }

    /** The state is what the history leads to. */
    ghost predicate Valid()
      reads this
    {
      Run(Start(limit), history) == Some(View())
    }

    constructor (limit: nat)
      ensures Valid() && View() == Start(limit) && history == []
    {
      this.limit, size, blocked, history := limit, 0, false, [];
    }

    /** put_nowait, and the awaited put begun when the queue is full. */
    method Offer()
      requires Valid() && !blocked
      modifies this
      ensures Valid() && View() == Step(old(View()), Event.Offer) && history == old(history) + [Event.Offer]
    {
      RunExtends(limit, history, Event.Offer);
      if size < limit {
        if size < QUEUE_SIZE {
          size := size + 1;
        } else {
          blocked := true;
        }
      }
      history := history + [Event.Offer];
    }

    /** The awaited put, once there is room. */
    method PutWaiting()
      requires Valid() && blocked && size < QUEUE_SIZE
      modifies this
      ensures Valid() && View() == Step(old(View()), PutAwaited) && history == old(history) + [PutAwaited]
    {
      RunExtends(limit, history, PutAwaited);
      size, blocked := size + 1, false;
      history := history + [PutAwaited];
    }

    /** Consumers take up to n workers. */
    method TakeUpTo(n: nat)
      requires Valid()
      modifies this
      ensures Valid() && blocked == old(blocked) && size == (if n <= old(size) then old(size) - n else 0)
      ensures Passes(history) == Passes(old(history)) && old(history) <= history
    {
      var taken := 0;
      while taken < n && 0 < size
        invariant Valid() && blocked == old(blocked) && taken <= n && size + taken == old(size)
        invariant Passes(history) == Passes(old(history)) && old(history) <= history
      {
        RunExtends(limit, history, Take);
        size, taken := size - 1, taken + 1;
        history := history + [Take];
      }
    }

    /** One whole round of the producer.  `takes` says how many workers the sessions take at each of its
        suspensions, one after the other and then none.  A round that is done offered exactly `limit`
        times; one that is not stays suspended on the full queue.  With nobody taking it stops at its
        limit, or suspends. */
    method OfferRound(takes: seq<nat>) returns (done: bool)
      requires Valid() && !blocked
      modifies this
      ensures Valid() && old(history) <= history
      ensures done ==> !blocked && Passes(history) == Passes(old(history)) + limit
      ensures !done ==> blocked && size == QUEUE_SIZE < limit
      ensures size <= limit && size <= QUEUE_SIZE
      ensures (forall n :: n in takes ==> n == 0) ==>
                && size == (if limit <= QUEUE_SIZE then limit else QUEUE_SIZE)
                && (done <==> limit <= QUEUE_SIZE)
    {
      SizeIsCapped(limit, history);
      ghost var quiet := forall n :: n in takes ==> n == 0;
      var i, at := 0, 0;
      while i < limit
        invariant Valid() && !blocked && old(history) <= history && i <= limit && at <= |takes|
        invariant Passes(history) == Passes(old(history)) + i
        invariant size <= limit && size <= QUEUE_SIZE
        invariant quiet ==> size == if old(size) + i <= limit then old(size) + i else limit
      {
        Offer();
        while blocked && at < |takes|
          invariant Valid() && old(history) <= history && at <= |takes|
          invariant Passes(history) == Passes(old(history)) + i + 1
          invariant size <= limit && size <= QUEUE_SIZE
          invariant blocked ==> size == QUEUE_SIZE < limit
          invariant quiet && !blocked ==> size == if old(size) + i + 1 <= limit then old(size) + i + 1 else limit
        {
          assert takes[at] in takes;
          TakeUpTo(takes[at]);
          at := at + 1;
          if size < QUEUE_SIZE {
            PutWaiting();
          }
        }
        if blocked {
          return false;
        }
        if at < |takes| {
          assert takes[at] in takes;
          TakeUpTo(takes[at]);
          at := at + 1;
        }
        i := i + 1;
      }
      done := true;
    }
  }
}
