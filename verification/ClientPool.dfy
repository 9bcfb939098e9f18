/**
  The pool of exchange clients (DeribitWebsocketPool, cryptomarket/deribit_client/deribit_websocket.py):
  every construction adds a batch of fresh clients to one bounded deque, and a client that is handed
  out is gone.
*/
module ClientPool {
  import opened Prelude
  import opened Settings

  datatype Pool = Pool(
    maxlen: nat,
    clients: seq<nat>,      // the deque; clients are numbered in the order they are made
    made: nat,
    handedOut: set<nat>,
    dropped: set<nat>)      // pushed out by the deque's length limit

  datatype Event = Construct | GetClients

  function Fresh(maxlen: nat): Pool {
    Pool(maxlen, [], 0, {}, {})
  }

  /** deque.append with maxlen: what does not fit leaves at the front. */
  function AddOne(p: Pool): Pool {
    var all := p.clients + [p.made];
    if |all| <= p.maxlen then p.(clients := all, made := p.made + 1)
    else p.(clients := all[1..], made := p.made + 1, dropped := p.dropped + {all[0]})
  }

  function AddBatch(p: Pool, n: nat): Pool {
    if n == 0 then p else AddOne(AddBatch(p, n - 1))
  }

  function Refilled(p: Pool): Pool {
    if p.clients == [] then AddBatch(p, DERIBIT_MAX_CONCURRENT) else p
  }

  function Step(p: Pool, e: Event): Pool
    requires e.GetClients? ==> Refilled(p).clients != []
  {
    match e
    case Construct => AddBatch(p, DERIBIT_MAX_CONCURRENT)
    case GetClients =>
      var q := Refilled(p);
      q.(clients := Front(q.clients), handedOut := q.handedOut + {Last(q.clients)})
  }

  /** None when some get_clients would pop an empty deque. */
  function Run(p: Pool, events: seq<Event>): Option<Pool> {
    if events == [] then Some(p)
    else
      match Run(p, Front(events))
      case None => None
      case Some(q) => if Last(events).GetClients? && Refilled(q).clients == [] then None else Some(Step(q, Last(events)))
  }

  /** Every client ever made is in exactly one place, and the deque is in order of making. */
  ghost predicate Accounted(p: Pool) {
    && 0 < p.maxlen && |p.clients| <= p.maxlen
    && (forall i, j :: 0 <= i < j < |p.clients| ==> p.clients[i] < p.clients[j])
    && (forall x :: x in p.clients ==> x < p.made && x !in p.handedOut && x !in p.dropped)
    && (forall x :: x in p.handedOut ==> x < p.made && x !in p.dropped)
    && (forall x :: x in p.dropped ==> x < p.made)
    && p.made == |p.handedOut| + |p.clients| + |p.dropped|
  }

  /** A full deque gives its oldest client up; the others stay as they are. */
  function DropOldest(p: Pool): Pool
    requires p.clients != []
  {
    p.(clients := p.clients[1..], dropped := p.dropped + {p.clients[0]})
  }

  lemma DropAccounts(p: Pool)
    requires Accounted(p) && p.clients != []
    ensures Accounted(DropOldest(p))
  {
    var oldest := p.clients[0];
    assert oldest in p.clients && oldest !in p.dropped;
    forall x | x in p.clients[1..] ensures x in p.clients && x != oldest {
      var i :| 0 <= i < |p.clients| - 1 && p.clients[1..][i] == x;
      assert p.clients[0] < p.clients[i + 1];
    }
  }

  lemma PushAccounts(p: Pool)
    requires Accounted(p) && |p.clients| < p.maxlen
    ensures Accounted(p.(clients := p.clients + [p.made], made := p.made + 1))
  {
    forall i | 0 <= i < |p.clients| ensures p.clients[i] < p.made {
      assert p.clients[i] in p.clients;
    }
  }

  lemma AddOneAccounts(p: Pool)
    requires Accounted(p)
    ensures Accounted(AddOne(p)) && AddOne(p).clients != [] && AddOne(p).maxlen == p.maxlen
  {
    if |p.clients| < p.maxlen {
      PushAccounts(p);
    } else {
      DropAccounts(p);
      PushAccounts(DropOldest(p));
      assert (p.clients + [p.made])[1..] == p.clients[1..] + [p.made];
    }
  }

  lemma {:induction false} AddBatchAccounts(p: Pool, n: nat)
    requires Accounted(p)
    ensures Accounted(AddBatch(p, n)) && AddBatch(p, n).maxlen == p.maxlen
    ensures n > 0 ==> AddBatch(p, n).clients != []
  {
    if n > 0 {
      AddBatchAccounts(p, n - 1);
      AddOneAccounts(AddBatch(p, n - 1));
    }
  }

  /** The numbers of n clients made one after the other. */
  function Numbers(from: nat, n: nat): seq<nat> {
    if n == 0 then [] else Numbers(from, n - 1) + [from + n - 1]
  }

  /** The last of a sequence that a deque of this size keeps. */
  function Newest(s: seq<nat>, size: nat): seq<nat> {
    s[if |s| <= size then 0 else |s| - size..]
  }

  lemma AddOneKeepsNewest(p: Pool, s: seq<nat>)
    requires 0 < p.maxlen && p.clients == Newest(s, p.maxlen)
    ensures AddOne(p).clients == Newest(s + [p.made], p.maxlen)
  {
  }

  lemma BatchOneMore(p: Pool, had: seq<nat>, numbers: seq<nat>)
    requires 0 < p.maxlen && p.clients == Newest(had + numbers, p.maxlen)
    ensures AddOne(p).clients == Newest(had + (numbers + [p.made]), p.maxlen)
  {
    AddOneKeepsNewest(p, had + numbers);
    Regrouped(had, numbers, [p.made]);
  }

  lemma {:induction false} BatchNumbers(p: Pool, n: nat)
    ensures AddBatch(p, n).made == p.made + n && AddBatch(p, n).maxlen == p.maxlen
  {
    if n > 0 {
      BatchNumbers(p, n - 1);
    }
  }

  /** After a batch the deque holds the newest of what it held and the new clients, in order. */
  lemma {:induction false} BatchKeepsNewest(p: Pool, n: nat)
    requires 0 < p.maxlen && |p.clients| <= p.maxlen
    ensures AddBatch(p, n).clients == Newest(p.clients + Numbers(p.made, n), p.maxlen)
  {
    if n == 0 {
      Regrouped(p.clients, [], []);
    } else {
      BatchKeepsNewest(p, n - 1);
      BatchNumbers(p, n - 1);
      BatchOneMore(AddBatch(p, n - 1), p.clients, Numbers(p.made, n - 1));
    }
  }

  lemma {:induction false} NumbersAre(from: nat, n: nat)
    ensures |Numbers(from, n)| == n
    ensures n > 0 ==> Last(Numbers(from, n)) == from + n - 1
  {
    if n > 0 {
      NumbersAre(from, n - 1);
    }
  }

  lemma NewestEnds(s: seq<nat>, t: seq<nat>, size: nat)
    requires 0 < size && t != []
    ensures |Newest(s + t, size)| == if |s| + |t| <= size then |s| + |t| else size
    ensures Newest(s + t, size) != [] && Last(Newest(s + t, size)) == Last(t)
  {
  }

  /** A batch makes n clients; the newest of them are in the pool, the last one at its end. */
  lemma BatchMakes(p: Pool, n: nat)
    requires 0 < p.maxlen && |p.clients| <= p.maxlen && 0 < n
    ensures var q := AddBatch(p, n);
            && q.made == p.made + n
            && |q.clients| == (if |p.clients| + n <= p.maxlen then |p.clients| + n else p.maxlen)
            && q.clients != [] && Last(q.clients) == p.made + n - 1
  {
    BatchNumbers(p, n);
    BatchKeepsNewest(p, n);
    NumbersAre(p.made, n);
    NewestEnds(p.clients, Numbers(p.made, n), p.maxlen);
  }

  lemma PopAccounts(q: Pool)
    requires Accounted(q) && q.clients != []
    ensures Last(q.clients) !in q.handedOut
    ensures Accounted(q.(clients := Front(q.clients), handedOut := q.handedOut + {Last(q.clients)}))
  {
  }

  lemma GetAccounts(p: Pool)
    requires Accounted(p)
    ensures Refilled(p).clients != [] && Accounted(Step(p, GetClients)) && Step(p, GetClients).maxlen == p.maxlen
    ensures Last(Refilled(p).clients) !in p.handedOut
  {
    AddBatchAccounts(p, DERIBIT_MAX_CONCURRENT);
    SameHandedOut(p, DERIBIT_MAX_CONCURRENT);
    PopAccounts(Refilled(p));
  }

  lemma {:induction false} SameHandedOut(p: Pool, n: nat)
    ensures AddBatch(p, n).handedOut == p.handedOut
  {
    if n > 0 {
      SameHandedOut(p, n - 1);
    }
  }

  /** One-shot clients.  Over any run of constructions and get_clients calls, get_clients never finds
      the deque empty, the pool stays within its limit, a client that was handed out is neither in
      the pool nor dropped (so it is never handed out again), and
      made = handed out + pooled + dropped. */
  lemma {:induction false} OneShotClients(maxlen: nat, events: seq<Event>)
    requires 0 < maxlen
    ensures Run(Fresh(maxlen), events).Some?
    ensures Accounted(Run(Fresh(maxlen), events).value) && Run(Fresh(maxlen), events).value.maxlen == maxlen
  {
    if events != [] {
      OneShotClients(maxlen, Front(events));
      var p := Run(Fresh(maxlen), Front(events)).value;
      AddBatchAccounts(p, DERIBIT_MAX_CONCURRENT);
      GetAccounts(p);
    }
  }

  class DeribitWebsocketPool {
    var clients: seq<nat>
    var made: nat
    ghost var handedOut: set<nat>
    ghost var dropped: set<nat>

    ghost function View(): Pool
      reads this
    {
      Pool(DERIBIT_QUEUE_SIZE, clients, made, handedOut, dropped)
    }

    ghost predicate Valid()
      reads this
    {
      Accounted(View())
    }

    constructor ()
      ensures Valid() && View() == Step(Fresh(DERIBIT_QUEUE_SIZE), Construct)
    {
      clients, made, handedOut, dropped := [], 0, {}, {};
      new;
      GenerateWorkers();
    }

    method GenerateWorkers()
      requires Valid()
      modifies this
      ensures Valid() && View() == AddBatch(old(View()), DERIBIT_MAX_CONCURRENT)
      ensures made == old(made) + 40 && clients != [] && Last(clients) == old(made) + 39
      ensures clients == Newest(old(clients) + Numbers(old(made), 40), 5000)
      ensures |clients| == if |old(clients)| + 40 <= 5000 then |old(clients)| + 40 else 5000
    {
      BatchMakes(View(), DERIBIT_MAX_CONCURRENT);
      BatchKeepsNewest(View(), DERIBIT_MAX_CONCURRENT);
      AddBatchAccounts(View(), DERIBIT_MAX_CONCURRENT);
      for i := 0 to DERIBIT_MAX_CONCURRENT
        invariant View() == AddBatch(old(View()), i)
      {
        if |clients| >= DERIBIT_QUEUE_SIZE {
          dropped := dropped + {clients[0]};
          clients := clients[1..];
        }
        clients := clients + [made];
        made := made + 1;
      }
    }

    method GetClients() returns (client: nat)
      requires Valid()
      modifies this
      ensures Valid() && Refilled(old(View())).clients != [] && View() == Step(old(View()), Event.GetClients)
      ensures client !in old(handedOut) && handedOut == old(handedOut) + {client}
      ensures client == if old(clients) != [] then Last(old(clients)) else old(made) + 39
      ensures made == if old(clients) != [] then old(made) else old(made) + 40
    {
      GetAccounts(View());
      if |clients| == 0 {
        GenerateWorkers();
      }
      client := Last(clients);
      clients := Front(clients);
      SameHandedOut(old(View()), DERIBIT_MAX_CONCURRENT);
      handedOut := handedOut + {client};
    }
  }
}
