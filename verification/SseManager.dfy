/**
  ServerSSEManager itself (cryptomarket/project/sse_manager.py): the object whose methods subscribe,
  unsubscribe and broadcast update the dictionary of queue sets in place.  Each method is proved to
  perform legal `SseBus` events and nothing else; the object's invariant is that its state is the
  outcome of the events so far, so every theorem about runs of the bus holds of it.
*/
module SseManager {
  import opened Prelude
  import opened Records
  import opened SseBus

  /** One subscriber's asyncio.Queue. */
  class MessageQueue<M> {
    var items: seq<M>
    ghost var taken: seq<M>

    constructor ()
      ensures items == [] && taken == []
    {
      items, taken := [], [];
    }
  }

  class ServerSSEManager<M> {
    const queueSize: nat
    var connections: map<string, set<MessageQueue<M>>>
    var flight: Flight<MessageQueue<M>, M>                   // the broadcast that holds the lock
    ghost var created: set<MessageQueue<M>>
    ghost var history: seq<Event<MessageQueue<M>, M>>

    ghost function View(): Bus<MessageQueue<M>, M>
      reads this, created
    {
      Bus(queueSize, connections, map q | q in created :: q.items, map q | q in created :: q.taken, flight)
    }

    /** The state is what the history leads to. */
    ghost predicate Valid()
      reads this, created
    {
      Run(Empty(queueSize), history) == Some(View())
    }

    constructor (queueSize: nat)
      ensures Valid() && fresh(created) && flight.Idle?
      ensures View() == Empty(queueSize) && history == []
    {
      this.queueSize := queueSize;
      connections, flight, created, history := map[], Idle, {}, [];
    }

    /** What one subscriber has received, is about to receive and has lost is what it was owed. */
    lemma Conserves(queue: MessageQueue<M>)
      requires Valid() && queue in created
      ensures queue.taken + queue.items + InFlight(View(), queue) + Lost(history, queue) == Owed(history, queue)
      ensures |queue.items| <= queueSize
    {
      DeliveryConservation(queueSize, history, queue);
    }

    /** One step of the bus was taken: the object is valid again with the longer history. */
    ghost method Record(before: Bus<MessageQueue<M>, M>, e: Event<MessageQueue<M>, M>)
      requires Run(Empty(queueSize), history) == Some(before)
      requires Enabled(before, e) && View() == Step(before, e)
      modifies this`history
      ensures Valid() && View() == old(View()) && history == old(history) + [e]
    {
      RunExtends(Empty(queueSize), history, e);
      ghost var now := View();
      history := history + [e];
      assert View().buffered == now.buffered && View().consumed == now.consumed;
    }

    method AddToKey(key: string, queue: MessageQueue<M>)
      modifies this`connections
      ensures connections == Added(old(connections), key, queue)
    {
      if key !in connections {
        connections := connections[key := {}];
      }
      connections := connections[key := connections[key] + {queue}];
    }

    method Subscribe(keyOfQueue: string) returns (queue: MessageQueue<M>)
      requires Valid() && flight.Idle?
      modifies this
      ensures Valid() && fresh(queue) && created == old(created) + {queue}
      ensures View() == Step(old(View()), Event.Subscribe(keyOfQueue, queue))
      ensures history == old(history) + [Event.Subscribe(keyOfQueue, queue)]
    {
      ghost var before := View();
      queue := new MessageQueue();
      created := created + {queue};
      AddToKey(keyOfQueue, queue);
      assert View().buffered == before.buffered[queue := []];
      assert View().consumed == before.consumed[queue := []];
      Record(before, Event.Subscribe(keyOfQueue, queue));
    }

    method Unsubscribe(keyOfQueue: string, queue: MessageQueue<M>)
      requires Valid() && flight.Idle?
      modifies this
      ensures Valid() && created == old(created)
      ensures View() == Step(old(View()), Event.Unsubscribe(keyOfQueue, queue))
      ensures history == old(history) + [Event.Unsubscribe(keyOfQueue, queue)]
    {
      ghost var before := View();
      if keyOfQueue in connections {
        connections := connections[keyOfQueue := connections[keyOfQueue] - {queue}];
        if connections[keyOfQueue] == {} {
          connections := connections - {keyOfQueue};
        }
      }
      assert connections == Removed(before.connections, keyOfQueue, queue);
      Record(before, Event.Unsubscribe(keyOfQueue, queue));
    }

    /** A consumer takes the oldest message of its queue; no lock is involved. */
    method Take(queue: MessageQueue<M>) returns (message: M)
      requires Valid() && queue in created && queue.items != []
      modifies this`history, queue
      ensures Valid()
      ensures View() == Step(old(View()), Get(queue)) && history == old(history) + [Get(queue)]
      ensures message == old(queue.items[0])
    {
      ghost var before := View();
      message := queue.items[0];
      queue.taken := queue.taken + [message];
      queue.items := queue.items[1..];
      Record(before, Get(queue));
    }

    /** queue.put_nowait(message) on the next queue of the loop. */
    method PutHead()
      requires Valid() && flight.Putting? && flight.remaining != []
      requires flight.remaining[0] in created && |flight.remaining[0].items| < queueSize
      modifies this, flight.remaining[0]
      ensures Valid() && created == old(created)
      ensures View() == Step(old(View()), Put(old(flight.remaining[0])))
      ensures history == old(history) + [Put(old(flight.remaining[0]))]
    {
      ghost var before := View();
      var queue := flight.remaining[0];
      queue.items := queue.items + [flight.message];
      flight := flight.(remaining := flight.remaining[1..]);
      Record(before, Put(queue));
    }

    /** The order in which the loop happens to walk a set. */
    method Arrange(queues: set<MessageQueue<M>>) returns (order: seq<MessageQueue<M>>)
      ensures Distinct(order) && Elements(order) == queues
    {
      order := [];
      var rest := queues;
      while rest != {}
        invariant Distinct(order) && Elements(order) + rest == queues && Elements(order) * rest == {}
        decreases |rest|
      {
        var q :| q in rest;
        assert forall x :: x in order ==> x in Elements(order);
        order, rest := order + [q], rest - {q};
        assert Elements(order) == Elements(order[..|order| - 1]) + {q};
      }
    }

    /** Entering the lock: the loop over the key's queues begins, or the key has no queues. */
    method Acquire(key: string, message: M)
      requires Valid() && flight.Idle?
      modifies this
      ensures Valid() && created == old(created)
      ensures exists order :: history == old(history) + [Start(key, message, order)]
                              && Enabled(old(View()), Start(key, message, order))
                              && View() == Step(old(View()), Start(key, message, order))
    {
      ghost var before := View();
      var order := [];
      if key in connections {
        order := Arrange(connections[key]);
        flight := Putting(key, message, order, []);
      } else {
        flight := Deleting(key);
      }
      assert View().buffered == before.buffered && View().consumed == before.consumed;
      Record(before, Start(key, message, order));
    }

    /** The events added to a history. */
    ghost predicate OnlyPutsAndGets(longer: seq<Event<MessageQueue<M>, M>>, shorter: seq<Event<MessageQueue<M>, M>>) {
      shorter <= longer && forall i :: |shorter| <= i < |longer| ==> longer[i].Put? || longer[i].Get?
    }

    /** The loop over the queues.  `gets` is what consumers do while the loop is suspended on a full
        queue: each entry is a queue one message is taken from.  When the script ends before there
        is room the call stays suspended on the full queue, still holding the lock (done is false). */
    method PutAll(gets: seq<MessageQueue<M>>) returns (done: bool)
      requires Valid() && flight.Putting?
      requires forall q :: q in gets ==> q in created
      modifies this, created
      ensures Valid() && created == old(created)
      ensures flight.Putting? && flight.key == old(flight.key) && flight.message == old(flight.message) && flight.dead == old(flight.dead)
      ensures done <==> flight.remaining == []
      ensures !done ==> |flight.remaining[0].items| == queueSize
      ensures OnlyPutsAndGets(history, old(history))
    {
      var woken := 0;
      while flight.remaining != []
        invariant Valid() && created == old(created)
        invariant woken <= |gets|
        invariant flight.Putting? && flight.key == old(flight.key) && flight.message == old(flight.message) && flight.dead == old(flight.dead)
        invariant OnlyPutsAndGets(history, old(history))
        decreases |flight.remaining|, |gets| - woken
      {
        var queue := flight.remaining[0];
        HeadIsKnown();
        if |queue.items| < queueSize {
          PutHead();
        } else if woken < |gets| {
          if gets[woken].items != [] {
            var _ := Take(gets[woken]);
          }
          woken := woken + 1;
        } else {
          return false;
        }
      }
      done := true;
    }

    /** The queue the loop visits next is one of the bus, within its capacity. */
    lemma HeadIsKnown()
      requires Valid() && flight.Putting? && flight.remaining != []
      ensures flight.remaining[0] in created && |flight.remaining[0].items| <= queueSize
    {
      ShapeAlways(queueSize, history);
      var queue := flight.remaining[0];
      assert queue in View().connections[flight.key];
      assert |View().buffered[queue]| <= queueSize;
    }

    /** Leaving the lock after the loop. */
    method Release()
      requires Valid() && flight.Putting? && flight.remaining == [] && flight.key in connections
      modifies this
      ensures Valid() && created == old(created)
      ensures View() == Step(old(View()), Finish) && history == old(history) + [Finish]
    {
      ghost var before := View();
      var key, dead := flight.key, flight.dead;
      connections := connections[key := set q | q in connections[key] && q !in dead];
      flight := Idle;
      Record(before, Finish);
    }

    /** The cache record of an unknown key is deleted, and the lock left. */
    method RecordDeleted() returns (deleted: Option<string>)
      requires Valid() && flight.Deleting?
      modifies this
      ensures Valid() && created == old(created)
      ensures deleted == Some(old(flight.missing))
      ensures View() == Step(old(View()), Deleted) && history == old(history) + [Deleted]
    {
      ghost var before := View();
      deleted := Some(flight.missing);
      flight := Idle;
      Record(before, Deleted);
    }

    /** The whole broadcast coroutine, for a connection record.  An empty or missing message does nothing.  Otherwise the history grows
        by the start of this broadcast, by puts and consumer steps only, and, when the call is done,
        by the release of the lock: after the puts for a registered key, and after the deletion of the
        record for any other.  A call that is not done is suspended on a full queue. */
    method Broadcast(data: Envelope<M>, gets: seq<MessageQueue<M>>) returns (done: bool, deleted: Option<string>)
      requires Valid() && flight.Idle?
      requires forall q :: q in gets ==> q in created
      modifies this, created
      ensures Valid() && created == old(created)
      ensures done <==> flight.Idle?
      ensures data.message.None? ==> done && View() == old(View()) && history == old(history)
      ensures data.message.Some? ==>
                && |old(history)| < |history| && old(history) <= history
                && history[|old(history)|].Start?
                && history[|old(history)|].key == data.mappedKey && history[|old(history)|].message == data.message.value
      ensures forall i :: |old(history)| < i < |history| - (if done then 1 else 0) ==> history[i].Put? || history[i].Get?
      ensures done && data.message.Some? ==> Last(history) == if data.mappedKey in old(connections) then Finish else Deleted
      ensures deleted == if data.message.Some? && data.mappedKey !in old(connections) then Some(data.mappedKey) else None
      ensures deleted.Some? ==> done && View() == old(View())
      ensures !done ==> flight.Putting? && flight.remaining != [] && |flight.remaining[0].items| == queueSize
    {
      if data.message.None? {
        return true, None;
      }
      Acquire(data.mappedKey, data.message.value);
      if flight.Deleting? {
        deleted := RecordDeleted();
        return true, deleted;
      }
      deleted := None;
      ghost var started := history;
      done := PutAll(gets);
      assert started <= history;
      if done {
        ShapeAlways(queueSize, history);
        Release();
      }
    }
  }
}
