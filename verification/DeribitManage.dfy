/**
  The object that owns the ingest buffer (DeribitManage, cryptomarket/deribit_client/deribit_clients.py),
  its deque, queue and cache updated in place.  The code between two awaits of enqueue is one method;
  `IngestBuffer` says what each does and what every interleaving of them keeps.
*/
module DeribitManage {
  import opened Prelude
  import opened IngestBuffer
  import opened KeyFate
  import opened KeyRepeats

  class DeribitManage {
    const queueSize: nat
    var postman: seq<Entry>
    var queue: seq<string>
    var cache: map<string, string>
    var calls: map<nat, Call>
    var orphans: seq<Entry>
    ghost var submitted: seq<Entry>
    ghost var consumed: seq<string>
    ghost var failed: seq<string>
    ghost var history: seq<Event>

    ghost function View(): Ingest
      reads this
    {
      Ingest(queueSize, queueSize, postman, queue, cache, calls, orphans, submitted, consumed, failed)
    }

    /** The state is what the history leads to. */
    ghost predicate Valid()
      reads this
    {
      Run(Fresh(queueSize, queueSize), history) == Some(View())
    }

    constructor (queueSize: nat)
      ensures Valid() && View() == Fresh(queueSize, queueSize) && history == []
    {
      this.queueSize := queueSize;
      history := [];
      postman, queue, cache, calls, orphans := [], [], map[], map[], [];
      submitted, consumed, failed := [], [], [];
    }

    /** Every key that was published or is buffered has a record in the cache, or a write of it is under
        way or failed; deque and queue keep their sizes. */
    lemma Covers()
      requires Valid()
      ensures AllCovered(View()) && |queue| <= queueSize && |postman| <= queueSize
    {
      AlwaysCovered(queueSize, queueSize, history);
      SizesAreKept(queueSize, queueSize, history);
    }

    /** A record submitted now is never lost exactly when no flush is suspended in the middle. */
    lemma NextIsSafe(call: nat, entry: Entry)
      requires Valid() && 0 < queueSize && call !in calls && !Out(View(), entry.key)
      ensures var t := Step(View(), Submit(call, entry));
              (forall events :: !Loses(t, events, entry.key)) <==> forall c :: c in calls ==> calls[c].Gathering?
    {
      SubmissionNeverLost(View(), call, entry);
    }

    /** While no flush is suspended, a key buffered once and not published yet is never published twice
        exactly when the queue is empty, or one flush at most can begin before the deque is cleared. */
    lemma BufferedIsOnce(k: string)
      requires Valid() && 0 < queueSize
      requires Times(Keys(postman), k) == 1 && k !in consumed + queue && forall c :: c in calls ==> calls[c].Gathering?
      ensures (forall events :: !Doubles(View(), events, k)) <==> queue == [] || |calls| + (queueSize - |postman|) <= 1
    {
      Covers();
      BufferedKeyNeverTwice(View(), k);
    }

    /** One more step was taken. */
    ghost method Record(before: Ingest, e: Event)
      requires Run(Fresh(queueSize, queueSize), history) == Some(before)
      requires Enabled(before, e) && View() == Step(before, e)
      modifies this`history
      ensures Valid() && View() == old(View()) && history == old(history) + [e]
    {
      history := history + [e];
      assert Front(history) == old(history);
    }

    /** enqueue up to its first await: append, then start one write for everything buffered. */
    method BeginEnqueue(call: nat, mappedKey: string, kwargs: string)
      requires Valid() && call !in calls
      modifies this
      ensures Valid() && history == old(history) + [Submit(call, Entry(mappedKey, kwargs))]
      ensures View() == Step(old(View()), Submit(call, Entry(mappedKey, kwargs)))
    {
      ghost var before := View();
      postman := postman + [Entry(mappedKey, kwargs)];
      if queueSize < |postman| {
        postman := postman[|postman| - queueSize..];
      }
      assert postman == Append(old(postman), Entry(mappedKey, kwargs), queueSize);
      calls := calls[call := Gathering(postman)];
      submitted := submitted + [Entry(mappedKey, kwargs)];
      Record(before, Submit(call, Entry(mappedKey, kwargs)));
    }

    /** One setex of a gather succeeds. */
    method WriteLands(call: nat, index: nat)
      requires Valid() && Enabled(View(), Land(call, index))
      modifies this
      ensures Valid() && history == old(history) + [Land(call, index)]
      ensures View() == Step(old(View()), Land(call, index))
    {
      ghost var before := View();
      var writes := calls[call].pending;
      cache := cache[writes[index].key := writes[index].payload];
      calls := calls[call := Gathering(Without(writes, index))];
      Record(before, Land(call, index));
    }

    /** One setex raises: the gather raises it, the call logs it and ends, the other writes go on. */
    method WriteFails(call: nat, index: nat)
      requires Valid() && Enabled(View(), Fail(call, index))
      modifies this
      ensures Valid() && history == old(history) + [Fail(call, index)]
      ensures View() == Step(old(View()), Fail(call, index))
    {
      ghost var before := View();
      var writes := calls[call].pending;
      orphans := orphans + Without(writes, index);
      calls := calls - {call};
      failed := failed + [writes[index].key];
      Record(before, Fail(call, index));
    }

    /** The publishing loop, up to its end or a full queue; returns what is left. */
    method PutKeys(keys: seq<string>) returns (rest: seq<string>)
      requires |queue| <= queueSize
      modifies this`queue
      ensures |queue| <= queueSize && old(queue) <= queue && queue + rest == old(queue) + keys
      ensures rest != [] ==> |queue| == queueSize
    {
      var i := 0;
      while i < |keys| && |queue| < queueSize
        invariant i <= |keys| && |queue| <= queueSize
        invariant queue == old(queue) + keys[..i]
      {
        queue := queue + [keys[i]];
        i := i + 1;
      }
      assert keys == keys[..i] + keys[i..];
      rest := keys[i..];
    }

    /** enqueue after its gather, or after a full queue got room: put the keys one by one; when all
        are out, clear the deque; when the queue is full, stay suspended with the rest. */
    method PublishKeys(call: nat)
      requires Valid() && Enabled(View(), Resume(call))
      modifies this
      ensures Valid() && history == old(history) + [Resume(call)]
      ensures View() == Step(old(View()), Resume(call))
    {
      ghost var before := View();
      SizesAreKept(queueSize, queueSize, history);
      var keys := if calls[call].Gathering? then Keys(postman) else calls[call].rest;
      var rest := PutKeys(keys);
      if rest == [] {
        postman := [];
        calls := calls - {call};
      } else {
        calls := calls[call := Publishing(rest)];
      }
      PutSplits(before.queue, keys, queue, rest, queueSize);
      Record(before, Resume(call));
    }

    /** A consumer takes the oldest key. */
    method TakeKey() returns (key: string)
      requires Valid() && queue != []
      modifies this
      ensures Valid() && history == old(history) + [Take]
      ensures View() == Step(old(View()), Take)
      ensures key == old(queue)[0]
    {
      ghost var before := View();
      key := queue[0];
      queue := queue[1..];
      consumed := consumed + [key];
      Record(before, Take);
    }
  }

  /** What was put is what there was room for. */
  lemma PutSplits(before: seq<string>, keys: seq<string>, queue: seq<string>, rest: seq<string>, size: nat)
    requires |before| <= size && |queue| <= size && queue + rest == before + keys && before <= queue
    requires rest != [] ==> |queue| == size
    ensures if |keys| <= size - |before| then queue == before + keys && rest == []
            else queue == before + keys[..size - |before|] && rest == keys[size - |before|..]
  {
    var put := |queue| - |before|;
    assert queue == (before + keys)[..|queue|] == before + keys[..put];
    assert rest == (before + keys)[|queue|..] == keys[put..];
  }
}
