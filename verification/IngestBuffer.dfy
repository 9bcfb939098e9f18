/**
  The ingest buffer (DeribitManage.enqueue, cryptomarket/deribit_client/deribit_clients.py).

  enqueue appends one record to a deque shared by all calls, starts a cache write for everything the
  deque holds, waits for all of them, then publishes every key the deque holds *by then* and clears
  it.  Calls overlap: each is atomic up to the gather, and again from the gather to the end as long
  as the key queue has room.  On a full queue the publishing loop suspends in the middle.

  The list of failed keys never fills: the results are tested as one non-empty list, which is
  true whatever it holds, so a failing write only shows as an exception that ends the call.
*/
module IngestBuffer {
  import opened Prelude

  datatype Entry = Entry(key: string, payload: string)

  datatype Call =
    | Gathering(pending: seq<Entry>)   // cache writes not finished
    | Publishing(rest: seq<string>)    // suspended on a full queue with these keys still to put

  datatype Ingest = Ingest(
    bufferCap: nat,
    queueCap: nat,
    buffer: seq<Entry>,            // _deque_postman
    queue: seq<string>,            // the key queue
    cache: map<string, string>,
    calls: map<nat, Call>,
    orphans: seq<Entry>,           // writes of a failed call that are still under way
    submitted: seq<Entry>,         // history: records given to enqueue
    consumed: seq<string>,         // history: keys taken from the queue
    failed: seq<string>)           // history: keys with a failed write

  datatype Event =
    | Submit(call: nat, entry: Entry)
    | Land(call: nat, index: nat)      // one write of the gather succeeds
    | Fail(call: nat, index: nat)      // one write raises: gather raises, the call ends
    | OrphanLands(index: nat)
    | OrphanFails(index: nat)
    | Resume(call: nat)                // the gather is complete, or the full queue got room
    | Take                             // a consumer gets the oldest key

  function Fresh(bufferCap: nat, queueCap: nat): Ingest {
    Ingest(bufferCap, queueCap, [], [], map[], map[], [], [], [], [])
  }

  function Keys(entries: seq<Entry>): (keys: seq<string>)
    ensures |keys| == |entries| && forall i :: 0 <= i < |keys| ==> keys[i] == entries[i].key
  {
    seq(|entries|, i requires 0 <= i < |entries| => entries[i].key)
  }

  /** deque.append with maxlen: a full deque drops its oldest element. */
  function Append(buffer: seq<Entry>, e: Entry, cap: nat): seq<Entry> {
    if |buffer| < cap then buffer + [e]
    else if cap == 0 then []
    else buffer[|buffer| + 1 - cap..] + [e]
  }

  function Without<T>(s: seq<T>, i: nat): seq<T>
    requires i < |s|
  {
    s[..i] + s[i + 1..]
  }

  predicate Enabled(s: Ingest, e: Event) {
    match e
    case Submit(c, _) => c !in s.calls
    case Land(c, i) => c in s.calls && s.calls[c].Gathering? && i < |s.calls[c].pending|
    case Fail(c, i) => c in s.calls && s.calls[c].Gathering? && i < |s.calls[c].pending|
    case OrphanLands(i) => i < |s.orphans|
    case OrphanFails(i) => i < |s.orphans|
    case Resume(c) =>
      c in s.calls && (s.calls[c] == Gathering([]) || (s.calls[c].Publishing? && |s.queue| < s.queueCap))
    case Take => s.queue != []
  }

  /** The publishing loop run until it is done or the queue is full. */
  function Publish(s: Ingest, c: nat, keys: seq<string>): Ingest {
    var room := if |s.queue| < s.queueCap then s.queueCap - |s.queue| else 0;
    if |keys| <= room then s.(queue := s.queue + keys, buffer := [], calls := s.calls - {c})
    else s.(queue := s.queue + keys[..room], calls := s.calls[c := Publishing(keys[room..])])
  }

  function Step(s: Ingest, e: Event): Ingest
    requires Enabled(s, e)
  {
    match e
    case Submit(c, entry) =>
      var buffer := Append(s.buffer, entry, s.bufferCap);
      s.(buffer := buffer, calls := s.calls[c := Gathering(buffer)], submitted := s.submitted + [entry])
    case Land(c, i) =>
      var w := s.calls[c].pending[i];
      s.(cache := s.cache[w.key := w.payload], calls := s.calls[c := Gathering(Without(s.calls[c].pending, i))])
    case Fail(c, i) =>
      var writes := s.calls[c].pending;
      s.(calls := s.calls - {c}, orphans := s.orphans + Without(writes, i), failed := s.failed + [writes[i].key])
    case OrphanLands(i) =>
      s.(cache := s.cache[s.orphans[i].key := s.orphans[i].payload], orphans := Without(s.orphans, i))
    case OrphanFails(i) =>
      s.(orphans := Without(s.orphans, i), failed := s.failed + [s.orphans[i].key])
    case Resume(c) =>
      Publish(s, c, if s.calls[c].Gathering? then Keys(s.buffer) else s.calls[c].rest)
    case Take => s.(queue := s.queue[1..], consumed := s.consumed + [s.queue[0]])
  }

  function Run(s: Ingest, events: seq<Event>): Option<Ingest> {
    if events == [] then Some(s)
    else
      match Run(s, Front(events))
      case None => None
      case Some(t) => if Enabled(t, Last(events)) then Some(Step(t, Last(events))) else None
  }

  // ---------------------------------------------------------------------------------------------
  // Exactly once, in order
  // ---------------------------------------------------------------------------------------------

  /** Every submitted key is consumed, queued or still buffered: once, and in order. */
  predicate Books(s: Ingest) {
    Keys(s.submitted) == s.consumed + s.queue + Keys(s.buffer)
  }

  /** The two bounded buffers have room for what the event is about to put into them. */
  predicate Roomy(s: Ingest, e: Event) {
    match e
    case Submit(_, _) => |s.buffer| < s.bufferCap
    case Resume(_) => |s.queue| + |s.buffer| <= s.queueCap
    case _ => true
  }

  predicate RoomyRun(s: Ingest, events: seq<Event>) {
    events == [] ||
    (RoomyRun(s, Front(events)) && Run(s, Front(events)).Some? && Roomy(Run(s, Front(events)).value, Last(events)))
  }

  predicate NonePublishing(s: Ingest) {
    forall c :: c in s.calls ==> s.calls[c].Gathering?
  }

  lemma BooksStep(s: Ingest, e: Event)
    requires Enabled(s, e) && Roomy(s, e) && Books(s) && NonePublishing(s)
    ensures Books(Step(s, e)) && NonePublishing(Step(s, e))
  {
  }

  /** Exactly-once ingest.  For any number of overlapping calls, any of whose writes may fail, as
      long as there is room, the submitted keys are, in order, the consumed, the queued and the
      buffered ones: a failed call keeps its keys for a later flush, a call may publish another
      call's keys, and no flush suspends half-way. */
  lemma {:induction false} ExactlyOnce(bufferCap: nat, queueCap: nat, events: seq<Event>)
    requires Run(Fresh(bufferCap, queueCap), events).Some?
    requires RoomyRun(Fresh(bufferCap, queueCap), events)
    ensures Books(Run(Fresh(bufferCap, queueCap), events).value)
    ensures NonePublishing(Run(Fresh(bufferCap, queueCap), events).value)
  {
    if events != [] {
      ExactlyOnce(bufferCap, queueCap, Front(events));
      BooksStep(Run(Fresh(bufferCap, queueCap), Front(events)).value, Last(events));
    }
  }

  lemma {:induction false} SizesAreKept(bufferCap: nat, queueCap: nat, events: seq<Event>)
    requires Run(Fresh(bufferCap, queueCap), events).Some?
    ensures var s := Run(Fresh(bufferCap, queueCap), events).value;
            && s.queueCap == queueCap && |s.queue| <= queueCap
            && s.bufferCap == bufferCap && |s.buffer| <= bufferCap
  {
    if events != [] {
      SizesAreKept(bufferCap, queueCap, Front(events));
    }
  }

  lemma DistinctParts(a: seq<string>, b: seq<string>)
    requires Distinct(a + b)
    ensures Distinct(a) && forall k :: k in a ==> k !in b
  {
    var all := a + b;
    forall i, j | 0 <= i < j < |a| ensures a[i] != a[j] {
      assert all[i] != all[j];
    }
    forall i, j | 0 <= i < |a| && 0 <= j < |b| ensures a[i] != b[j] {
      assert all[i] != all[|a| + j];
    }
  }

  /** So distinct submissions are never published twice. */
  lemma NoKeyTwice(bufferCap: nat, queueCap: nat, events: seq<Event>)
    requires Run(Fresh(bufferCap, queueCap), events).Some?
    requires RoomyRun(Fresh(bufferCap, queueCap), events)
    requires Distinct(Keys(Run(Fresh(bufferCap, queueCap), events).value.submitted))
    ensures var s := Run(Fresh(bufferCap, queueCap), events).value;
            Distinct(s.consumed + s.queue) && forall k :: k in s.consumed + s.queue ==> k !in Keys(s.buffer)
  {
    ExactlyOnce(bufferCap, queueCap, events);
    var s := Run(Fresh(bufferCap, queueCap), events).value;
    DistinctParts(s.consumed + s.queue, Keys(s.buffer));
  }

  /** A submission keeps the books exactly when the deque is not full: a full deque silently drops
      the oldest record, which is then neither buffered nor published. */
  lemma SubmitKeepsBooks(s: Ingest, c: nat, entry: Entry)
    requires Books(s) && c !in s.calls
    requires |s.buffer| <= s.bufferCap
    ensures Books(Step(s, Submit(c, entry))) <==> |s.buffer| < s.bufferCap
  {
  }

  predicate Suspended(s: Ingest, c: nat) {
    && 0 < s.queueCap && |s.queue| == s.queueCap
    && c in s.calls && s.calls[c].Publishing? && s.calls[c].rest != []
  }

  /** Consumers take from the queue until the suspended flush c gets through. */
  function Drain(s: Ingest, c: nat): Ingest
    decreases if c in s.calls && s.calls[c].Publishing? then |s.calls[c].rest| else 0
  {
    if Suspended(s, c) then Drain(Step(Step(s, Take), Resume(c)), c) else s
  }

  /** One key taken makes room for one key. */
  lemma DrainOne(s: Ingest, c: nat)
    requires Suspended(s, c)
    ensures var t := Step(Step(s, Take), Resume(c));
            var rest := s.calls[c].rest;
            && |t.queue| == s.queueCap && t.submitted == s.submitted
            && t.consumed + t.queue == s.consumed + s.queue + [rest[0]]
            && (if |rest| == 1 then t.calls == s.calls - {c} && t.buffer == []
                else t.calls == s.calls[c := Publishing(rest[1..])] && t.buffer == s.buffer)
  {
  }

  lemma {:induction false} DrainClears(s: Ingest, c: nat)
    requires Suspended(s, c)
    ensures var v := Drain(s, c);
            && |v.queue| == s.queueCap && v.queueCap == s.queueCap && v.submitted == s.submitted
            && v.buffer == [] && v.calls == s.calls - {c}
            && v.consumed + v.queue == s.consumed + s.queue + s.calls[c].rest
    decreases |s.calls[c].rest|
  {
    var t := Step(Step(s, Take), Resume(c));
    var rest := s.calls[c].rest;
    DrainOne(s, c);
    if |rest| > 1 {
      DrainClears(t, c);
      assert t.calls - {c} == s.calls - {c};
      assert rest == [rest[0]] + rest[1..];
      Regrouped(s.consumed + s.queue, [rest[0]], rest[1..]);
    } else {
      assert rest == [rest[0]];
    }
  }

  /** A flush that does not fit fills the queue and suspends with the keys left over. */
  lemma FlushSuspends(s: Ingest, c: nat)
    requires 0 < s.queueCap && |s.queue| <= s.queueCap < |s.queue| + |s.buffer|
    requires c in s.calls && s.calls[c] == Gathering([])
    ensures var t := Step(s, Resume(c));
            && Suspended(t, c) && t.buffer == s.buffer && t.submitted == s.submitted && t.consumed == s.consumed
            && t.queue + t.calls[c].rest == s.queue + Keys(s.buffer)
            && t.calls.Keys == s.calls.Keys
  {
  }

  /** One call's flush, overlapped by a submission d before the flush is over. */
  function AfterOverlap(s: Ingest, c: nat, d: nat, entry: Entry): Ingest
    requires c in s.calls && s.calls[c] == Gathering([]) && d !in s.calls
  {
    Drain(Step(Step(s, Resume(c)), Submit(d, entry)), c)
  }

  lemma OverlapFits(s: Ingest, c: nat, d: nat, entry: Entry)
    requires 0 < s.queueCap && |s.queue| + |s.buffer| <= s.queueCap && |s.buffer| < s.bufferCap
    requires Books(s) && c in s.calls && s.calls[c] == Gathering([]) && d !in s.calls
    ensures Books(AfterOverlap(s, c, d, entry))
  {
  }

  /** A submission leaves a suspended flush as it is. */
  lemma SubmitBehindFlush(t: Ingest, c: nat, d: nat, entry: Entry)
    requires Suspended(t, c) && d !in t.calls
    ensures var u := Step(t, Submit(d, entry));
            && Suspended(u, c) && u.calls[c] == t.calls[c] && u.submitted == t.submitted + [entry]
            && u.consumed == t.consumed && u.queue == t.queue
  {
  }

  lemma OverlapLoses(s: Ingest, c: nat, d: nat, entry: Entry)
    requires 0 < s.queueCap && |s.queue| <= s.queueCap < |s.queue| + |s.buffer|
    requires Books(s) && c in s.calls && s.calls[c] == Gathering([]) && d !in s.calls
    ensures var v := AfterOverlap(s, c, d, entry);
            && v.submitted == s.submitted + [entry]
            && v.consumed + v.queue == Keys(s.submitted)
            && v.buffer == []
  {
    var t := Step(s, Resume(c));
    FlushSuspends(s, c);
    SubmitBehindFlush(t, c, d, entry);
    var u := Step(t, Submit(d, entry));
    DrainClears(u, c);
    Regrouped(s.consumed, u.queue, u.calls[c].rest);
    Regrouped(s.consumed, s.queue, Keys(s.buffer));
  }

  /** While no other flush waits in the middle: a submission that arrives during a flush survives it
      exactly when the queue can take the whole buffer at once; otherwise the suspended flush goes on to
      clear the deque, new record included.  `KeyFate` says what holds whatever else is going on. */
  lemma OverlapKeepsBooks(s: Ingest, c: nat, d: nat, entry: Entry)
    requires 0 < s.queueCap && |s.queue| <= s.queueCap && |s.buffer| < s.bufferCap
    requires Books(s) && NonePublishing(s)
    requires c in s.calls && s.calls[c] == Gathering([]) && d !in s.calls
    ensures Books(AfterOverlap(s, c, d, entry)) <==> |s.queue| + |s.buffer| <= s.queueCap
  {
    if |s.queue| + |s.buffer| <= s.queueCap {
      OverlapFits(s, c, d, entry);
    } else {
      OverlapLoses(s, c, d, entry);
      var v := AfterOverlap(s, c, d, entry);
      assert |v.submitted| == |v.consumed + v.queue + Keys(v.buffer)| + 1;
    }
  }

  /** Two calls c and d whose writes are done flush one after the other, and consumers take what keeps
      a suspended flush from going on. */
  function AfterTwoFlushes(s: Ingest, c: nat, d: nat): Ingest
    requires c != d && c in s.calls && s.calls[c] == Gathering([]) && d in s.calls && s.calls[d] == Gathering([])
  {
    Drain(Drain(Step(Step(s, Resume(c)), Resume(d)), c), d)
  }

  lemma FlushesFit(s: Ingest, c: nat, d: nat)
    requires 0 < s.queueCap && |s.queue| + |s.buffer| <= s.queueCap
    requires c != d && c in s.calls && s.calls[c] == Gathering([]) && d in s.calls && s.calls[d] == Gathering([])
    ensures var v := AfterTwoFlushes(s, c, d);
            v.consumed + v.queue == s.consumed + s.queue + Keys(s.buffer) && v.buffer == []
  {
    var t := Step(s, Resume(c));
    assert Keys(t.buffer) == [] && t.calls[d] == Gathering([]);
    var u := Step(t, Resume(d));
    assert u.queue == s.queue + Keys(s.buffer) && c !in u.calls && d !in u.calls;
  }

  /** The second flush finds the queue full and the deque as it was: it suspends with every key. */
  lemma SecondFlushSuspends(s: Ingest, c: nat, d: nat)
    requires 0 < s.queueCap && |s.queue| <= s.queueCap < |s.queue| + |s.buffer|
    requires c != d && c in s.calls && s.calls[c] == Gathering([]) && d in s.calls && s.calls[d] == Gathering([])
    ensures var t := Step(s, Resume(c));
            var u := Step(t, Resume(d));
            && Suspended(u, c) && Suspended(u, d)
            && u.consumed == s.consumed && u.queue + u.calls[c].rest == s.queue + Keys(s.buffer)
            && u.calls[d].rest == Keys(s.buffer)
  {
    FlushSuspends(s, c);
    var t := Step(s, Resume(c));
    assert t.calls[d] == Gathering([]);
    var keys := Keys(s.buffer);
    assert keys[..0] == [] && keys[0..] == keys && t.queue + [] == t.queue;
    assert Step(t, Resume(d)) == t.(calls := t.calls[d := Publishing(keys)]);
  }

  lemma DrainBoth(u: Ingest, c: nat, d: nat)
    requires c != d && Suspended(u, c) && Suspended(u, d)
    ensures var v := Drain(Drain(u, c), d);
            v.consumed + v.queue == u.consumed + u.queue + u.calls[c].rest + u.calls[d].rest && v.buffer == []
  {
    DrainClears(u, c);
    var w := Drain(u, c);
    assert d in w.calls && w.calls[d] == u.calls[d];
    DrainClears(w, d);
  }

  lemma FlushesRepeat(s: Ingest, c: nat, d: nat)
    requires 0 < s.queueCap && |s.queue| <= s.queueCap < |s.queue| + |s.buffer|
    requires c != d && c in s.calls && s.calls[c] == Gathering([]) && d in s.calls && s.calls[d] == Gathering([])
    ensures var v := AfterTwoFlushes(s, c, d);
            v.consumed + v.queue == s.consumed + s.queue + Keys(s.buffer) + Keys(s.buffer) && v.buffer == []
  {
    SecondFlushSuspends(s, c, d);
    var u := Step(Step(s, Resume(c)), Resume(d));
    DrainBoth(u, c, d);
    Regrouped(s.consumed, u.queue, u.calls[c].rest);
    Regrouped(s.consumed, s.queue, Keys(s.buffer));
  }

  /** While no other flush waits in the middle, of two flushes that both begin before consumers let the
      first one end: they publish every buffered key once exactly when the queue can take the whole buffer
      at once; otherwise both of them publish all of it, every key twice.  `KeyRepeats` covers every
      schedule. */
  lemma FlushesPublishOnce(s: Ingest, c: nat, d: nat)
    requires 0 < s.queueCap && |s.queue| <= s.queueCap && s.buffer != [] && NonePublishing(s)
    requires c != d && c in s.calls && s.calls[c] == Gathering([]) && d in s.calls && s.calls[d] == Gathering([])
    ensures var v := AfterTwoFlushes(s, c, d);
            && (v.consumed + v.queue == s.consumed + s.queue + Keys(s.buffer) <==> |s.queue| + |s.buffer| <= s.queueCap)
            && (|s.queue| + |s.buffer| > s.queueCap ==>
                  v.consumed + v.queue == s.consumed + s.queue + Keys(s.buffer) + Keys(s.buffer))
            && v.buffer == []
  {
    if |s.queue| + |s.buffer| <= s.queueCap {
      FlushesFit(s, c, d);
    } else {
      FlushesRepeat(s, c, d);
      assert |s.consumed + s.queue + Keys(s.buffer) + Keys(s.buffer)| > |s.consumed + s.queue + Keys(s.buffer)|;
    }
  }

  // ---------------------------------------------------------------------------------------------
  // Cache readiness
  // ---------------------------------------------------------------------------------------------

  /** The key is cached, or a write of it is under way, or a write of it failed. */
  predicate Covered(s: Ingest, k: string) {
    || k in s.cache
    || (exists c :: c in s.calls && s.calls[c].Gathering? && k in Keys(s.calls[c].pending))
    || k in Keys(s.orphans)
    || k in s.failed
  }

  ghost predicate AllCovered(s: Ingest) {
    && (forall k :: k in s.consumed + s.queue + Keys(s.buffer) ==> Covered(s, k))
    && (forall c, k :: c in s.calls && s.calls[c].Publishing? && k in s.calls[c].rest ==> Covered(s, k))
  }

  lemma WithoutKeeps(s: seq<Entry>, i: nat, k: string)
    requires i < |s| && k in Keys(s) && k != s[i].key
    ensures k in Keys(Without(s, i))
  {
    var j :| 0 <= j < |s| && Keys(s)[j] == k;
    var at := if j < i then j else j - 1;
    assert Without(s, i)[at] == s[j];
    assert Keys(Without(s, i))[at] == k;
  }

  /** A key that is taken care of stays taken care of. */
  lemma CoveredStep(s: Ingest, e: Event, k: string)
    requires Enabled(s, e) && Covered(s, k)
    ensures Covered(Step(s, e), k)
  {
    var t := Step(s, e);
    if k in s.cache {
    } else if k in s.failed {
    } else if k in Keys(s.orphans) {
      match e
      case Fail(c, i) =>
        var j :| 0 <= j < |s.orphans| && Keys(s.orphans)[j] == k;
        assert Keys(t.orphans)[j] == k;
      case OrphanLands(i) => if k != s.orphans[i].key { WithoutKeeps(s.orphans, i, k); }
      case OrphanFails(i) => if k != s.orphans[i].key { WithoutKeeps(s.orphans, i, k); }
      case _ =>
    } else {
      var c :| c in s.calls && s.calls[c].Gathering? && k in Keys(s.calls[c].pending);
      var writes := s.calls[c].pending;
      if e.Land? && e.call == c && k != writes[e.index].key {
        WithoutKeeps(writes, e.index, k);
        assert c in t.calls && k in Keys(t.calls[c].pending);
      } else if e.Fail? && e.call == c && k != writes[e.index].key {
        WithoutKeeps(writes, e.index, k);
        var j :| 0 <= j < |Without(writes, e.index)| && Keys(Without(writes, e.index))[j] == k;
        assert Keys(t.orphans)[|s.orphans| + j] == k;
      } else if !((e.Land? || e.Fail?) && e.call == c) {
        assert c in t.calls && t.calls[c] == s.calls[c];
      }
    }
  }

  lemma AllCoveredStep(s: Ingest, e: Event)
    requires Enabled(s, e) && AllCovered(s)
    ensures AllCovered(Step(s, e))
  {
    var t := Step(s, e);
    forall k | k in t.consumed + t.queue + Keys(t.buffer) ensures Covered(t, k) {
      if e.Submit? && k in Keys(t.buffer) {
        assert t.calls[e.call] == Gathering(t.buffer);
      } else {
        assert k in s.consumed + s.queue + Keys(s.buffer) || (e.Resume? && s.calls[e.call].Publishing? && k in s.calls[e.call].rest);
        CoveredStep(s, e, k);
      }
    }
    forall c, k | c in t.calls && t.calls[c].Publishing? && k in t.calls[c].rest ensures Covered(t, k) {
      assert (c in s.calls && s.calls[c].Publishing? && k in s.calls[c].rest) || k in Keys(s.buffer);
      CoveredStep(s, e, k);
    }
  }

  lemma {:induction false} AlwaysCovered(bufferCap: nat, queueCap: nat, events: seq<Event>)
    requires Run(Fresh(bufferCap, queueCap), events).Some?
    ensures AllCovered(Run(Fresh(bufferCap, queueCap), events).value)
  {
    if events != [] {
      AlwaysCovered(bufferCap, queueCap, Front(events));
      AllCoveredStep(Run(Fresh(bufferCap, queueCap), Front(events)).value, Last(events));
    }
  }

  /** Cache readiness.  A key may be published before its own write is finished, but whenever no
      call is in flight and no write is under way, every published key has a cache record, except
      keys one of whose writes failed.  This needs no room in the buffers. */
  lemma ReadyWhenQuiet(bufferCap: nat, queueCap: nat, events: seq<Event>, k: string)
    requires Run(Fresh(bufferCap, queueCap), events).Some?
    requires var s := Run(Fresh(bufferCap, queueCap), events).value;
             s.calls == map[] && s.orphans == [] && k in s.consumed + s.queue
    ensures var s := Run(Fresh(bufferCap, queueCap), events).value; k in s.cache || k in s.failed
  {
    AlwaysCovered(bufferCap, queueCap, events);
    var s := Run(Fresh(bufferCap, queueCap), events).value;
    assert k in s.consumed + s.queue + Keys(s.buffer);
    assert Keys(s.orphans) == [];
  }

  // ---------------------------------------------------------------------------------------------
  // What the cache holds
  // ---------------------------------------------------------------------------------------------

  /** Everything buffered or being written was submitted, and so was every cached record, under the
      key it is cached at. */
  ghost predicate OnlySubmitted(s: Ingest) {
    && (forall e :: e in s.buffer || e in s.orphans ==> e in s.submitted)
    && (forall c, e :: c in s.calls && s.calls[c].Gathering? && e in s.calls[c].pending ==> e in s.submitted)
    && (forall k :: k in s.cache ==> Entry(k, s.cache[k]) in s.submitted)
  }

  lemma OnlySubmittedStep(s: Ingest, e: Event)
    requires Enabled(s, e) && OnlySubmitted(s)
    ensures OnlySubmitted(Step(s, e))
  {
  }

  lemma {:induction false} AlwaysOnlySubmitted(bufferCap: nat, queueCap: nat, events: seq<Event>)
    requires Run(Fresh(bufferCap, queueCap), events).Some?
    ensures OnlySubmitted(Run(Fresh(bufferCap, queueCap), events).value)
  {
    if events != [] {
      AlwaysOnlySubmitted(bufferCap, queueCap, Front(events));
      OnlySubmittedStep(Run(Fresh(bufferCap, queueCap), Front(events)).value, Last(events));
    }
  }

  /** In every interleaving a cached record is the one submitted under its key: writes of different
      calls, of failed calls included, never mix records up. */
  lemma CacheHoldsSubmitted(bufferCap: nat, queueCap: nat, events: seq<Event>, entry: Entry)
    requires Run(Fresh(bufferCap, queueCap), events).Some?
    requires Distinct(Keys(Run(Fresh(bufferCap, queueCap), events).value.submitted))
    requires entry in Run(Fresh(bufferCap, queueCap), events).value.submitted
    ensures var s := Run(Fresh(bufferCap, queueCap), events).value;
            entry.key in s.cache ==> s.cache[entry.key] == entry.payload
  {
    AlwaysOnlySubmitted(bufferCap, queueCap, events);
    var s := Run(Fresh(bufferCap, queueCap), events).value;
    if entry.key in s.cache {
      var i :| 0 <= i < |s.submitted| && s.submitted[i] == entry;
      var j :| 0 <= j < |s.submitted| && s.submitted[j] == Entry(entry.key, s.cache[entry.key]);
      assert Keys(s.submitted)[i] == Keys(s.submitted)[j];
    }
  }
}
