/**
  Runs of enqueue (cryptomarket/deribit_client/deribit_clients.py) from the start, for every size of deque
  and queue above one, that lose a record and that publish a key twice.  All submitted keys differ.
*/
module KeyRuns {
  import opened Prelude
  import opened IngestBuffer
  import opened KeyFate
  import opened KeyRepeats

  /** The n-th record of a run: the keys are told apart by their lengths. */
  function Filler(n: nat): Entry {
    Entry(seq(n + 1, _ => 'f'), "")
  }

  /** One call on its own: submit, write, flush. */
  function OneCall(e: Entry): seq<Event> {
    [Submit(0, e), Land(0, 0), Resume(0)]
  }

  function Calls(n: nat): seq<Event> {
    if n == 0 then [] else Calls(n - 1) + OneCall(Filler(n - 1))
  }

  /** Nothing buffered and no call under way. */
  predicate Resting(s: Ingest) {
    s.buffer == [] && s.calls == map[] && 0 < s.bufferCap && |s.queue| <= s.queueCap
  }

  function Written(s: Ingest, e: Entry): Ingest
    requires Resting(s)
  {
    Step(Step(s, Submit(0, e)), Land(0, 0))
  }

  lemma CallWrites(s: Ingest, e: Entry)
    requires Resting(s)
    ensures var t := Written(s, e);
            && t.buffer == [e] && t.calls == map[0 := Gathering([])] && t.queue == s.queue && t.consumed == s.consumed
            && t.queueCap == s.queueCap && t.bufferCap == s.bufferCap && t.submitted == s.submitted + [e]
  {
    assert Without([e], 0) == [];
  }

  /** The call publishes its key when there is room, and suspends with it when there is none. */
  predicate AfterCall(s: Ingest, v: Ingest, e: Entry) {
    && v.consumed == s.consumed && v.queueCap == s.queueCap && v.bufferCap == s.bufferCap
    && v.submitted == s.submitted + [e]
    && (if |s.queue| < s.queueCap then Resting(v) && v.queue == s.queue + [e.key]
        else v.queue == s.queue && v.buffer == [e] && v.calls == map[0 := Publishing([e.key])])
  }

  lemma CallFlushes(t: Ingest, e: Entry)
    requires t.buffer == [e] && t.calls == map[0 := Gathering([])] && |t.queue| <= t.queueCap && 0 < t.bufferCap
    ensures var v := Step(t, Resume(0));
            && v.consumed == t.consumed && v.queueCap == t.queueCap && v.bufferCap == t.bufferCap && v.submitted == t.submitted
            && (if |t.queue| < t.queueCap then Resting(v) && v.queue == t.queue + [e.key]
                else v.queue == t.queue && v.buffer == [e] && v.calls == map[0 := Publishing([e.key])])
  {
    var keys := Keys([e]);
    assert keys == [e.key] && keys[..0] == [] && keys[0..] == keys && t.queue + [] == t.queue;
  }

  lemma OneCallMore(s: Ingest, events: seq<Event>, e: Entry)
    requires Continues(s, events) && Run(s, events).Some? && Resting(Run(s, events).value)
    ensures Continues(s, events + OneCall(e)) && Run(s, events + OneCall(e)).Some?
    ensures AfterCall(Run(s, events).value, Run(s, events + OneCall(e)).value, e)
  {
    var t := Run(s, events).value;
    ContinuesRuns(s, events);
    CallWrites(t, e);
    CallFlushes(Written(t, e), e);
    ContinuesOneMore(s, events, Submit(0, e));
    ContinuesOneMore(s, events + [Submit(0, e)], Land(0, 0));
    ContinuesOneMore(s, events + [Submit(0, e)] + [Land(0, 0)], Resume(0));
    assert events + OneCall(e) == events + [Submit(0, e)] + [Land(0, 0)] + [Resume(0)];
  }

  function Fillers(n: nat): seq<Entry> {
    seq(n, i requires 0 <= i < n => Filler(i))
  }

  lemma FillersDiffer(n: nat)
    ensures Distinct(Keys(Fillers(n)))
  {
    forall i, j | 0 <= i < j < n ensures Keys(Fillers(n))[i] != Keys(Fillers(n))[j] {
      assert |Filler(i).key| != |Filler(j).key|;
    }
  }

  /** n calls have filled n places. */
  predicate Filled(s: Ingest, size: nat, n: nat) {
    && Resting(s) && s.consumed == [] && s.queueCap == s.bufferCap == size
    && s.submitted == Fillers(n) && s.queue == Keys(Fillers(n))
  }

  lemma FilledMore(s: Ingest, v: Ingest, size: nat, n: nat)
    requires Filled(s, size, n) && AfterCall(s, v, Filler(n)) && n < size
    ensures Filled(v, size, n + 1)
  {
    assert Fillers(n + 1) == Fillers(n) + [Filler(n)];
  }

  lemma {:induction false} CallsFillTheQueue(size: nat, n: nat)
    requires 0 < size && n <= size
    ensures Continues(Fresh(size, size), Calls(n)) && Run(Fresh(size, size), Calls(n)).Some?
    ensures Filled(Run(Fresh(size, size), Calls(n)).value, size, n)
  {
    if n > 0 {
      var s := Fresh(size, size);
      CallsFillTheQueue(size, n - 1);
      OneCallMore(s, Calls(n - 1), Filler(n - 1));
      FilledMore(Run(s, Calls(n - 1)).value, Run(s, Calls(n - 1) + OneCall(Filler(n - 1))).value, size, n - 1);
    }
  }

  /** A record that is none of the numbered ones. */
  ghost predicate Other(e: Entry) {
    forall n: nat :: e.key != Filler(n).key
  }

  lemma OtherDiffers(e: Entry, n: nat)
    requires Other(e)
    ensures e.key !in Keys(Fillers(n)) && Distinct(Keys(Fillers(n) + [e]))
  {
    FillersDiffer(n);
    var keys := Keys(Fillers(n));
    forall i | 0 <= i < n ensures keys[i] != e.key {
      assert keys[i] == Filler(i).key;
    }
    assert Keys(Fillers(n) + [e]) == keys + [e.key];
  }

  lemma LateRecordIsUnsafe(s: Ingest, held: string, entry: Entry)
    requires s.calls == map[0 := Publishing([held])] && entry.key != held && entry.key !in s.consumed + s.queue
    ensures !Safe(Step(s, Submit(1, entry)), entry.key)
  {
    var t := Step(s, Submit(1, entry));
    assert t.calls[0] == Publishing([held]) && t.calls[1].Gathering?;
  }

  /** The queue is full and one flush waits. */
  lemma OneFlushWaits(size: nat) returns (events: seq<Event>)
    requires 0 < size
    ensures Continues(Fresh(size, size), events) && Run(Fresh(size, size), events).Some?
    ensures var s := Run(Fresh(size, size), events).value;
            && s.calls == map[0 := Publishing([Filler(size).key])] && s.buffer == [Filler(size)]
            && s.queueCap == s.bufferCap == size
            && s.submitted == Fillers(size + 1) && s.consumed + s.queue == Keys(Fillers(size))
  {
    CallsFillTheQueue(size, size);
    OneCallMore(Fresh(size, size), Calls(size), Filler(size));
    events := Calls(size) + OneCall(Filler(size));
    assert Fillers(size + 1) == Fillers(size) + [Filler(size)];
  }

  /** For every size of deque and queue above one (with one place the deque itself is full): a run from the
      start after which a record is submitted, into a deque with room, and lost. */
  lemma LosingStateReached(size: nat, entry: Entry) returns (before: seq<Event>, after: seq<Event>)
    requires 1 < size && Other(entry)
    ensures Continues(Fresh(size, size), before) && Run(Fresh(size, size), before).Some?
    ensures var s := Run(Fresh(size, size), before).value;
            && 1 !in s.calls && |s.buffer| < s.bufferCap && !NonePublishing(s)
            && Distinct(Keys(s.submitted + [entry]))
            && Loses(Step(s, Submit(1, entry)), after, entry.key)
  {
    before := OneFlushWaits(size);
    var s := Run(Fresh(size, size), before).value;
    OtherDiffers(entry, size);
    OtherDiffers(entry, size + 1);
    assert entry.key != Filler(size).key;
    assert s.calls[0].Publishing?;
    LateRecordIsUnsafe(s, Filler(size).key, entry);
    after := WayToLose(Step(s, Submit(1, entry)), entry.key);
  }

  /** For every such size: a run from the start, of differing submissions into a deque with room, after which
      everything fits into the queue and one call is in flight, and still a key may be published twice. */
  lemma RepeatReached(size: nat, entry: Entry) returns (before: seq<Event>, after: seq<Event>)
    requires 1 < size && Other(entry)
    ensures Continues(Fresh(size, size), before) && Run(Fresh(size, size), before).Some?
    ensures var s := Run(Fresh(size, size), before).value;
            && NonePublishing(s) && |s.queue| + |s.buffer| <= s.queueCap && AtMostOneCall(s)
            && Doubles(s, after, entry.key)
            && Distinct(Keys(Run(s, after).value.submitted))
  {
    CallsFillTheQueue(size, 1);
    var start := Fresh(size, size);
    var filled := Run(start, Calls(1)).value;
    before := Calls(1) + [Submit(1, entry)];
    ContinuesOneMore(start, Calls(1), Submit(1, entry));
    var s := Step(filled, Submit(1, entry));
    OtherDiffers(entry, 1);
    assert Keys(s.buffer) == [entry.key];
    assert filled.calls == map[] && s.buffer == [entry];
    assert s.calls == map[][1 := Gathering([entry])];
    assert s.consumed + s.queue == Keys(Fillers(1));
    assert Times(Keys(s.buffer), entry.key) == 1;
    assert |s.calls| == 1;
    WayWhenBufferedOnce(s, entry.key);
    after := WayToDouble(s, entry.key);
  }

  lemma WayWhenBufferedOnce(s: Ingest, k: string)
    requires Sized(s) && NonePublishing(s) && Times(Keys(s.buffer), k) == 1 && k !in Published(s)
    requires |s.queue| + s.bufferCap > s.queueCap && |s.calls| + (s.bufferCap - |s.buffer|) > 1
    ensures !Steady(s, k)
  {
    NeverTwice(s, k);
    BufferedKeyNeverTwice(s, k);
  }
}
