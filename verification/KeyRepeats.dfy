/**
  When a key given to enqueue (cryptomarket/deribit_client/deribit_clients.py) is published twice: two
  flushes publish it when the first of them is suspended on a full queue, because the deque is cleared
  only at a flush's end.
*/
module KeyRepeats {
  import opened Prelude
  import opened IngestBuffer
  import opened KeyFate

  // ---------------------------------------------------------------------------------------------
  // With nothing further submitted
  // ---------------------------------------------------------------------------------------------

  function Published(s: Ingest): seq<string> {
    s.consumed + s.queue
  }

  /** A way to go on, without further submissions, that publishes more than each buffered key once. */
  predicate Repeats(s: Ingest, events: seq<Event>) {
    Quiet(s, events) && !(Published(Run(s, events).value) <= Published(s) + Keys(s.buffer))
  }

  predicate AtMostOneCall(s: Ingest) {
    forall c, d :: c in s.calls && d in s.calls ==> c == d
  }

  /** Everything fits: a flush never has to wait. */
  predicate Fitting(s: Ingest, total: seq<string>) {
    NonePublishing(s) && Published(s) + Keys(s.buffer) == total && |s.queue| + |s.buffer| <= s.queueCap
  }

  /** There is one call at most, and what it has still to publish completes the total. */
  predicate LastFlush(s: Ingest, total: seq<string>) {
    && AtMostOneCall(s) && Published(s) <= total
    && forall c :: c in s.calls ==>
         Published(s) + (if s.calls[c].Gathering? then Keys(s.buffer) else s.calls[c].rest) == total
  }

  lemma TakePublishes(s: Ingest)
    requires s.queue != []
    ensures Published(Step(s, Take)) == Published(s)
  {
    assert s.queue == [s.queue[0]] + s.queue[1..];
  }

  lemma FittingStep(s: Ingest, e: Event, total: seq<string>)
    requires Fitting(s, total) && Enabled(s, e) && !e.Submit?
    ensures Fitting(Step(s, e), total)
  {
    if e.Take? {
      TakePublishes(s);
    } else if e.Resume? {
      Regrouped(s.consumed, s.queue, Keys(s.buffer));
    }
  }

  /** What a flush puts and what it keeps for later. */
  lemma FlushSplits(s: Ingest, c: nat, keys: seq<string>)
    requires c in s.calls
    ensures var t := Publish(s, c, keys);
            && t.consumed == s.consumed && t.calls - {c} == s.calls - {c}
            && (if c in t.calls then t.calls[c].Publishing? && Published(t) + t.calls[c].rest == Published(s) + keys
                else Published(t) == Published(s) + keys)
  {
    var room := if |s.queue| < s.queueCap then s.queueCap - |s.queue| else 0;
    Regrouped(s.consumed, s.queue, keys);
    if |keys| > room {
      assert keys == keys[..room] + keys[room..];
      Regrouped(s.consumed, s.queue, keys[..room]);
      Regrouped(Published(s), keys[..room], keys[room..]);
    }
  }

  lemma LastFlushStep(s: Ingest, e: Event, total: seq<string>)
    requires LastFlush(s, total) && Enabled(s, e) && !e.Submit?
    ensures LastFlush(Step(s, e), total)
  {
    if e.Take? {
      TakePublishes(s);
    } else if e.Resume? {
      FlushSplits(s, e.call, if s.calls[e.call].Gathering? then Keys(s.buffer) else s.calls[e.call].rest);
    }
  }

  lemma {:induction false} NeverMoreThanTotal(s: Ingest, events: seq<Event>, total: seq<string>)
    requires Quiet(s, events) && (Fitting(s, total) || LastFlush(s, total))
    ensures Fitting(Run(s, events).value, total) || LastFlush(Run(s, events).value, total)
    ensures Published(Run(s, events).value) <= total
  {
    if events != [] {
      forall e | e in Front(events) ensures e in events {}
      assert Last(events) in events;
      NeverMoreThanTotal(s, Front(events), total);
      var t := Run(s, Front(events)).value;
      if Fitting(t, total) {
        FittingStep(t, Last(events), total);
      } else {
        LastFlushStep(t, Last(events), total);
      }
    }
  }

  /** The writes of a call are finished. */
  lemma WritesEnd(s: Ingest, c: nat) returns (events: seq<Event>)
    requires c in s.calls && s.calls[c].Gathering?
    ensures Quiet(s, events)
    ensures var t := Run(s, events).value;
            t.calls == s.calls[c := Gathering([])] && Published(t) == Published(s) && t.queue == s.queue
            && t.buffer == s.buffer && t.queueCap == s.queueCap
    decreases |s.calls[c].pending|
  {
    if s.calls[c].pending == [] {
      events := [];
      assert s.calls[c := Gathering([])] == s.calls;
    } else {
      var t := Step(s, Land(c, 0));
      events := [Land(c, 0)];
      assert Front(events) == [];
      var more := WritesEnd(t, c);
      RunTwice(s, events, more);
      events := events + more;
    }
  }

  lemma QuietTwice(s: Ingest, first: seq<Event>, more: seq<Event>)
    requires Quiet(s, first) && Quiet(Run(s, first).value, more)
    ensures Quiet(s, first + more) && Run(s, first + more) == Run(Run(s, first).value, more)
  {
    RunTwice(s, first, more);
  }

  lemma BothSuspend(s: Ingest, c: nat, d: nat)
    requires 0 < s.queueCap && |s.queue| <= s.queueCap < |s.queue| + |s.buffer|
    requires c != d && c in s.calls && s.calls[c] == Gathering([]) && d in s.calls && s.calls[d] == Gathering([])
    ensures Quiet(s, [Resume(c), Resume(d)])
    ensures var u := Run(s, [Resume(c), Resume(d)]).value;
            && u.queueCap == s.queueCap
            && c in u.calls && u.calls[c].Publishing? && d in u.calls && u.calls[d].Publishing?
            && Published(u) + u.calls[c].rest == Published(s) + Keys(s.buffer) && u.calls[d].rest == Keys(s.buffer)
  {
    SecondFlushSuspends(s, c, d);
    FlushSuspends(s, c);
    var t := Step(s, Resume(c));
    assert [Resume(c), Resume(d)] == [Resume(c)] + [Resume(d)];
    assert Front([Resume(c)]) == [] && Front([Resume(d)]) == [];
    RunTwice(s, [Resume(c)], [Resume(d)]);
    var u := Step(t, Resume(d));
    Regrouped(u.consumed, u.queue, u.calls[c].rest);
    Regrouped(s.consumed, s.queue, Keys(s.buffer));
  }

  /** Two calls in flight and a buffer that does not fit: both publish all of it. */
  lemma WayToRepeat(s: Ingest, c: nat, d: nat) returns (events: seq<Event>)
    requires 0 < s.queueCap && |s.queue| <= s.queueCap < |s.queue| + |s.buffer|
    requires c != d && c in s.calls && s.calls[c].Gathering? && d in s.calls && s.calls[d].Gathering?
    ensures Quiet(s, events)
    ensures Published(Run(s, events).value) == Published(s) + Keys(s.buffer) + Keys(s.buffer)
  {
    events := WritesEnd(s, c);
    var s1 := Run(s, events).value;
    var more := WritesEnd(s1, d);
    QuietTwice(s, events, more);
    events := events + more;
    var s2 := Run(s, events).value;
    BothSuspend(s2, c, d);
    QuietTwice(s, events, [Resume(c), Resume(d)]);
    events := events + [Resume(c), Resume(d)];
    var u := Run(s, events).value;
    more := FlushEnds(u, c);
    QuietTwice(s, events, more);
    events := events + more;
    var w := Run(s, events).value;
    assert w.calls[d] == u.calls[d];
    more := FlushEnds(w, d);
    QuietTwice(s, events, more);
    events := events + more;
  }

  /** Publishing twice.  From a state in which no flush waits in the middle, with nothing further submitted:
      every way the writes, flushes and consumers may go on publishes each buffered key at most once and in
      order, exactly when the queue can take the whole buffer at once or at most one call is in flight. */
  lemma PublishedOnce(s: Ingest)
    requires 0 < s.queueCap && |s.queue| <= s.queueCap && NonePublishing(s)
    ensures (forall events :: !Repeats(s, events)) <==> |s.queue| + |s.buffer| <= s.queueCap || AtMostOneCall(s)
  {
    var total := Published(s) + Keys(s.buffer);
    if |s.queue| + |s.buffer| <= s.queueCap || AtMostOneCall(s) {
      forall events ensures !Repeats(s, events) {
        if Quiet(s, events) {
          NeverMoreThanTotal(s, events, total);
        }
      }
    } else {
      var c, d :| c in s.calls && d in s.calls && c != d;
      var events := WayToRepeat(s, c, d);
      assert Keys(s.buffer) != [] && |total + Keys(s.buffer)| > |total|;
      assert Repeats(s, events);
    }
  }

  // ---------------------------------------------------------------------------------------------
  // Whatever is submitted further
  // ---------------------------------------------------------------------------------------------

  function Times(keys: seq<string>, k: string): nat {
    multiset(keys)[k]
  }

  lemma TimesOfBoth(a: seq<string>, b: seq<string>, k: string)
    ensures Times(a + b, k) == Times(a, k) + Times(b, k)
    ensures Times(a, k) > 0 <==> k in a
  {
    assert multiset(a + b) == multiset(a) + multiset(b);
  }

  /** The bounded buffers keep their sizes. */
  predicate Sized(s: Ingest) {
    0 < s.queueCap && |s.queue| <= s.queueCap && |s.buffer| <= s.bufferCap
  }

  /** A way to go on, with room for every further record, none of them under this key. */
  predicate GoesOn(s: Ingest, events: seq<Event>, k: string) {
    Continues(s, events) && Run(s, events).Some? && forall e :: e in events && e.Submit? ==> e.entry.key != k
  }

  /** Such a way that publishes the key twice. */
  predicate Doubles(s: Ingest, events: seq<Event>, k: string) {
    GoesOn(s, events, k) && Times(Published(Run(s, events).value), k) >= 2
  }

  function GatheringCalls(s: Ingest): set<nat> {
    set c | c in s.calls && s.calls[c].Gathering?
  }

  /** How many flushes may begin before the deque is cleared: by the calls in flight, and by those whose
      records still find room. */
  function Flushes(s: Ingest): int {
    |GatheringCalls(s)| + (s.bufferCap - |s.buffer|)
  }

  /** No flush has to wait, whatever is submitted: not one of the whole deque, nor one that waits now. */
  predicate AllFit(s: Ingest) {
    && |s.queue| + s.bufferCap <= s.queueCap
    && forall c :: c in s.calls && s.calls[c].Publishing? ==> |s.queue| + |s.calls[c].rest| <= s.queueCap
  }

  predicate Holds(s: Ingest, c: nat, k: string) {
    c in s.calls && s.calls[c].Publishing? && k in s.calls[c].rest
  }

  /** The key is out once at most: published, or held by one suspended flush. */
  predicate OutOnce(s: Ingest, k: string) {
    && Times(Published(s), k) <= 1
    && forall c :: c in s.calls && s.calls[c].Publishing? && k in s.calls[c].rest ==>
         && Times(s.calls[c].rest, k) == 1 && k !in Published(s)
         && forall d :: d in s.calls && s.calls[d].Publishing? && k in s.calls[d].rest ==> d == c
  }

  /** The deque cannot add another publication. */
  predicate BufferSpent(s: Ingest, k: string) {
    || k !in Keys(s.buffer)
    || Flushes(s) <= 0
    || (Times(Keys(s.buffer), k) == 1 && !Out(s, k) && (Flushes(s) <= 1 || AllFit(s)))
  }

  predicate Steady(s: Ingest, k: string) {
    OutOnce(s, k) && BufferSpent(s, k)
  }

  lemma SizedStep(s: Ingest, e: Event)
    requires Sized(s) && Enabled(s, e)
    ensures Sized(Step(s, e))
  {
  }

  lemma SubmitPrepares(s: Ingest, c: nat, entry: Entry, k: string)
    requires Sized(s) && |s.buffer| < s.bufferCap && c !in s.calls && entry.key != k
    ensures var t := Step(s, Submit(c, entry));
            && |t.buffer| == |s.buffer| + 1 && Times(Keys(t.buffer), k) == Times(Keys(s.buffer), k)
            && GatheringCalls(t) == GatheringCalls(s) + {c}
  {
    var t := Step(s, Submit(c, entry));
    assert Keys(t.buffer) == Keys(s.buffer) + [entry.key];
    TimesOfBoth(Keys(s.buffer), [entry.key], k);
  }

  lemma {:induction false} SubsetSize(a: set<nat>, b: set<nat>)
    requires a <= b
    ensures |a| <= |b|
  {
    if a != {} {
      var x :| x in a;
      SubsetSize(a - {x}, b - {x});
    }
  }

  /** The same is published and held. */
  lemma SameOut(s: Ingest, t: Ingest, k: string)
    requires Published(t) == Published(s)
    requires forall c :: c in s.calls && s.calls[c].Publishing? ==> c in t.calls && t.calls[c] == s.calls[c]
    requires forall c :: c in t.calls && t.calls[c].Publishing? ==> c in s.calls && t.calls[c] == s.calls[c]
    ensures OutOnce(s, k) ==> OutOnce(t, k)
    ensures Out(t, k) <==> Out(s, k)
  {
  }

  lemma SteadySubmit(s: Ingest, e: Event, k: string)
    requires Sized(s) && Steady(s, k) && Enabled(s, e)
    requires e.Submit? && e.entry.key != k && |s.buffer| < s.bufferCap
    ensures Steady(Step(s, e), k)
  {
    var t := Step(s, e);
    SameOut(s, t, k);
    SubmitPrepares(s, e.call, e.entry, k);
    TimesOfBoth(Keys(s.buffer), Keys(t.buffer), k);
    TimesOfBoth(Keys(t.buffer), Keys(s.buffer), k);
    assert e.call !in GatheringCalls(s);
  }

  lemma SteadyWrites(s: Ingest, e: Event, k: string)
    requires Sized(s) && Steady(s, k) && Enabled(s, e)
    requires e.Land? || e.Fail? || e.OrphanLands? || e.OrphanFails? || e.Take?
    ensures Steady(Step(s, e), k)
  {
    var t := Step(s, e);
    if e.Take? {
      TakePublishes(s);
    }
    SameOut(s, t, k);
    assert GatheringCalls(t) <= GatheringCalls(s);
    SubsetSize(GatheringCalls(t), GatheringCalls(s));
  }

  /** A flush ends and clears the deque, or it is suspended on the full queue and leaves it. */
  lemma PublishEnds(s: Ingest, c: nat, keys: seq<string>)
    requires Sized(s) && c in s.calls
    ensures var t := Publish(s, c, keys);
            && t.bufferCap == s.bufferCap && t.queueCap == s.queueCap
            && (|s.queue| + |keys| <= s.queueCap <==> c !in t.calls)
            && (if c in t.calls then t.buffer == s.buffer else t.buffer == [])
            && forall d :: d in t.calls && d != c ==> d in s.calls && t.calls[d] == s.calls[d]
  {
  }

  lemma TimesMove(before: seq<string>, rest: seq<string>, after: seq<string>, left: seq<string>, k: string)
    requires after + left == before + rest
    ensures Times(after, k) + Times(left, k) == Times(before, k) + Times(rest, k)
    ensures k in after || k in left <==> k in before || k in rest
  {
    TimesOfBoth(before, rest, k);
    TimesOfBoth(after, left, k);
    assert k in after + left <==> k in before + rest;
  }

  /** The rest a suspended flush holds, or nothing when it is none. */
  function HeldBy(s: Ingest, c: nat): seq<string> {
    if c in s.calls && s.calls[c].Publishing? then s.calls[c].rest else []
  }

  /** A suspended flush moves on: what it held it publishes or still holds. */
  lemma OutMoves(s: Ingest, t: Ingest, c: nat, k: string)
    requires OutOnce(s, k) && c in s.calls && s.calls[c].Publishing?
    requires forall d :: d != c ==> HeldBy(t, d) == HeldBy(s, d)
    requires Published(t) + HeldBy(t, c) == Published(s) + HeldBy(s, c)
    ensures OutOnce(t, k) && (Out(t, k) ==> Out(s, k))
  {
    TimesMove(Published(s), HeldBy(s, c), Published(t), HeldBy(t, c), k);
    TimesOfBoth(HeldBy(s, c), HeldBy(t, c), k);
    TimesOfBoth(HeldBy(t, c), Published(t), k);
    TimesOfBoth(Published(s), Published(t), k);
    TimesOfBoth(Published(t), Published(s), k);
    assert forall d :: k in HeldBy(s, d) <==> Holds(s, d, k);
    assert forall d :: k in HeldBy(t, d) <==> Holds(t, d, k);
    if Out(t, k) && k !in Published(t) {
      var d :| d in t.calls && t.calls[d].Publishing? && k in t.calls[d].rest;
      assert Holds(t, d, k) && (d != c ==> Holds(s, d, k));
    }
    forall d | Holds(t, d, k)
      ensures Times(t.calls[d].rest, k) == 1 && k !in Published(t) && forall x :: Holds(t, x, k) ==> x == d
    {
      if d != c {
        assert Holds(s, d, k) && HeldBy(t, d) == s.calls[d].rest;
      }
      forall x | Holds(t, x, k) ensures x == d {
        assert x != c ==> Holds(s, x, k);
      }
    }
  }

  lemma SteadyWaiting(s: Ingest, c: nat, k: string)
    requires Sized(s) && Steady(s, k) && c in s.calls && s.calls[c].Publishing? && Enabled(s, Resume(c))
    ensures Steady(Step(s, Resume(c)), k)
  {
    var rest := s.calls[c].rest;
    var t := Step(s, Resume(c));
    FlushSplits(s, c, rest);
    PublishEnds(s, c, rest);
    assert forall d :: d != c ==> (d in t.calls - {c} <==> d in t.calls) && (d in s.calls - {c} <==> d in s.calls);
    assert forall d :: d != c ==> HeldBy(t, d) == HeldBy(s, d);
    OutMoves(s, t, c, k);
    if c in t.calls {
      assert GatheringCalls(t) == GatheringCalls(s);
    }
  }

  lemma SteadyFlush(s: Ingest, c: nat, k: string)
    requires Sized(s) && Steady(s, k) && c in s.calls && s.calls[c] == Gathering([])
    ensures Steady(Step(s, Resume(c)), k)
  {
    var keys := Keys(s.buffer);
    var t := Step(s, Resume(c));
    FlushSplits(s, c, keys);
    PublishEnds(s, c, keys);
    TimesOfBoth(Published(s), keys, k);
    assert c in GatheringCalls(s);
    assert k in keys ==> Times(keys, k) == 1 && !Out(s, k) && (Flushes(s) <= 1 || AllFit(s));
    if c in t.calls {
      FlushSuspendsSteady(s, c, k);
    }
  }

  lemma FlushSuspendsSteady(s: Ingest, c: nat, k: string)
    requires Sized(s) && c in s.calls && s.calls[c] == Gathering([]) && OutOnce(s, k)
    requires s.queueCap < |s.queue| + |s.buffer|
    requires k in Keys(s.buffer) ==> Times(Keys(s.buffer), k) == 1 && !Out(s, k) && Flushes(s) <= 1
    ensures Steady(Step(s, Resume(c)), k)
  {
    var keys := Keys(s.buffer);
    var t := Step(s, Resume(c));
    FlushSplits(s, c, keys);
    PublishEnds(s, c, keys);
    var rest := t.calls[c].rest;
    TimesOfBoth(Published(s), keys, k);
    TimesOfBoth(Published(t), rest, k);
    assert Times(Published(t), k) + Times(rest, k) == Times(Published(s), k) + Times(keys, k);
    assert GatheringCalls(t) == GatheringCalls(s) - {c} && c in GatheringCalls(s);
    assert forall d :: d in t.calls && d != c ==> d in s.calls && t.calls[d] == s.calls[d];
    if k !in keys {
      assert k !in rest;
    }
  }

  lemma SteadyStep(s: Ingest, e: Event, k: string)
    requires Sized(s) && Steady(s, k) && Enabled(s, e)
    requires e.Submit? ==> e.entry.key != k && |s.buffer| < s.bufferCap
    ensures Steady(Step(s, e), k)
  {
    if e.Submit? {
      SteadySubmit(s, e, k);
    } else if e.Resume? {
      if s.calls[e.call].Gathering? {
        SteadyFlush(s, e.call, k);
      } else {
        SteadyWaiting(s, e.call, k);
      }
    } else {
      SteadyWrites(s, e, k);
    }
  }

  lemma {:induction false} SteadyStays(s: Ingest, events: seq<Event>, k: string)
    requires Sized(s) && Steady(s, k) && GoesOn(s, events, k)
    ensures Sized(Run(s, events).value) && Steady(Run(s, events).value, k)
  {
    if events != [] {
      forall e | e in Front(events) ensures e in events {}
      assert Last(events) in events;
      SteadyStays(s, Front(events), k);
      ContinuesRuns(s, Front(events));
      var t := Run(s, Front(events)).value;
      SizedStep(t, Last(events));
      SteadyStep(t, Last(events), k);
    }
  }

  // The other way: what to do when the state is not steady.

  /** Differing submissions still differ. */
  predicate StillDiffer(s: Ingest, t: Ingest) {
    Distinct(Keys(s.submitted)) ==> Distinct(Keys(t.submitted))
  }

  lemma QuietGoesOn(s: Ingest, events: seq<Event>, k: string)
    requires Quiet(s, events)
    ensures GoesOn(s, events, k) && StillDiffer(s, Run(s, events).value)
  {
    QuietContinues(s, events);
    QuietSubmitsNothing(s, events);
  }

  lemma {:induction false} QuietSubmitsNothing(s: Ingest, events: seq<Event>)
    requires Quiet(s, events)
    ensures Run(s, events).value.submitted == s.submitted
  {
    if events != [] {
      forall e | e in Front(events) ensures e in events {}
      assert Last(events) in events;
      QuietSubmitsNothing(s, Front(events));
    }
  }

  lemma {:induction false} LongerKey(keys: seq<string>) returns (longer: string)
    ensures forall k :: k in keys ==> |k| < |longer|
  {
    if keys == [] {
      longer := "";
    } else {
      longer := LongerKey(Front(keys));
      assert keys == Front(keys) + [Last(keys)];
      if |longer| <= |Last(keys)| {
        longer := Last(keys) + "+";
      }
    }
  }

  lemma {:induction false} GoesOnTwice(s: Ingest, first: seq<Event>, more: seq<Event>, k: string)
    requires GoesOn(s, first, k) && GoesOn(Run(s, first).value, more, k)
    ensures GoesOn(s, first + more, k) && Run(s, first + more) == Run(Run(s, first).value, more)
  {
    ContinuesRuns(s, first);
    RunTwice(s, first, more);
    if more == [] {
      assert first + more == first;
    } else {
      assert Front(first + more) == first + Front(more) && Last(first + more) == Last(more);
      forall e | e in Front(more) ensures e in more {}
      assert Continues(Run(s, first).value, Front(more));
      ContinuesRuns(Run(s, first).value, Front(more));
      GoesOnTwice(s, first, Front(more), k);
    }
  }

  lemma OneEvent(s: Ingest, e: Event, k: string)
    requires Enabled(s, e) && (e.Submit? ==> e.entry.key != k && |s.buffer| < s.bufferCap)
    ensures GoesOn(s, [e], k) && Run(s, [e]) == Some(Step(s, e))
  {
    ContinuesOneMore(s, [], e);
    assert [] + [e] == [e];
  }

  lemma FreshCall(used: set<nat>) returns (c: nat)
    ensures c !in used
    ensures forall x :: x in used ==> x < c
  {
    if used == {} {
      c := 0;
    } else {
      var x :| x in used;
      c := FreshCall(used - {x});
      assert used == (used - {x}) + {x};
      if c <= x {
        c := x + 1;
      }
    }
  }

  /** The same keys are out, the calls in flight go on as they were, and the deque adds as much. */
  predicate Prepared(s: Ingest, t: Ingest, k: string) {
    && Sized(t) && t.queueCap == s.queueCap && t.bufferCap == s.bufferCap
    && t.queue == s.queue && Published(t) == Published(s)
    && Times(Keys(t.buffer), k) == Times(Keys(s.buffer), k) && |t.buffer| >= |s.buffer|
    && Flushes(t) == Flushes(s) && StillDiffer(s, t)
    && (forall c :: c in s.calls && s.calls[c].Publishing? ==> c in t.calls && t.calls[c] == s.calls[c])
  }

  lemma SubmitStillDiffers(s: Ingest, c: nat, entry: Entry)
    requires c !in s.calls && forall k :: k in Keys(s.submitted) ==> |k| < |entry.key|
    ensures StillDiffer(s, Step(s, Submit(c, entry)))
  {
    assert Keys(s.submitted + [entry]) == Keys(s.submitted) + [entry.key];
  }

  /** Another record is submitted, under a new key and by a call of its own. */
  lemma OneMoreCall(s: Ingest, k: string) returns (c: nat, e: Event)
    requires Sized(s) && |s.buffer| < s.bufferCap
    ensures e.Submit? && e.call == c && Enabled(s, e) && e.entry.key != k
    ensures Prepared(s, Step(s, e), k) && c in GatheringCalls(Step(s, e)) && |Step(s, e).buffer| == |s.buffer| + 1
  {
    c := FreshCall(s.calls.Keys);
    var key := LongerKey(Keys(s.submitted) + [k]);
    var entry := Entry(key, "");
    assert k in Keys(s.submitted) + [k];
    e := Submit(c, entry);
    SubmitPrepares(s, c, entry, k);
    SubmitStillDiffers(s, c, entry);
    assert c !in GatheringCalls(s);
  }

  lemma FillUp(s: Ingest, k: string) returns (events: seq<Event>)
    requires Sized(s)
    ensures GoesOn(s, events, k)
    ensures Prepared(s, Run(s, events).value, k) && |Run(s, events).value.buffer| == s.bufferCap
    decreases s.bufferCap - |s.buffer|
  {
    events := [];
    if |s.buffer| < s.bufferCap {
      var c, e := OneMoreCall(s, k);
      OneEvent(s, e, k);
      var more := FillUp(Step(s, e), k);
      GoesOnTwice(s, [e], more, k);
      events := [e] + more;
    }
  }

  /** The whole flush of a call, with consumers taking what keeps it from going on. */
  lemma FlushThrough(s: Ingest, c: nat) returns (events: seq<Event>)
    requires Sized(s) && c in s.calls && s.calls[c] == Gathering([])
    ensures Quiet(s, events)
    ensures var v := Run(s, events).value;
            v.calls == s.calls - {c} && Published(v) == Published(s) + Keys(s.buffer) && v.queueCap == s.queueCap
  {
    var t := Step(s, Resume(c));
    FlushSplits(s, c, Keys(s.buffer));
    assert Front([Resume(c)]) == [];
    assert Run(s, [Resume(c)]) == Some(t);
    events := [Resume(c)];
    if c in t.calls {
      var more := FlushEnds(t, c);
      QuietTwice(s, events, more);
      events := events + more;
    }
  }

  /** A key that is out twice is published twice in the end. */
  lemma OutTwice(s: Ingest, k: string) returns (events: seq<Event>)
    requires Sized(s) && !OutOnce(s, k)
    ensures Doubles(s, events, k) && StillDiffer(s, Run(s, events).value)
  {
    events := [];
    if Times(Published(s), k) < 2 {
      var c :| Holds(s, c, k) && (Times(s.calls[c].rest, k) != 1 || k in Published(s)
                                  || exists d :: Holds(s, d, k) && d != c);
      assert Holds(s, c, k);
      TimesOfBoth(Published(s), s.calls[c].rest, k);
      events := FlushEnds(s, c);
      QuietGoesOn(s, events, k);
      var t := Run(s, events).value;
      assert Published(t) == Published(s) + s.calls[c].rest;
      if Times(s.calls[c].rest, k) == 1 && k !in Published(s) {
        var d :| Holds(s, d, k) && d != c;
        assert Holds(s, d, k);
        assert d in t.calls && t.calls[d] == s.calls[d];
        TimesOfBoth(Published(t), t.calls[d].rest, k);
        TimesOfBoth(t.calls[d].rest, [], k);
        var more := FlushEnds(t, d);
        QuietGoesOn(t, more, k);
        GoesOnTwice(s, events, more, k);
        events := events + more;
      }
    }
  }

  /** Some flush can begin: a call is, or gets, ready for it. */
  lemma GetReady(s: Ingest, k: string) returns (c: nat, events: seq<Event>)
    requires Sized(s) && Flushes(s) >= 1
    ensures GoesOn(s, events, k)
    ensures var t := Run(s, events).value;
            && Sized(t) && c in t.calls && t.calls[c] == Gathering([]) && Published(t) == Published(s)
            && Times(Keys(t.buffer), k) == Times(Keys(s.buffer), k)
            && StillDiffer(s, t)
            && forall d :: Holds(s, d, k) ==> d in t.calls && t.calls[d] == s.calls[d]
  {
    var t := s;
    events := [];
    if GatheringCalls(s) == {} {
      var e;
      c, e := OneMoreCall(s, k);
      OneEvent(s, e, k);
      events := [e];
      t := Step(s, e);
    } else {
      c :| c in GatheringCalls(s);
    }
    var more := WritesEnd(t, c);
    QuietGoesOn(t, more, k);
    GoesOnTwice(s, events, more, k);
    SteadySizes(t, more);
    events := events + more;
  }

  lemma {:induction false} SteadySizes(s: Ingest, events: seq<Event>)
    requires Sized(s) && Run(s, events).Some?
    ensures Sized(Run(s, events).value)
  {
    if events != [] {
      SteadySizes(s, Front(events));
      SizedStep(Run(s, Front(events)).value, Last(events));
    }
  }

  /** The deque still holds the key, some flush can begin, and that makes two. */
  lemma FlushDoubles(s: Ingest, k: string) returns (events: seq<Event>)
    requires Sized(s) && k in Keys(s.buffer) && Flushes(s) >= 1
    requires Times(Keys(s.buffer), k) >= 2 || Out(s, k)
    ensures Doubles(s, events, k) && StillDiffer(s, Run(s, events).value)
  {
    var c;
    TimesOfBoth(Keys(s.buffer), [], k);
    c, events := GetReady(s, k);
    var t := Run(s, events).value;
    var more := FlushThrough(t, c);
    QuietGoesOn(t, more, k);
    GoesOnTwice(s, events, more, k);
    events := events + more;
    var v := Run(s, events).value;
    TimesOfBoth(Published(s), Keys(t.buffer), k);
    if Times(Published(v), k) < 2 {
      assert k !in s.consumed + s.queue;
      var d :| Holds(s, d, k);
      assert v.calls[d] == s.calls[d];
      TimesOfBoth(Published(v), v.calls[d].rest, k);
      TimesOfBoth(v.calls[d].rest, [], k);
      more := FlushEnds(v, d);
      QuietGoesOn(v, more, k);
      GoesOnTwice(s, events, more, k);
      events := events + more;
    }
  }

  /** Two calls are in flight at least. */
  lemma TwoOf(calls: set<nat>) returns (c: nat, d: nat)
    requires |calls| >= 2
    ensures c in calls && d in calls && c != d
  {
    c :| c in calls;
    assert |calls - {c}| >= 1;
    d :| d in calls - {c};
  }

  lemma WaiterFillsTheQueue(s: Ingest, p: nat)
    requires Sized(s) && p in s.calls && s.calls[p].Publishing? && Enabled(s, Resume(p))
    requires |s.queue| + |s.calls[p].rest| > s.queueCap
    ensures var t := Step(s, Resume(p));
            && |t.queue| == t.queueCap == s.queueCap && t.buffer == s.buffer && t.bufferCap == s.bufferCap
            && t.submitted == s.submitted && GatheringCalls(t) == GatheringCalls(s)
  {
  }

  /** Something will not fit: the first of two flushes can be made to wait, with the deque uncleared. */
  lemma FlushesDouble(s: Ingest, k: string) returns (events: seq<Event>)
    requires Sized(s) && k in Keys(s.buffer) && Flushes(s) >= 2 && !AllFit(s)
    ensures Doubles(s, events, k) && StillDiffer(s, Run(s, events).value)
  {
    events := FillUp(s, k);
    var t := Run(s, events).value;
    TimesOfBoth(Keys(s.buffer), [], k);
    TimesOfBoth(Keys(t.buffer), [], k);
    if |t.queue| + |t.buffer| <= t.queueCap {
      var p :| p in s.calls && s.calls[p].Publishing? && |s.queue| + |s.calls[p].rest| > s.queueCap;
      assert t.calls[p] == s.calls[p] && |t.buffer| > 0;
      var u := Step(t, Resume(p));
      OneEvent(t, Resume(p), k);
      WaiterFillsTheQueue(t, p);
      GoesOnTwice(s, events, [Resume(p)], k);
      events := events + [Resume(p)];
      t := u;
    }
    var c, d := TwoOf(GatheringCalls(t));
    var more := WayToRepeat(t, c, d);
    QuietGoesOn(t, more, k);
    GoesOnTwice(s, events, more, k);
    TimesOfBoth(Published(t), Keys(t.buffer), k);
    TimesOfBoth(Published(t) + Keys(t.buffer), Keys(t.buffer), k);
    events := events + more;
  }

  /** In every other state some way to go on publishes the key twice, and no further submission of it
      repeats a key. */
  lemma WayToDouble(s: Ingest, k: string) returns (events: seq<Event>)
    requires Sized(s) && !Steady(s, k)
    ensures Doubles(s, events, k) && StillDiffer(s, Run(s, events).value)
  {
    TimesOfBoth(Keys(s.buffer), [], k);
    if !OutOnce(s, k) {
      events := OutTwice(s, k);
    } else if Times(Keys(s.buffer), k) >= 2 || Out(s, k) {
      events := FlushDoubles(s, k);
    } else {
      events := FlushesDouble(s, k);
    }
  }

  /** Publishing twice.  Over every way to go on, with further submissions under other keys as long as they
      find room, the key is never published twice exactly when it is out once at most and the deque cannot
      add to that: it does not hold the key, or no flush can begin any more, or it holds it once while the
      key is not out, and either one flush at most can begin or no flush will ever have to wait. */
  lemma NeverTwice(s: Ingest, k: string)
    requires Sized(s)
    ensures (forall events :: !Doubles(s, events, k)) <==> OutOnce(s, k) && BufferSpent(s, k)
  {
    if Steady(s, k) {
      forall events ensures !Doubles(s, events, k) {
        if GoesOn(s, events, k) {
          SteadyStays(s, events, k);
        }
      }
    } else {
      var events := WayToDouble(s, k);
    }
  }

  /** In particular, while no flush is suspended, for a key that is buffered once and not published yet:
      exactly when the queue could take a full deque, or one flush at most can begin. */
  lemma BufferedKeyNeverTwice(s: Ingest, k: string)
    requires Sized(s) && NonePublishing(s) && Times(Keys(s.buffer), k) == 1 && k !in Published(s)
    ensures (forall events :: !Doubles(s, events, k)) <==>
            |s.queue| + s.bufferCap <= s.queueCap || |s.calls| + (s.bufferCap - |s.buffer|) <= 1
  {
    NeverTwice(s, k);
    TimesOfBoth(Published(s), Keys(s.buffer), k);
    TimesOfBoth(Keys(s.buffer), [], k);
    assert GatheringCalls(s) == s.calls.Keys;
    assert |s.calls| == |s.calls.Keys|;
  }
}
