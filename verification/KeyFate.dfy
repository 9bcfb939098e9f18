/**
  What can become of the keys given to enqueue (cryptomarket/deribit_client/deribit_clients.py), over
  every way the overlapping calls, their writes and the consumers may go on.

  The only danger is the clear at the end of a flush: it empties the deque of whatever is in it by then,
  while the flush published what it found when it began.
*/
module KeyFate {
  import opened Prelude
  import opened IngestBuffer

  // ---------------------------------------------------------------------------------------------
  // Ways to go on
  // ---------------------------------------------------------------------------------------------

  /** A run from s whose submissions find room in the deque. */
  predicate Continues(s: Ingest, events: seq<Event>) {
    events == [] ||
    (Continues(s, Front(events)) && Run(s, events).Some? &&
     (Last(events).Submit? ==> |Run(s, Front(events)).value.buffer| < s.bufferCap))
  }

  lemma {:induction false} ContinuesRuns(s: Ingest, events: seq<Event>)
    requires Continues(s, events)
    ensures Run(s, events).Some? && Run(s, events).value.bufferCap == s.bufferCap && Run(s, events).value.queueCap == s.queueCap
  {
    if events != [] {
      ContinuesRuns(s, Front(events));
    }
  }

  lemma ContinuesOneMore(s: Ingest, events: seq<Event>, e: Event)
    requires Continues(s, events) && Run(s, events).Some?
    requires Enabled(Run(s, events).value, e) && (e.Submit? ==> |Run(s, events).value.buffer| < s.bufferCap)
    ensures Continues(s, events + [e]) && Run(s, events + [e]) == Some(Step(Run(s, events).value, e))
  {
    assert Front(events + [e]) == events;
  }

  /** A run in which nothing is submitted. */
  predicate Quiet(s: Ingest, events: seq<Event>) {
    Run(s, events).Some? && forall e :: e in events ==> !e.Submit?
  }

  lemma {:induction false} QuietContinues(s: Ingest, events: seq<Event>)
    requires Quiet(s, events)
    ensures Continues(s, events)
  {
    if events != [] {
      forall e | e in Front(events) ensures e in events {}
      QuietContinues(s, Front(events));
      assert Last(events) in events;
    }
  }

  lemma {:induction false} RunTwice(s: Ingest, first: seq<Event>, more: seq<Event>)
    requires Run(s, first).Some?
    ensures Run(s, first + more) == Run(Run(s, first).value, more)
  {
    if more == [] {
      assert first + more == first;
    } else {
      RunTwice(s, first, Front(more));
      assert Front(first + more) == first + Front(more) && Last(first + more) == Last(more);
    }
  }

  // ---------------------------------------------------------------------------------------------
  // When a key is safe
  // ---------------------------------------------------------------------------------------------

  /** The key is taken, queued, or held by a flush that waits for room. */
  predicate Out(s: Ingest, k: string) {
    k in s.consumed + s.queue || exists c :: c in s.calls && s.calls[c].Publishing? && k in s.calls[c].rest
  }

  /** Nobody has the key any more. */
  predicate Gone(s: Ingest, k: string) {
    !Out(s, k) && k !in Keys(s.buffer)
  }

  predicate Safe(s: Ingest, k: string) {
    Out(s, k) || (k in Keys(s.buffer) && NonePublishing(s))
  }

  lemma OutStep(s: Ingest, e: Event, k: string)
    requires Enabled(s, e) && Out(s, k)
    ensures Out(Step(s, e), k)
  {
    var t := Step(s, e);
    if k !in s.consumed + s.queue {
      var c :| c in s.calls && s.calls[c].Publishing? && k in s.calls[c].rest;
      if e == Resume(c) {
        var rest := s.calls[c].rest;
        var room := s.queueCap - |s.queue|;
        if |rest| > room {
          assert rest == rest[..room] + rest[room..];
          assert k in rest[..room] || k in t.calls[c].rest;
        }
      } else {
        assert c in t.calls && t.calls[c] == s.calls[c];
      }
    }
  }

  lemma SafeStep(s: Ingest, e: Event, k: string)
    requires Enabled(s, e) && Safe(s, k)
    requires e.Submit? ==> |s.buffer| < s.bufferCap
    ensures Safe(Step(s, e), k)
  {
    var t := Step(s, e);
    if Out(s, k) {
      OutStep(s, e, k);
    } else if e.Submit? {
      assert Keys(t.buffer) == Keys(s.buffer) + [e.entry.key];
    } else if e.Resume? {
      var keys := Keys(s.buffer);
      var room := if |s.queue| < s.queueCap then s.queueCap - |s.queue| else 0;
      if |keys| > room {
        assert keys == keys[..room] + keys[room..];
        assert k in keys[..room] || k in t.calls[e.call].rest;
      }
    }
  }

  lemma {:induction false} SafeStays(s: Ingest, events: seq<Event>, k: string)
    requires Continues(s, events) && Safe(s, k)
    ensures Safe(Run(s, events).value, k)
  {
    if events != [] {
      SafeStays(s, Front(events), k);
      ContinuesRuns(s, Front(events));
      SafeStep(Run(s, Front(events)).value, Last(events), k);
    }
  }

  /** What moves a flush that waits: a consumer when the queue is full, itself otherwise. */
  function Mover(s: Ingest, c: nat): Event {
    if |s.queue| >= s.queueCap then Take else Resume(c)
  }

  lemma FlushMoves(s: Ingest, c: nat)
    requires 0 < s.queueCap && c in s.calls && s.calls[c].Publishing?
    ensures Enabled(s, Mover(s, c))
    ensures var t := Step(s, Mover(s, c));
            && t.queueCap == s.queueCap && t.calls - {c} == s.calls - {c}
            && (if c in t.calls
                then && t.calls[c].Publishing? && t.consumed + t.queue + t.calls[c].rest == s.consumed + s.queue + s.calls[c].rest
                     && (|t.calls[c].rest| < |s.calls[c].rest| || (t.calls[c] == s.calls[c] && |t.queue| < |s.queue|))
                else t.buffer == [] && t.calls == s.calls - {c} && t.consumed + t.queue == s.consumed + s.queue + s.calls[c].rest)
  {
    var rest := s.calls[c].rest;
    var t := Step(s, Mover(s, c));
    if |s.queue| >= s.queueCap {
      assert s.queue == [s.queue[0]] + s.queue[1..];
      assert t.consumed + t.queue == s.consumed + s.queue;
    } else {
      var room := s.queueCap - |s.queue|;
      Regrouped(s.consumed, s.queue, rest);
      if |rest| > room {
        assert rest == rest[..room] + rest[room..];
        Regrouped(s.consumed, s.queue, rest[..room]);
      }
    }
  }

  /** A suspended flush can always be brought to its end: consumers take, and it puts what fits. */
  lemma FlushEnds(s: Ingest, c: nat) returns (events: seq<Event>)
    requires 0 < s.queueCap && c in s.calls && s.calls[c].Publishing?
    ensures Quiet(s, events)
    ensures var v := Run(s, events).value;
            && v.buffer == [] && v.calls == s.calls - {c} && v.queueCap == s.queueCap
            && v.consumed + v.queue == s.consumed + s.queue + s.calls[c].rest
    decreases |s.calls[c].rest|, |s.queue|
  {
    var t := Step(s, Mover(s, c));
    FlushMoves(s, c);
    events := [Mover(s, c)];
    assert Front(events) == [];
    if c in t.calls {
      var more := FlushEnds(t, c);
      RunTwice(s, events, more);
      events := events + more;
    }
  }

  /** A way to go on, with room for every further record, after which nobody has the key. */
  predicate Loses(s: Ingest, events: seq<Event>, k: string) {
    Continues(s, events) && Gone(Run(s, events).value, k)
  }

  lemma WayToLose(s: Ingest, k: string) returns (events: seq<Event>)
    requires 0 < s.queueCap && !Safe(s, k)
    ensures Quiet(s, events) && Loses(s, events, k)
  {
    events := [];
    if k in Keys(s.buffer) {
      var c :| c in s.calls && s.calls[c].Publishing?;
      events := FlushEnds(s, c);
      QuietContinues(s, events);
      var v := Run(s, events).value;
      forall d | d in v.calls && v.calls[d].Publishing? ensures k !in v.calls[d].rest {
        assert d in s.calls && s.calls[d] == v.calls[d];
      }
    }
  }

  /** The fate of a key.  Whatever the calls and consumers do from here on, as long as further records
      find room, the key is never lost: exactly when it is already out, or it is buffered and no flush is
      waiting in the middle.  A waiting flush that does not hold the key will clear it away. */
  lemma NeverLost(s: Ingest, k: string)
    requires 0 < s.queueCap
    ensures (forall events :: !Loses(s, events, k)) <==> Safe(s, k)
  {
    if Safe(s, k) {
      forall events ensures !Loses(s, events, k) {
        if Continues(s, events) {
          SafeStays(s, events, k);
        }
      }
    } else {
      var events := WayToLose(s, k);
    }
  }

  /** A submitted record is never lost, over every continuation whose own submissions find room, exactly
      when no flush was waiting in the middle as it came (or its key was out already). */
  lemma SubmissionNeverLost(s: Ingest, c: nat, entry: Entry)
    requires 0 < s.queueCap && 0 < s.bufferCap && c !in s.calls
    ensures var t := Step(s, Submit(c, entry));
            (forall events :: !Loses(t, events, entry.key)) <==> Out(s, entry.key) || NonePublishing(s)
  {
    var t := Step(s, Submit(c, entry));
    NeverLost(t, entry.key);
    assert t.buffer[|t.buffer| - 1] == entry && Keys(t.buffer)[|t.buffer| - 1] == entry.key;
    assert forall d :: d in s.calls ==> d in t.calls && t.calls[d] == s.calls[d];
    assert forall d :: d in t.calls && t.calls[d].Publishing? ==> d in s.calls && t.calls[d] == s.calls[d];
    assert Out(t, entry.key) <==> Out(s, entry.key);
    assert NonePublishing(t) <==> NonePublishing(s);
  }
}
