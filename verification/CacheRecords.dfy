/**
  What the cache writes of enqueue leave behind (cryptomarket/deribit_client/deribit_clients.py), read off
  the events of a run: each write that ended well has stored its record, each that raised has only failed.
*/
module CacheRecords {
  import opened Prelude
  import opened IngestBuffer
  import opened KeyFate

  // ---------------------------------------------------------------------------------------------
  // The writes that ended, in the order they ended
  // ---------------------------------------------------------------------------------------------

  /** The write an event ends: one of its call, or one left over from a failed call. */
  function EndedWrite(s: Ingest, e: Event): Option<Entry> {
    match e
    case Land(c, i) => if c in s.calls && s.calls[c].Gathering? && i < |s.calls[c].pending| then Some(s.calls[c].pending[i]) else None
    case Fail(c, i) => if c in s.calls && s.calls[c].Gathering? && i < |s.calls[c].pending| then Some(s.calls[c].pending[i]) else None
    case OrphanLands(i) => if i < |s.orphans| then Some(s.orphans[i]) else None
    case OrphanFails(i) => if i < |s.orphans| then Some(s.orphans[i]) else None
    case _ => None
  }

  predicate Fails(e: Event) {
    e.Fail? || e.OrphanFails?
  }

  /** The writes that ended well, or those that failed. */
  function Ended(s: Ingest, events: seq<Event>, failing: bool): seq<Entry>
    requires Run(s, events).Some?
  {
    if events == [] then []
    else
      var before := Ended(s, Front(events), failing);
      var write := EndedWrite(Run(s, Front(events)).value, Last(events));
      if write.Some? && Fails(Last(events)) == failing then before + [write.value] else before
  }

  /** The record the last of the writes left under a key. */
  function LastWritten(writes: seq<Entry>, k: string): Option<string> {
    if writes == [] then None
    else if Last(writes).key == k then Some(Last(writes).payload)
    else LastWritten(Front(writes), k)
  }

  lemma {:induction false} LastWrittenExists(writes: seq<Entry>, k: string)
    ensures LastWritten(writes, k).Some? <==> exists i :: 0 <= i < |writes| && writes[i].key == k
  {
    if writes != [] {
      LastWrittenExists(Front(writes), k);
      assert writes == Front(writes) + [Last(writes)];
    }
  }

  /** The cache holds under each key what the last write that ended well stored there, and the failed keys
      are those of the failed writes, in order. */
  lemma {:induction false} CacheIsWhatLanded(bufferCap: nat, queueCap: nat, events: seq<Event>, k: string)
    requires Run(Fresh(bufferCap, queueCap), events).Some?
    ensures var s := Run(Fresh(bufferCap, queueCap), events).value;
            && (if k in s.cache then Some(s.cache[k]) else None) == LastWritten(Ended(Fresh(bufferCap, queueCap), events, false), k)
            && s.failed == Keys(Ended(Fresh(bufferCap, queueCap), events, true))
  {
    if events != [] {
      CacheIsWhatLanded(bufferCap, queueCap, Front(events), k);
      var s := Run(Fresh(bufferCap, queueCap), Front(events)).value;
      WriteEnds(s, Last(events), k);
    }
  }

  lemma WriteEnds(s: Ingest, e: Event, k: string)
    requires Enabled(s, e)
    ensures var t, write := Step(s, e), EndedWrite(s, e);
            && (write.Some? && !Fails(e) ==> t.failed == s.failed && t.cache == s.cache[write.value.key := write.value.payload])
            && (write.Some? && Fails(e) ==> t.failed == s.failed + [write.value.key] && t.cache == s.cache)
            && (write.None? ==> t.failed == s.failed && t.cache == s.cache)
  {
  }

  /** A write of the key ended so, at this event. */
  predicate EndsAt(s: Ingest, events: seq<Event>, i: nat, k: string, failing: bool)
    requires Run(s, events).Some?
  {
    i < |events| && Fails(events[i]) == failing &&
    Run(s, events[..i]).Some? &&
    var write := EndedWrite(Run(s, events[..i]).value, events[i]);
    write.Some? && write.value.key == k
  }

  lemma {:induction false} EndedAt(s: Ingest, events: seq<Event>, k: string, failing: bool)
    requires Run(s, events).Some?
    ensures (exists j :: 0 <= j < |Ended(s, events, failing)| && Ended(s, events, failing)[j].key == k)
            <==> exists i: nat :: EndsAt(s, events, i, k, failing)
  {
    if events != [] {
      var past, last := Front(events), |events| - 1;
      EndedAt(s, past, k, failing);
      assert events[..last] == past;
      assert forall i: nat :: i < last ==> past[..i] == events[..i] && past[i] == events[i];
      var before, now := Ended(s, past, failing), Ended(s, events, failing);
      if j :| 0 <= j < |now| && now[j].key == k {
        if j == |before| {
          assert EndsAt(s, events, last, k, failing);
        } else {
          assert before[j].key == k;
          var i: nat :| EndsAt(s, past, i, k, failing);
          assert EndsAt(s, events, i, k, failing);
        }
      }
      if i: nat :| EndsAt(s, events, i, k, failing) {
        if i == last {
          assert now[|before|].key == k;
        } else {
          assert EndsAt(s, past, i, k, failing);
          var j :| 0 <= j < |before| && before[j].key == k;
          assert now[j].key == k;
        }
      }
    }
  }

  /** Over every run: a key is cached exactly when some write of it ended well, and it counts as failed
      exactly when some write of it failed. */
  lemma CachedIffLanded(bufferCap: nat, queueCap: nat, events: seq<Event>, k: string)
    requires Run(Fresh(bufferCap, queueCap), events).Some?
    ensures var s := Run(Fresh(bufferCap, queueCap), events).value;
            && (k in s.cache <==> exists i: nat :: EndsAt(Fresh(bufferCap, queueCap), events, i, k, false))
            && (k in s.failed <==> exists i: nat :: EndsAt(Fresh(bufferCap, queueCap), events, i, k, true))
  {
    var start := Fresh(bufferCap, queueCap);
    CacheIsWhatLanded(bufferCap, queueCap, events, k);
    LastWrittenExists(Ended(start, events, false), k);
    EndedAt(start, events, k, false);
    EndedAt(start, events, k, true);
    var failed := Ended(start, events, true);
    assert k in Keys(failed) <==> exists j :: 0 <= j < |failed| && failed[j].key == k;
  }

  /** In a run without a failing write every published key has its record once no call and no write is
      under way. */
  lemma ReadyWithoutFailures(bufferCap: nat, queueCap: nat, events: seq<Event>, k: string)
    requires Run(Fresh(bufferCap, queueCap), events).Some?
    requires forall e :: e in events ==> !e.Fail? && !e.OrphanFails?
    requires var s := Run(Fresh(bufferCap, queueCap), events).value;
             s.calls == map[] && s.orphans == [] && k in s.consumed + s.queue
    ensures k in Run(Fresh(bufferCap, queueCap), events).value.cache
  {
    ReadyWhenQuiet(bufferCap, queueCap, events, k);
    CachedIffLanded(bufferCap, queueCap, events, k);
    forall i: nat | i < |events| ensures !Fails(events[i]) {
      assert events[i] in events;
    }
  }

  // ---------------------------------------------------------------------------------------------
  // A failed call is made up for
  // ---------------------------------------------------------------------------------------------

  /** Each write under way may end well or fail, whatever else goes on. */
  lemma EitherWay(s: Ingest, c: nat, i: nat)
    ensures c in s.calls && s.calls[c].Gathering? && i < |s.calls[c].pending| ==> Enabled(s, Land(c, i)) && Enabled(s, Fail(c, i))
    ensures i < |s.orphans| ==> Enabled(s, OrphanLands(i)) && Enabled(s, OrphanFails(i))
  {
  }

  /** What a call submits and writes: everything the deque holds, its own record included; a full deque
      has dropped its oldest. */
  lemma CallWritesAll(s: Ingest, c: nat, entry: Entry)
    requires c !in s.calls && |s.buffer| <= s.bufferCap && 0 < s.bufferCap
    ensures var t := Step(s, Submit(c, entry));
            && t.buffer == (if |s.buffer| == s.bufferCap then s.buffer[1..] else s.buffer) + [entry]
            && t.calls == s.calls[c := Gathering(t.buffer)] && t.submitted == s.submitted + [entry]
            && t.queue == s.queue && t.consumed == s.consumed && t.cache == s.cache && t.orphans == s.orphans
  {
  }

  /** A failing write ends its call and leaves the deque and the call's other writes. */
  lemma FailureKeepsRecords(s: Ingest, c: nat, i: nat)
    requires Enabled(s, Fail(c, i))
    ensures var t, writes := Step(s, Fail(c, i)), s.calls[c].pending;
            && t.buffer == s.buffer && t.queue == s.queue && t.consumed == s.consumed && t.cache == s.cache
            && t.calls == s.calls - {c} && multiset(t.orphans) + multiset{writes[i]} == multiset(s.orphans) + multiset(writes)
  {
    var writes := s.calls[c].pending;
    assert writes == writes[..i] + [writes[i]] + writes[i + 1..];
    assert multiset(writes) == multiset(writes[..i]) + multiset{writes[i]} + multiset(writes[i + 1..]);
    assert multiset(Without(writes, i)) == multiset(writes[..i]) + multiset(writes[i + 1..]);
  }

  /** All writes of a call end well. */
  lemma AllLand(s: Ingest, c: nat) returns (events: seq<Event>)
    requires c in s.calls && s.calls[c].Gathering?
    ensures Quiet(s, events)
    ensures var t, writes := Run(s, events).value, s.calls[c].pending;
            && t.calls == s.calls[c := Gathering([])] && t.queue == s.queue && t.consumed == s.consumed
            && t.buffer == s.buffer && t.queueCap == s.queueCap
            && (forall k :: k in s.cache || k in Keys(writes) ==> k in t.cache)
    decreases |s.calls[c].pending|
  {
    var writes := s.calls[c].pending;
    if writes == [] {
      events := [];
      assert s.calls[c := Gathering([])] == s.calls;
    } else {
      var t := Step(s, Land(c, 0));
      events := [Land(c, 0)];
      assert Front(events) == [] && Without(writes, 0) == writes[1..];
      forall k | k in Keys(writes) ensures k == writes[0].key || k in Keys(t.calls[c].pending) {
        var j :| 0 <= j < |writes| && writes[j].key == k;
        assert j > 0 ==> Keys(writes[1..])[j - 1] == k;
      }
      var more := AllLand(t, c);
      RunTwice(s, events, more);
      events := events + more;
    }
  }

  lemma RunOne(s: Ingest, e: Event)
    requires Enabled(s, e)
    ensures Run(s, [e]) == Some(Step(s, e))
  {
    assert Front([e]) == [];
  }

  /** A failed call keeps its records for the next one: after any failure, a later call can store and
      publish everything the failed one left, with its own record. */
  lemma NextCallMakesUp(s: Ingest, c: nat, i: nat, d: nat, entry: Entry) returns (events: seq<Event>)
    requires Enabled(s, Fail(c, i)) && d !in s.calls && |s.buffer| < s.bufferCap && |s.queue| + |s.buffer| < s.queueCap
    ensures Run(s, events).Some?
    ensures var v := Run(s, events).value;
            && v.queue == s.queue + Keys(s.buffer + [entry]) && v.consumed == s.consumed && v.buffer == []
            && forall k :: k in Keys(s.buffer + [entry]) ==> k in v.cache
  {
    FailureKeepsRecords(s, c, i);
    var t := Step(s, Fail(c, i));
    CallWritesAll(t, d, entry);
    var u := Step(t, Submit(d, entry));
    RunOne(s, Fail(c, i));
    RunOne(t, Submit(d, entry));
    RunTwice(s, [Fail(c, i)], [Submit(d, entry)]);
    events := [Fail(c, i)] + [Submit(d, entry)];
    var more := AllLand(u, d);
    RunTwice(s, events, more);
    events := events + more;
    var w := Run(u, more).value;
    RunOne(w, Resume(d));
    RunTwice(s, events, [Resume(d)]);
    events := events + [Resume(d)];
  }
}
