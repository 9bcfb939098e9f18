/**
  The per-tick fetch loop (func in cryptomarket/tasks/celery/task_add_every_60_seconds.py): it pops the
  subscribed tickers one by one, asks the exchange for the instrument of each ticker's base currency,
  and inserts the answer.  A reply that names an error has no "result", which ends the run: the test
  for errors looks for a misspelt key.

  One request object is overwritten for every ticker, and a row takes its instrument from the reply.
  What ties a row to its ticker is therefore only the order of what is sent, received and executed:
  the trace of the run, of which the theorems speak.
*/
module PriceFetch {
  import opened Prelude
  import opened DatabaseConnection

  datatype Reply =
    | Nothing                                            // empty, or nothing readable came
    | Misspelt                                           // a reply with the key "errror"
    | Unusable                                           // any other reply without "result" or without its "stats"
    | Quote(instrument: Option<string>, prices: string)  // the instrument the reply names, if any

  /** What would happen to one request: whether it can be sent, the reply, whether the engine comes
      up, and how a session of either kind would fare. */
  datatype Exchange = Exchange(sends: bool, reply: Reply, engine: bool, syncFate: Fate, asyncFate: Fate)

  datatype PriceRow = PriceRow(ticker: string, instrument: Option<string>, prices: string)

  datatype Event =
    | Sent(instrument: string)
    | Received(reply: Reply)
    | Db(effect: Effect<PriceRow>)

  /** Nothing: no table in the cache, or nobody subscribed. */
  datatype Outcome = NothingToDo | Finished | Aborted

  /** The subscription table as it is read from the cache: tickers with the people listed for them. */
  type Table = seq<(string, seq<string>)>

  /** The first instrument of each supported base currency. */
  const INSTRUMENTS: map<string, string> := map["BTC" := "BTC-PERPETUAL", "ETH" := "ETH-PERPETUAL", "DOT" := "DOT-PERPETUAL"]

  function UpperChar(c: char): char {
    if 'a' <= c <= 'z' then (c as int - 32) as char else c
  }

  /** ticker.split("_")[0].upper() */
  function Header(ticker: string): string {
    if ticker == "" || ticker[0] == '_' then "" else [UpperChar(ticker[0])] + Header(ticker[1..])
  }

  predicate Supported(ticker: string) {
    Header(ticker) in INSTRUMENTS
  }

  function InstrumentOf(ticker: string): string
    requires Supported(ticker)
  {
    INSTRUMENTS[Header(ticker)]
  }

  // ---------------------------------------------------------------------------------------------
  // Which tickers are asked for
  // ---------------------------------------------------------------------------------------------

  /** full_list: the tickers somebody is listed for. */
  function Watched(table: Table): seq<string> {
    if table == [] then []
    else Watched(Front(table)) + (if Last(table).1 != [] then [Last(table).0] else [])
  }

  /** The supported ones, the last one first: popitem takes from the end. */
  function Asked(tickers: seq<string>): seq<string> {
    if tickers == [] then []
    else if Supported(Last(tickers)) then [Last(tickers)] + Asked(Front(tickers))
    else Asked(Front(tickers))
  }

  predicate DistinctTickers(table: Table) {
    forall i, j :: 0 <= i < j < |table| ==> table[i].0 != table[j].0
  }

  lemma {:induction false} WatchedExactly(table: Table, ticker: string)
    ensures ticker in Watched(table) <==> exists i :: 0 <= i < |table| && table[i].0 == ticker && table[i].1 != []
  {
    if table != [] {
      WatchedExactly(Front(table), ticker);
      var last := |table| - 1;
      assert forall i :: 0 <= i < last ==> Front(table)[i] == table[i];
      if i :| 0 <= i < |table| && table[i].0 == ticker && table[i].1 != [] {
        assert i < last ==> Front(table)[i] == table[i];
        assert i == last ==> Last(table) == table[i];
      }
      if ticker in Watched(Front(table)) {
        var i :| 0 <= i < last && Front(table)[i].0 == ticker && Front(table)[i].1 != [];
        assert table[i] == Front(table)[i];
      }
    }
  }

  /** The watched tickers come in the order of the table. */
  lemma {:induction false} WatchedInOrder(table: Table, i: nat, j: nat) returns (p: nat, q: nat)
    requires i < j < |Watched(table)|
    ensures p < q < |table| && table[p].0 == Watched(table)[i] && table[q].0 == Watched(table)[j]
  {
    var before := Watched(Front(table));
    if j < |before| {
      p, q := WatchedInOrder(Front(table), i, j);
    } else {
      q := |table| - 1;
      assert before[i] in before;
      WatchedExactly(Front(table), before[i]);
      p :| 0 <= p < |table| - 1 && Front(table)[p].0 == before[i];
    }
  }

  lemma {:induction false} WatchedOnce(table: Table)
    requires DistinctTickers(table)
    ensures Distinct(Watched(table))
  {
    if table != [] {
      WatchedOnce(Front(table));
      WatchedExactly(Front(table), Last(table).0);
    }
  }

  lemma {:induction false} AskedExactly(tickers: seq<string>, ticker: string)
    ensures ticker in Asked(tickers) <==> ticker in tickers && Supported(ticker)
  {
    if tickers != [] {
      AskedExactly(Front(tickers), ticker);
      assert tickers == Front(tickers) + [Last(tickers)];
    }
  }

  lemma {:induction false} AskedOnce(tickers: seq<string>)
    requires Distinct(tickers)
    ensures Distinct(Asked(tickers))
  {
    if tickers != [] {
      AskedOnce(Front(tickers));
      AskedExactly(Front(tickers), Last(tickers));
    }
  }

  /** This ticker is asked for before that one exactly as popitem takes them: from the end of the table. */
  lemma {:induction false} AskedBackwards(tickers: seq<string>, i: nat, j: nat) returns (p: nat, q: nat)
    requires i < j < |Asked(tickers)|
    ensures q < p < |tickers| && tickers[p] == Asked(tickers)[i] && tickers[q] == Asked(tickers)[j]
  {
    if Supported(Last(tickers)) {
      if i > 0 {
        p, q := AskedBackwards(Front(tickers), i - 1, j - 1);
      } else {
        p := |tickers| - 1;
        assert Asked(Front(tickers))[j - 1] in Asked(Front(tickers));
        AskedExactly(Front(tickers), Asked(tickers)[j]);
        q :| 0 <= q < |tickers| - 1 && Front(tickers)[q] == Asked(tickers)[j];
      }
    } else {
      p, q := AskedBackwards(Front(tickers), i, j);
    }
  }

  lemma AskedAreSupported(tickers: seq<string>)
    ensures forall t :: t in Asked(tickers) ==> Supported(t)
  {
    forall t | t in Asked(tickers) ensures Supported(t) {
      AskedExactly(tickers, t);
    }
  }

  /** The run asks for exactly the supported tickers somebody is subscribed to, each once. */
  lemma AsksForSubscriptions(table: Table, ticker: string)
    requires DistinctTickers(table)
    ensures ticker in Asked(Watched(table)) <==>
            Supported(ticker) && exists i :: 0 <= i < |table| && table[i].0 == ticker && table[i].1 != []
    ensures Distinct(Asked(Watched(table)))
  {
    WatchedExactly(table, ticker);
    AskedExactly(Watched(table), ticker);
    WatchedOnce(table);
    AskedOnce(Watched(table));
  }

  // ---------------------------------------------------------------------------------------------
  // What a run does
  // ---------------------------------------------------------------------------------------------

  /** The request does not end the run. */
  predicate GoesThrough(db: Database, x: Exchange) {
    x.sends &&
    match x.reply
    case Nothing => true
    case Misspelt => true
    case Unusable => false
    case Quote(_, _) => x.engine && (db.known ==> OwnFate(db, x.syncFate, x.asyncFate).Commits?)
  }

  /** The engine comes up, and the one session it offers commits; an unknown database asks for none. */
  predicate Stores(db: Database, x: Exchange) {
    x.engine && (!db.known || (if db.isAsync then x.asyncFate else x.syncFate).Commits?)
  }

  /** What ends a run: a request that cannot be sent, a reply without a usable result, an insert that
      raises.  An empty reply, or one with the misspelt key, lets it go on. */
  lemma GoesThroughIff(db: Database, x: Exchange)
    ensures GoesThrough(db, x) <==> x.sends && !x.reply.Unusable? && (x.reply.Quote? ==> Stores(db, x))
    ensures x.sends && (x.reply.Nothing? || x.reply.Misspelt?) ==> GoesThrough(db, x)
  {
  }

  function OfDatabase(effects: seq<Effect<PriceRow>>): seq<Event> {
    seq(|effects|, i requires 0 <= i < |effects| => Db(effects[i]))
  }

  /** One request and what follows it. */
  function Round(db: Database, ticker: string, x: Exchange): seq<Event>
    requires Supported(ticker)
  {
    if !x.sends then []
    else
      [Sent(InstrumentOf(ticker)), Received(x.reply)] +
      if x.reply.Quote? && x.engine
      then OfDatabase(InsertEffects(db, PriceRow(ticker, x.reply.instrument, x.reply.prices), x.syncFate, x.asyncFate))
      else []
  }

  /** The whole run: the requests one after the other, up to the first that does not go through. */
  function Trace(db: Database, asked: seq<string>, xs: seq<Exchange>): seq<Event>
    requires |asked| == |xs| && forall t :: t in asked ==> Supported(t)
    decreases |asked|
  {
    if asked == [] then []
    else Round(db, asked[0], xs[0]) + if GoesThrough(db, xs[0]) then Trace(db, asked[1..], xs[1..]) else []
  }

  /** How many requests go through before the first that does not. */
  function Through(db: Database, xs: seq<Exchange>): (n: nat)
    ensures n <= |xs| && (forall i :: 0 <= i < n ==> GoesThrough(db, xs[i])) && (n < |xs| ==> !GoesThrough(db, xs[n]))
    decreases |xs|
  {
    if xs == [] || !GoesThrough(db, xs[0]) then 0 else 1 + Through(db, xs[1..])
  }

  predicate IsExecuted(e: Event) {
    e.Db? && e.effect.Executed?
  }

  predicate IsRow(e: Event, committed: bool) {
    e.Db? && if committed then e.effect.Committed? else e.effect.Executed?
  }

  /** The rows whose statement ran, or those that were committed. */
  function Rows(trace: seq<Event>, committed: bool): seq<PriceRow> {
    if trace == [] then []
    else (if IsRow(trace[0], committed) then [trace[0].effect.row] else []) + Rows(trace[1..], committed)
  }

  function ExecutedRows(trace: seq<Event>): seq<PriceRow> {
    Rows(trace, false)
  }

  function CommittedRows(trace: seq<Event>): seq<PriceRow> {
    Rows(trace, true)
  }

  lemma {:induction false} RowsOfBoth(a: seq<Event>, b: seq<Event>, committed: bool)
    ensures Rows(a + b, committed) == Rows(a, committed) + Rows(b, committed)
    decreases |a|
  {
    if a == [] {
      assert a + b == b;
    } else {
      RowsOfBoth(a[1..], b, committed);
      assert (a + b)[1..] == a[1..] + b;
      Regrouped(if IsRow(a[0], committed) then [a[0].effect.row] else [], Rows(a[1..], committed), Rows(b, committed));
    }
  }

  // ---------------------------------------------------------------------------------------------
  // Every row answers the request for its own ticker
  // ---------------------------------------------------------------------------------------------

  /** The statement at i directly follows the request for its row's own instrument and the reply the
      row was made of; at most a refused synchronous session comes between. */
  predicate AnswersOwnRequest(trace: seq<Event>, i: nat)
    requires i < |trace| && IsExecuted(trace[i])
  {
    var row := trace[i].effect.row;
    var back := if i > 0 && trace[i - 1] == Db(Refused) then 3 else 2;
    && back <= i
    && Supported(row.ticker)
    && trace[i - back] == Sent(InstrumentOf(row.ticker))
    && trace[i - back + 1] == Received(Quote(row.instrument, row.prices))
  }

  predicate AllAnswer(trace: seq<Event>) {
    forall i: nat :: i < |trace| && IsExecuted(trace[i]) ==> AnswersOwnRequest(trace, i)
  }

  /** Of two statements the second has a request of its own. */
  predicate SeparateRequests(trace: seq<Event>) {
    forall i, j :: 0 <= i < j < |trace| && IsExecuted(trace[i]) && IsExecuted(trace[j]) ==>
      exists k :: i < k < j && trace[k].Sent?
  }

  predicate StartsWithRequest(trace: seq<Event>) {
    trace != [] ==> trace[0].Sent?
  }

  lemma RoundAnswers(db: Database, ticker: string, x: Exchange)
    requires Supported(ticker)
    ensures AllAnswer(Round(db, ticker, x)) && StartsWithRequest(Round(db, ticker, x))
  {
  }

  lemma RoundSeparates(db: Database, ticker: string, x: Exchange)
    requires Supported(ticker)
    ensures SeparateRequests(Round(db, ticker, x))
  {
  }

  lemma AnswersTogether(a: seq<Event>, b: seq<Event>)
    requires AllAnswer(a) && AllAnswer(b) && StartsWithRequest(b)
    ensures AllAnswer(a + b)
  {
    var all, n := a + b, |a|;
    forall i: nat | i < |all| && IsExecuted(all[i]) ensures AnswersOwnRequest(all, i) {
      if i < n {
        assert AnswersOwnRequest(a, i);
      } else {
        assert AnswersOwnRequest(b, i - n);
        assert all[i] == b[i - n] && all[i - 1] == b[i - n - 1] && all[i - 2] == b[i - n - 2];
        assert i - n >= 3 ==> all[i - 3] == b[i - n - 3];
      }
    }
  }

  lemma SeparateTogether(a: seq<Event>, b: seq<Event>)
    requires SeparateRequests(a) && SeparateRequests(b) && StartsWithRequest(b)
    ensures SeparateRequests(a + b)
  {
    var all, n := a + b, |a|;
    forall i, j | 0 <= i < j < |all| && IsExecuted(all[i]) && IsExecuted(all[j])
      ensures exists k :: i < k < j && all[k].Sent?
    {
      if j < n {
        var k :| i < k < j && a[k].Sent?;
        assert all[k].Sent?;
      } else if i >= n {
        var k :| i - n < k < j - n && b[k].Sent?;
        assert all[n + k].Sent?;
      } else {
        assert all[n] == b[0];
      }
    }
  }

  /** Over any run, whatever the server and the database do, every statement that ran directly follows
      the request for its own ticker's instrument and holds what that reply said, and no request leads
      to two statements, not even when a commit fails and not even with the fallback. */
  lemma {:induction false} RowsAnswerTheirRequests(db: Database, asked: seq<string>, xs: seq<Exchange>)
    requires |asked| == |xs| && forall t :: t in asked ==> Supported(t)
    ensures var trace := Trace(db, asked, xs); AllAnswer(trace) && SeparateRequests(trace) && StartsWithRequest(trace)
    decreases |asked|
  {
    if asked != [] {
      RoundAnswers(db, asked[0], xs[0]);
      RoundSeparates(db, asked[0], xs[0]);
      if GoesThrough(db, xs[0]) {
        RowsAnswerTheirRequests(db, asked[1..], xs[1..]);
        AnswersTogether(Round(db, asked[0], xs[0]), Trace(db, asked[1..], xs[1..]));
        SeparateTogether(Round(db, asked[0], xs[0]), Trace(db, asked[1..], xs[1..]));
      } else {
        assert Trace(db, asked, xs) == Round(db, asked[0], xs[0]);
      }
    }
  }

  // ---------------------------------------------------------------------------------------------
  // Which rows a run leaves
  // ---------------------------------------------------------------------------------------------

  lemma RowsOfSession(row: PriceRow, fate: Fate, committed: bool)
    ensures Rows(OfDatabase(SessionEffects(row, fate)), committed)
            == if fate.Commits? || (fate.CommitFails? && !committed) then [row] else []
  {
    var events := OfDatabase(SessionEffects(row, fate));
    if fate.Commits? {
      var last := [Db(Committed(row))];
      assert last[1..] == [];
      assert Rows(last, committed) == if committed then [row] else [];
      assert events[1..] == last;
    } else if fate.CommitFails? {
      assert events[1..] == [];
    }
  }

  lemma RequestLeavesNoRow(instrument: string, reply: Reply, committed: bool)
    ensures Rows([Sent(instrument), Received(reply)], committed) == []
  {
    var last := [Received(reply)];
    assert last[1..] == [];
    assert Rows(last, committed) == [];
    assert [Sent(instrument), Received(reply)][1..] == last;
  }

  lemma RefusalLeavesNoRow(committed: bool)
    ensures Rows([Db(Refused)], committed) == []
  {
    assert [Db(Refused)][1..] == [];
  }

  /** The statement of the request runs; `committed` asks for its commit as well. */
  predicate Runs(db: Database, x: Exchange, committed: bool) {
    && x.sends && x.reply.Quote? && x.engine && db.known
    && (var fate := OwnFate(db, x.syncFate, x.asyncFate); fate.Commits? || (fate.CommitFails? && !committed))
  }

  /** The rows of one request: at most one is executed, and it is committed unless its commit failed. */
  lemma RowsOfRound(db: Database, ticker: string, x: Exchange, committed: bool)
    requires Supported(ticker)
    ensures Rows(Round(db, ticker, x), committed)
            == if Runs(db, x, committed) then [PriceRow(ticker, x.reply.instrument, x.reply.prices)] else []
  {
    if x.sends {
      var quiet := [Sent(InstrumentOf(ticker)), Received(x.reply)];
      RequestLeavesNoRow(InstrumentOf(ticker), x.reply, committed);
      if x.reply.Quote? && x.engine && db.known {
        RowsOfInsert(db, quiet, PriceRow(ticker, x.reply.instrument, x.reply.prices), x, committed);
      } else {
        assert Round(db, ticker, x) == quiet;
      }
    }
  }

  /** Without a quote nothing reaches the database. */
  lemma QuietRound(db: Database, ticker: string, x: Exchange)
    requires Supported(ticker) && x.sends && !x.reply.Quote?
    ensures Round(db, ticker, x) == [Sent(InstrumentOf(ticker)), Received(x.reply)]
    ensures ExecutedRows(Round(db, ticker, x)) == [] && CommittedRows(Round(db, ticker, x)) == []
  {
    RowsOfRound(db, ticker, x, false);
    RowsOfRound(db, ticker, x, true);
  }

  lemma RowsOfInsert(db: Database, quiet: seq<Event>, row: PriceRow, x: Exchange, committed: bool)
    requires Rows(quiet, committed) == [] && db.known
    ensures var fate := OwnFate(db, x.syncFate, x.asyncFate);
            Rows(quiet + OfDatabase(InsertEffects(db, row, x.syncFate, x.asyncFate)), committed)
            == if fate.Commits? || (fate.CommitFails? && !committed) then [row] else []
  {
    var session := OfDatabase(SessionEffects(row, OwnFate(db, x.syncFate, x.asyncFate)));
    RowsOfSession(row, OwnFate(db, x.syncFate, x.asyncFate), committed);
    if db.isAsync {
      RefusalLeavesNoRow(committed);
      RowsOfBoth([Db(Refused)], session, committed);
      RowsOfBoth(quiet, [Db(Refused)] + session, committed);
      assert OfDatabase(InsertEffects(db, row, x.syncFate, x.asyncFate)) == [Db(Refused)] + session;
    } else {
      RowsOfBoth(quiet, session, committed);
    }
  }

  lemma RowsOfTrace(db: Database, asked: seq<string>, xs: seq<Exchange>, committed: bool)
    requires |asked| == |xs| && asked != [] && forall t :: t in asked ==> Supported(t)
    ensures Rows(Trace(db, asked, xs), committed)
            == (if Runs(db, xs[0], committed) then [PriceRow(asked[0], xs[0].reply.instrument, xs[0].reply.prices)] else [])
               + (if GoesThrough(db, xs[0]) then Rows(Trace(db, asked[1..], xs[1..]), committed) else [])
  {
    RowsOfRound(db, asked[0], xs[0], committed);
    RowsOfBoth(Round(db, asked[0], xs[0]), if GoesThrough(db, xs[0]) then Trace(db, asked[1..], xs[1..]) else [], committed);
  }

  /** The i-th reply is a quote, and this is the row made of it. */
  predicate Quotes(asked: seq<string>, xs: seq<Exchange>, i: nat, row: PriceRow)
    requires |asked| == |xs| && i < |asked|
  {
    xs[i].reply == Quote(row.instrument, row.prices) && row.ticker == asked[i]
  }

  /** A row was executed exactly when it is made of one of the replies up to the first request that does
      not go through, and the statement of that request ran. */
  lemma {:induction false} ExecutedIffAnswered(db: Database, asked: seq<string>, xs: seq<Exchange>, row: PriceRow)
    requires |asked| == |xs| && forall t :: t in asked ==> Supported(t)
    ensures row in ExecutedRows(Trace(db, asked, xs)) <==>
            exists i: nat :: i < |asked| && i <= Through(db, xs) && Quotes(asked, xs, i, row) && Runs(db, xs[i], false)
    decreases |asked|
  {
    if asked != [] {
      RowsOfTrace(db, asked, xs, false);
      assert row == PriceRow(asked[0], row.instrument, row.prices) <==> row.ticker == asked[0];
      if GoesThrough(db, xs[0]) {
        ExecutedIffAnswered(db, asked[1..], xs[1..], row);
        assert Through(db, xs) == 1 + Through(db, xs[1..]);
        if i: nat :| i < |asked| && i <= Through(db, xs) && Quotes(asked, xs, i, row) && Runs(db, xs[i], false) {
          if i > 0 {
            assert Quotes(asked[1..], xs[1..], i - 1, row) && xs[1..][i - 1] == xs[i];
          }
        }
        if i: nat :| i < |asked| - 1 && i <= Through(db, xs[1..]) && Quotes(asked[1..], xs[1..], i, row) && Runs(db, xs[1..][i], false) {
          assert Quotes(asked, xs, i + 1, row) && xs[1..][i] == xs[i + 1];
        }
      }
      assert Runs(db, xs[0], false) && row == PriceRow(asked[0], xs[0].reply.instrument, xs[0].reply.prices) ==>
          Quotes(asked, xs, 0, row);
    }
  }

  /** So a run that was not aborted has executed exactly the rows of all quotes it received, on
      synchronous and on asynchronous databases alike; on a database of an unknown kind it has
      executed nothing. */
  lemma FinishedRunStoresEveryQuote(db: Database, asked: seq<string>, xs: seq<Exchange>, row: PriceRow)
    requires |asked| == |xs| && forall t :: t in asked ==> Supported(t)
    requires Through(db, xs) == |xs|
    ensures row in ExecutedRows(Trace(db, asked, xs)) <==>
            db.known && exists i: nat :: i < |asked| && Quotes(asked, xs, i, row)
  {
    ExecutedIffAnswered(db, asked, xs, row);
    forall i: nat | i < |asked| && Quotes(asked, xs, i, row) ensures Runs(db, xs[i], false) <==> db.known {
      assert GoesThrough(db, xs[i]);
    }
  }

  predicate OneRowPerTicker(rows: seq<PriceRow>) {
    forall i, j :: 0 <= i < j < |rows| ==> rows[i].ticker != rows[j].ticker
  }

  /** For distinct subscriptions no ticker gets two statements, however far the run got. */
  lemma {:induction false} ExecutedOnce(db: Database, asked: seq<string>, xs: seq<Exchange>)
    requires |asked| == |xs| && Distinct(asked) && forall t :: t in asked ==> Supported(t)
    ensures OneRowPerTicker(ExecutedRows(Trace(db, asked, xs)))
    decreases |asked|
  {
    if asked != [] {
      RowsOfTrace(db, asked, xs, false);
      if GoesThrough(db, xs[0]) {
        ExecutedOnce(db, asked[1..], xs[1..]);
        var rest := ExecutedRows(Trace(db, asked[1..], xs[1..]));
        forall j | 0 <= j < |rest| ensures rest[j].ticker != asked[0] {
          assert rest[j] in rest;
          ExecutedIffAnswered(db, asked[1..], xs[1..], rest[j]);
          var i: nat :| i < |asked| - 1 && i <= Through(db, xs[1..]) && Quotes(asked[1..], xs[1..], i, rest[j]) && Runs(db, xs[1..][i], false);
          assert rest[j].ticker == asked[i + 1];
        }
      }
    }
  }

  /** The statement of the request that ended the run ran all the same. */
  predicate EndsUncommitted(db: Database, xs: seq<Exchange>) {
    Through(db, xs) < |xs| && Runs(db, xs[Through(db, xs)], false)
  }

  /** One row in front of both. */
  lemma OneRowInFront(first: seq<PriceRow>, executed: seq<PriceRow>, committed: seq<PriceRow>)
    requires executed != [] && committed == Front(executed)
    ensures first + executed != [] && first + committed == Front(first + executed)
  {
  }

  lemma EndShifts(db: Database, xs: seq<Exchange>)
    requires xs != [] && GoesThrough(db, xs[0])
    ensures EndsUncommitted(db, xs) <==> EndsUncommitted(db, xs[1..])
    ensures Runs(db, xs[0], true) == Runs(db, xs[0], false)
  {
  }

  lemma EndsHere(db: Database, xs: seq<Exchange>)
    requires xs != [] && !GoesThrough(db, xs[0])
    ensures EndsUncommitted(db, xs) <==> Runs(db, xs[0], false)
    ensures !Runs(db, xs[0], true)
  {
  }

  /** The committed rows are the executed ones, but for one more statement exactly when the run was
      aborted by the failing commit of it. */
  lemma {:induction false} CommitsAllButTheLast(db: Database, asked: seq<string>, xs: seq<Exchange>)
    requires |asked| == |xs| && forall t :: t in asked ==> Supported(t)
    ensures var executed, committed := ExecutedRows(Trace(db, asked, xs)), CommittedRows(Trace(db, asked, xs));
            if EndsUncommitted(db, xs) then executed != [] && committed == Front(executed) else committed == executed
    decreases |asked|
  {
    if asked != [] {
      RowsOfTrace(db, asked, xs, false);
      RowsOfTrace(db, asked, xs, true);
      if GoesThrough(db, xs[0]) {
        CommitsAllButTheLast(db, asked[1..], xs[1..]);
        EndShifts(db, xs);
        if EndsUncommitted(db, xs) {
          var first := if Runs(db, xs[0], false) then [PriceRow(asked[0], xs[0].reply.instrument, xs[0].reply.prices)] else [];
          OneRowInFront(first, ExecutedRows(Trace(db, asked[1..], xs[1..])), CommittedRows(Trace(db, asked[1..], xs[1..])));
        }
      } else {
        EndsHere(db, xs);
      }
    }
  }

  // ---------------------------------------------------------------------------------------------
  // Which requests a run makes
  // ---------------------------------------------------------------------------------------------

  function Requests(trace: seq<Event>): seq<string> {
    if trace == [] then []
    else (if trace[0].Sent? then [trace[0].instrument] else []) + Requests(trace[1..])
  }

  lemma {:induction false} RequestsOfBoth(a: seq<Event>, b: seq<Event>)
    ensures Requests(a + b) == Requests(a) + Requests(b)
    decreases |a|
  {
    if a == [] {
      assert a + b == b;
    } else {
      RequestsOfBoth(a[1..], b);
      assert (a + b)[1..] == a[1..] + b;
    }
  }

  lemma {:induction false} QuietAfterTheReply(effects: seq<Effect<PriceRow>>)
    ensures Requests(OfDatabase(effects)) == []
  {
    if effects != [] {
      QuietAfterTheReply(effects[1..]);
      assert OfDatabase(effects)[1..] == OfDatabase(effects[1..]);
    }
  }

  lemma RequestOfRound(db: Database, ticker: string, x: Exchange)
    requires Supported(ticker)
    ensures Requests(Round(db, ticker, x)) == if x.sends then [InstrumentOf(ticker)] else []
  {
    if x.sends {
      var round := Round(db, ticker, x);
      var effects := InsertEffects(db, PriceRow(ticker, if x.reply.Quote? then x.reply.instrument else None,
                                                if x.reply.Quote? then x.reply.prices else ""), x.syncFate, x.asyncFate);
      QuietAfterTheReply(effects);
      var tail := round[1..][1..];
      assert tail == [] || tail == OfDatabase(effects);
      assert Requests(round[1..]) == [];
    }
  }

  lemma RequestsOfTrace(db: Database, asked: seq<string>, xs: seq<Exchange>)
    requires |asked| == |xs| && asked != [] && forall t :: t in asked ==> Supported(t)
    ensures Requests(Trace(db, asked, xs))
            == (if xs[0].sends then [InstrumentOf(asked[0])] else [])
               + (if GoesThrough(db, xs[0]) then Requests(Trace(db, asked[1..], xs[1..])) else [])
  {
    RequestOfRound(db, asked[0], xs[0]);
    RequestsOfBoth(Round(db, asked[0], xs[0]), if GoesThrough(db, xs[0]) then Trace(db, asked[1..], xs[1..]) else []);
  }

  /** How many requests a run sends: those that go through, and the one that does not unless it could
      not even be sent. */
  function SentCount(db: Database, xs: seq<Exchange>): (n: nat)
    ensures n <= |xs|
  {
    var n := Through(db, xs);
    if n < |xs| && xs[n].sends then n + 1 else n
  }

  /** A run asks for its tickers' instruments in order, up to the first request that does not go
      through. */
  lemma {:induction false} RequestsInOrder(db: Database, asked: seq<string>, xs: seq<Exchange>)
    requires |asked| == |xs| && forall t :: t in asked ==> Supported(t)
    ensures |Requests(Trace(db, asked, xs))| == SentCount(db, xs)
    ensures forall i :: 0 <= i < SentCount(db, xs) ==> Requests(Trace(db, asked, xs))[i] == InstrumentOf(asked[i])
    decreases |asked|
  {
    if asked != [] {
      RequestsOfTrace(db, asked, xs);
      if GoesThrough(db, xs[0]) {
        RequestsInOrder(db, asked[1..], xs[1..]);
        SentOneMore(db, xs);
        OneInFront(Requests(Trace(db, asked[1..], xs[1..])), asked);
      }
    }
  }

  lemma SentOneMore(db: Database, xs: seq<Exchange>)
    requires xs != [] && GoesThrough(db, xs[0])
    ensures SentCount(db, xs) == 1 + SentCount(db, xs[1..])
  {
  }

  lemma OneInFront(rest: seq<string>, asked: seq<string>)
    requires asked != [] && |rest| <= |asked| - 1 && forall t :: t in asked ==> Supported(t)
    requires forall i :: 0 <= i < |rest| ==> rest[i] == InstrumentOf(asked[1..][i])
    ensures var sent := [InstrumentOf(asked[0])] + rest;
            forall i :: 0 <= i < |sent| ==> sent[i] == InstrumentOf(asked[i])
  {
    var sent := [InstrumentOf(asked[0])] + rest;
    forall i | 0 <= i < |sent| ensures sent[i] == InstrumentOf(asked[i]) {
      if i > 0 {
        assert sent[i] == rest[i - 1] && asked[1..][i - 1] == asked[i];
      }
    }
  }

  // ---------------------------------------------------------------------------------------------
  // The loop
  // ---------------------------------------------------------------------------------------------

  lemma TraceOneMore(db: Database, asked: seq<string>, xs: seq<Exchange>, n: nat)
    requires |asked| == |xs| && n < |asked| && forall t :: t in asked ==> Supported(t)
    ensures Trace(db, asked[n..], xs[n..])
            == Round(db, asked[n], xs[n]) + if GoesThrough(db, xs[n]) then Trace(db, asked[n + 1..], xs[n + 1..]) else []
    ensures Through(db, xs[n..]) == if GoesThrough(db, xs[n]) then 1 + Through(db, xs[n + 1..]) else 0
  {
    assert asked[n..][1..] == asked[n + 1..] && xs[n..][1..] == xs[n + 1..];
  }

  /** The first n requests went through and left the trace `done`; the rest of the run is to come. */
  ghost predicate Remains(db: Database, asked: seq<string>, xs: seq<Exchange>, n: nat, done: seq<Event>)
    requires |asked| == |xs| && forall t :: t in asked ==> Supported(t)
  {
    && n <= |asked| && Through(db, xs) == n + Through(db, xs[n..])
    && Trace(db, asked, xs) == done + Trace(db, asked[n..], xs[n..])
  }

  lemma RoundDone(db: Database, asked: seq<string>, xs: seq<Exchange>, n: nat, done: seq<Event>)
    requires |asked| == |xs| && forall t :: t in asked ==> Supported(t)
    requires n < |asked| && Remains(db, asked, xs, n, done)
    ensures var more := done + Round(db, asked[n], xs[n]);
            if GoesThrough(db, xs[n]) then Remains(db, asked, xs, n + 1, more)
            else Trace(db, asked, xs) == more && Through(db, xs) == n
  {
    TraceOneMore(db, asked, xs, n);
    var rest := if GoesThrough(db, xs[n]) then Trace(db, asked[n + 1..], xs[n + 1..]) else [];
    Regrouped(done, Round(db, asked[n], xs[n]), rest);
  }

  lemma NextAsked(asked: seq<string>, n: nat, ticker: string, rest: seq<string>)
    requires n <= |asked| && asked[n..] == [ticker] + rest
    ensures n < |asked| && asked[n] == ticker && rest == asked[n + 1..]
  {
  }

  class Fetcher {
    const connection: Connection<PriceRow>
    var instrumentName: Option<string>     // in the params of the one request object
    ghost var trace: seq<Event>

    constructor (connection: Connection<PriceRow>)
      ensures this.connection == connection && trace == []
    {
      this.connection, instrumentName, trace := connection, None, [];
    }

    /** The insert of a reply. */
    method Store(ticker: string, x: Exchange) returns (ok: bool, ghost after: seq<Event>)
      requires Supported(ticker) && x.sends && x.reply.Quote?
      modifies this`trace, connection
      ensures ok <==> GoesThrough(connection.db, x)
      ensures trace == old(trace) + after && [Sent(InstrumentOf(ticker)), Received(x.reply)] + after == Round(connection.db, ticker, x)
      ensures connection.executed == old(connection.executed) + ExecutedRows(Round(connection.db, ticker, x))
      ensures connection.committed == old(connection.committed) + CommittedRows(Round(connection.db, ticker, x))
    {
      RowsOfRound(connection.db, ticker, x, false);
      RowsOfRound(connection.db, ticker, x, true);
      ok := connection.InitEngine(x.engine);
      after := [];
      if ok {
        var row := PriceRow(ticker, x.reply.instrument, x.reply.prices);
        ok := connection.Insert(row, x.syncFate, x.asyncFate);
        after := OfDatabase(InsertEffects(connection.db, row, x.syncFate, x.asyncFate));
        trace := trace + after;
      }
    }

    /** The body of the loop for a supported ticker; ok is false when it ends the run. */
    method FetchOne(ticker: string, x: Exchange) returns (ok: bool)
      requires Supported(ticker)
      modifies this, connection
      ensures ok <==> GoesThrough(connection.db, x)
      ensures trace == old(trace) + Round(connection.db, ticker, x)
      ensures connection.executed == old(connection.executed) + ExecutedRows(Round(connection.db, ticker, x))
      ensures connection.committed == old(connection.committed) + CommittedRows(Round(connection.db, ticker, x))
    {
      instrumentName := Some(INSTRUMENTS[Header(ticker)]);
      if !x.sends {
        return false;
      }
      trace := trace + [Sent(instrumentName.value), Received(x.reply)];
      match x.reply {
        case Quote(_, _) =>
          ghost var after;
          ok, after := Store(ticker, x);
          Regrouped(old(trace), [Sent(InstrumentOf(ticker)), Received(x.reply)], after);
        case _ =>
          QuietRound(connection.db, ticker, x);
          ok := !x.reply.Unusable?;
      }
    }

    /** The comprehension that builds full_list. */
    method FullList(table: Table) returns (fullList: seq<string>)
      ensures fullList == Watched(table)
    {
      fullList := [];
      var i := 0;
      while i < |table|
        invariant i <= |table| && fullList == Watched(table[..i])
      {
        assert Front(table[..i + 1]) == table[..i];
        if table[i].1 != [] {
          fullList := fullList + [table[i].0];
        }
        i := i + 1;
      }
      assert table[..i] == table;
    }

    /** The loop: finished is false when a request ended it. */
    method FetchAll(tickers: seq<string>, xs: seq<Exchange>) returns (finished: bool)
      requires |xs| == |Asked(tickers)| && forall t :: t in Asked(tickers) ==> Supported(t)
      modifies this, connection
      ensures finished <==> Through(connection.db, xs) == |xs|
      ensures trace == old(trace) + Trace(connection.db, Asked(tickers), xs)
      ensures connection.executed == old(connection.executed) + ExecutedRows(Trace(connection.db, Asked(tickers), xs))
      ensures connection.committed == old(connection.committed) + CommittedRows(Trace(connection.db, Asked(tickers), xs))
    {
      ghost var asked, db, done := Asked(tickers), connection.db, [];
      var fullList, n := tickers, 0;
      while fullList != []
        invariant Remains(db, asked, xs, n, done) && Asked(fullList) == asked[n..]
        invariant trace == old(trace) + done
        invariant connection.executed == old(connection.executed) + ExecutedRows(done)
        invariant connection.committed == old(connection.committed) + CommittedRows(done)
        decreases |fullList|
      {
        var ticker := Last(fullList);
        fullList := Front(fullList);
        if Header(ticker) in INSTRUMENTS {
          NextAsked(asked, n, ticker, Asked(fullList));
          RoundDone(db, asked, xs, n, done);
          ghost var round := Round(db, ticker, xs[n]);
          RowsOfBoth(done, round, false);
          RowsOfBoth(done, round, true);
          Regrouped(old(trace), done, round);
          Regrouped(old(connection.executed), ExecutedRows(done), ExecutedRows(round));
          Regrouped(old(connection.committed), CommittedRows(done), CommittedRows(round));
          var ok := FetchOne(ticker, xs[n]);
          done := done + round;
          if !ok {
            return false;
          }
          n := n + 1;
        }
      }
      Regrouped(done, done, done);
      finished := true;
    }

    /** One run.  `record` is the table in the cache, `xs` what would happen to the requests in order.
        The run ends, and does exactly what its trace says; it finishes exactly when every request goes
        through.  For a table without repeated tickers no ticker gets two statements, whether the run
        finishes or not, and unless it is aborted every statement is committed. */
    method Fetch(record: Option<Table>, xs: seq<Exchange>) returns (outcome: Outcome)
      requires record.Some? ==> |xs| == |Asked(Watched(record.value))|
      modifies this, connection
      ensures outcome.NothingToDo? <==> record.None? || Watched(record.value) == []
      ensures outcome.NothingToDo? ==>
                trace == old(trace) && connection.executed == old(connection.executed) && connection.committed == old(connection.committed)
      ensures record.Some? ==> forall t :: t in Asked(Watched(record.value)) ==> Supported(t)
      ensures !outcome.NothingToDo? ==>
                (outcome.Finished? <==> forall i :: 0 <= i < |xs| ==> GoesThrough(connection.db, xs[i]))
      ensures !outcome.NothingToDo? ==>
                (outcome.Finished? <==> forall x :: x in xs ==> x.sends && !x.reply.Unusable? && (x.reply.Quote? ==> Stores(connection.db, x)))
      ensures !outcome.NothingToDo? ==>
                var events := Trace(connection.db, Asked(Watched(record.value)), xs);
                && trace == old(trace) + events
                && connection.executed == old(connection.executed) + ExecutedRows(events)
                && connection.committed == old(connection.committed) + CommittedRows(events)
                && (DistinctTickers(record.value) ==> OneRowPerTicker(ExecutedRows(events)))
                && (outcome.Finished? ==> CommittedRows(events) == ExecutedRows(events))
    {
      if record.None? {
        return NothingToDo;
      }
      var fullList := FullList(record.value);
      AskedAreSupported(fullList);
      if fullList == [] {
        return NothingToDo;
      }
      var finished := FetchAll(fullList, xs);
      forall x | x in xs
        ensures GoesThrough(connection.db, x) <==> x.sends && !x.reply.Unusable? && (x.reply.Quote? ==> Stores(connection.db, x))
      {
        GoesThroughIff(connection.db, x);
      }
      outcome := if finished then Finished else Aborted;
      CommitsAllButTheLast(connection.db, Asked(fullList), xs);
      if DistinctTickers(record.value) {
        AsksForSubscriptions(record.value, "");
        ExecutedOnce(connection.db, Asked(fullList), xs);
      }
    }
  }
}
