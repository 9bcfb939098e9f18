/**
  The table of subscriptions per ticker and its copy in the cache server: create_order, cancel_order
  and cancel_all_orders of CryptoCurrency (cryptomarket/deribit_client/deribit_currency.py).

  Each handler is one function from the state before to the state and HTTP status after; handlers run
  one at a time.  `saved` says whether the cache server takes the write of a handler that makes one.
*/
module SubscriptionTable {
  import opened Prelude
  import opened BoundedDictionary
  import opened Settings

  datatype Market = Market(table: Dict<seq<string>>, record: Option<map<string, seq<string>>>)

  datatype Request =
    | Create(header: Option<string>, uuid: string)
    | Cancel
    | CancelAll

  /** persons: the registered ids, with their active flag. */
  datatype Call = Call(request: Request, user: Option<string>, ticker: Option<string>, persons: map<string, bool>, saved: bool)

  datatype Response = Response(market: Market, status: nat)

  function Fresh(): Market {
    Market(EmptyDict(), None)
  }

  function LowerChar(c: char): char {
    if 'A' <= c <= 'Z' then (c as int + 32) as char else c
  }

  function Lower(s: string): (r: string)
    ensures |r| == |s|
  {
    seq(|s|, i requires 0 <= i < |s| => LowerChar(s[i]))
  }

  predicate IsSpace(c: char) {
    c == ' ' || c == '\t' || c == '\n' || c == '\r'
  }

  function Strip(s: string): string
    decreases |s|
  {
    if s != [] && IsSpace(s[0]) then Strip(s[1..])
    else if s != [] && IsSpace(Last(s)) then Strip(Front(s))
    else s
  }

  /** list.remove: the first occurrence goes. */
  function RemoveFirst(s: seq<string>, x: string): seq<string> {
    RemoveKey(s, x)
  }

  /** __check_received_data: the HTTP status of the checks every handler starts with. */
  function Check(c: Call): nat {
    if c.user.None? || c.user.value !in c.persons then 401
    else if !c.persons[c.user.value] then 400
    else if c.ticker.None? || c.ticker.value !in CURRENCIES then 404
    else 200
  }

  /** set_cache: the whole table replaces the record, or the failed write is only logged. */
  function SetCache(m: Market, saved: bool): Market {
    if saved then m.(record := Some(m.table.data)) else m
  }

  function CreateOrder(m: Market, c: Call): Response
    requires Check(c) == 200 && c.request.Create?
  {
    var key := Lower(c.ticker.value);
    var d := m.table.data;
    if c.ticker.value !in d then
      var listed := if key in d then d[key] else [];
      var id := Strip(c.user.value);
      var table := if listed == [] then Write(m.table, DERIBIT_QUEUE_SIZE, key, [id]) else Assign(m.table, key, listed + [id]);
      Response(SetCache(m.(table := table), c.saved), 201)
    else if key !in d then Response(m, 500)
    else if c.user.value in d[key] then Response(m, 200)
    else
      var requestId := if c.request.header.Some? then c.request.header.value else c.request.uuid;
      var longer := d[key] + [requestId];
      Response(m.(table := Write(Assign(m.table, key, longer), DERIBIT_QUEUE_SIZE, key, longer)), 201)
  }

  function CancelOrder(m: Market, c: Call): Response
    requires Check(c) == 200
  {
    var key := Lower(c.ticker.value);
    if key !in m.table.data || m.table.data[key] == [] then Response(m, 404)
    else Response(SetCache(m.(table := Remove(m.table, key)), c.saved), 200)
  }

  /** Every list loses one occurrence of the user; then the assignment loop fails to unpack. */
  function CancelAllOrders(m: Market, c: Call): Response
    requires Check(c) == 200
  {
    var id := c.user.value;
    if !(exists k :: k in m.table.data && id in m.table.data[k]) then Response(m, 404)
    else
      var data := map k | k in m.table.data :: RemoveFirst(m.table.data[k], id);
      Response(m.(table := m.table.(data := data)), 500)
  }

  function Handle(m: Market, c: Call): Response {
    if Check(c) != 200 then Response(m, Check(c))
    else
      match c.request
      case Create(_, _) => CreateOrder(m, c)
      case Cancel => CancelOrder(m, c)
      case CancelAll => CancelAllOrders(m, c)
  }

  function HandleAll(m: Market, calls: seq<Call>): Market {
    if calls == [] then m else Handle(HandleAll(m, Front(calls)), Last(calls)).market
  }

  // ---------------------------------------------------------------------------------------------
  // The table stays small
  // ---------------------------------------------------------------------------------------------

  ghost predicate TableOk(m: Market) {
    WellFormed(m.table) && forall k :: k in m.table.keys ==> k in CURRENCIES
  }

  lemma TickersStayPut(t: string)
    requires t in CURRENCIES
    ensures Lower(t) == t
  {
    CurrenciesAreLowerCase(t);
  }

  /** There are far fewer tickers than places, so no write ever drops one. */
  lemma NeverFull(m: Market)
    requires TableOk(m)
    ensures |m.table.keys| <= |CURRENCIES| < DERIBIT_QUEUE_SIZE
  {
    forall k | k in m.table.keys ensures k in Elements(CURRENCIES) {}
    DistinctFits(m.table.keys, Elements(CURRENCIES));
    ElementsFit(CURRENCIES);
  }

  /** The set of tickers after a handler. */
  function TickersAfter(m: Market, c: Call): set<string> {
    var listed := m.table.data.Keys;
    if Check(c) != 200 then listed
    else if c.request.Create? then listed + {c.ticker.value}
    else if c.request.Cancel? && c.ticker.value in listed && m.table.data[c.ticker.value] != [] then listed - {c.ticker.value}
    else listed
  }

  lemma CreateTable(m: Market, c: Call)
    requires TableOk(m) && Check(c) == 200 && c.request.Create?
    ensures TableOk(CreateOrder(m, c).market)
    ensures CreateOrder(m, c).market.table.data.Keys == m.table.data.Keys + {c.ticker.value}
  {
    TickersStayPut(c.ticker.value);
    NeverFull(m);
  }

  lemma CancelTable(m: Market, c: Call)
    requires TableOk(m) && Check(c) == 200
    ensures TableOk(CancelOrder(m, c).market)
    ensures CancelOrder(m, c).market.table.data.Keys == TickersAfter(m, c.(request := Cancel))
  {
    TickersStayPut(c.ticker.value);
    RemovedKeys(m.table.keys, c.ticker.value);
  }

  lemma HandleTable(m: Market, c: Call)
    requires TableOk(m)
    ensures TableOk(Handle(m, c).market)
    ensures Handle(m, c).market.table.data.Keys == TickersAfter(m, c)
  {
    if Check(c) == 200 {
      match c.request
      case Create(_, _) => CreateTable(m, c);
      case Cancel => CancelTable(m, c);
      case CancelAll =>
    }
  }

  /** The record's tickers; an absent record is an empty one. */
  function RecordTickers(m: Market): set<string> {
    if m.record.None? then {} else m.record.value.Keys
  }

  lemma {:induction false} TableAlwaysOk(calls: seq<Call>)
    ensures TableOk(HandleAll(Fresh(), calls))
  {
    if calls != [] {
      TableAlwaysOk(Front(calls));
      HandleTable(HandleAll(Fresh(), Front(calls)), Last(calls));
    }
  }

  /** A handler whose cache write works leaves the record's tickers in step if they were. */
  lemma RecordStep(m: Market, c: Call)
    requires TableOk(m) && RecordTickers(m) == m.table.data.Keys && c.saved
    ensures RecordTickers(Handle(m, c).market) == Handle(m, c).market.table.data.Keys
  {
    HandleTable(m, c);
    if Check(c) == 200 {
      TickersStayPut(c.ticker.value);
    }
  }

  /** Over every run of handlers the table's tickers stay within the supported ones and the size cap
      is never reached; and when the cache server takes every write, the record names exactly the
      tickers of the table. */
  lemma {:induction false} TickersInStep(calls: seq<Call>)
    ensures TableOk(HandleAll(Fresh(), calls)) && |HandleAll(Fresh(), calls).table.keys| < DERIBIT_QUEUE_SIZE
    ensures (forall c :: c in calls ==> c.saved) ==>
              RecordTickers(HandleAll(Fresh(), calls)) == HandleAll(Fresh(), calls).table.data.Keys
  {
    TableAlwaysOk(calls);
    NeverFull(HandleAll(Fresh(), calls));
    if calls != [] && forall c :: c in calls ==> c.saved {
      TickersInStep(Front(calls));
      TableAlwaysOk(Front(calls));
      assert Last(calls) in calls;
      forall d | d in Front(calls) ensures d in calls {}
      RecordStep(HandleAll(Fresh(), Front(calls)), Last(calls));
    }
  }

  // ---------------------------------------------------------------------------------------------
  // What the handlers do to subscribers
  // ---------------------------------------------------------------------------------------------

  predicate Subscribed(m: Market, ticker: string, id: string) {
    ticker in m.table.data && id in m.table.data[ticker]
  }

  function RequestId(c: Call): string
    requires c.request.Create?
  {
    if c.request.header.Some? then c.request.header.value else c.request.uuid
  }

  /** What is stripped is space at both ends, and all of it. */
  lemma {:induction false} StripSpec(s: string) returns (before: string, after: string)
    ensures s == before + Strip(s) + after
    ensures forall c :: c in before + after ==> c == ' ' || c == '\t' || c == '\n' || c == '\r'
    ensures Strip(s) != "" ==> !IsSpace(Strip(s)[0]) && !IsSpace(Last(Strip(s)))
    decreases |s|
  {
    if s != [] && IsSpace(s[0]) {
      var b;
      b, after := StripSpec(s[1..]);
      before := [s[0]] + b;
      assert forall c :: c in before + after ==> c == s[0] || c in b + after;
    } else if s != [] && IsSpace(Last(s)) {
      var a;
      before, a := StripSpec(Front(s));
      after := a + [Last(s)];
      assert forall c :: c in before + after ==> c == Last(s) || c in before + a;
    } else {
      before, after := "", "";
    }
  }

  lemma SpaceIs(c: char)
    ensures IsSpace(c) <==> c == ' ' || c == '\t' || c == '\n' || c == '\r'
  {
  }

  /** The caller is registered, active, and names a ticker that may be chosen. */
  predicate Admitted(c: Call) {
    c.user.Some? && c.user.value in c.persons && c.persons[c.user.value] && c.ticker.Some? && c.ticker.value in CURRENCIES
  }

  /** The status of every answer.  401 is for unknown users, 400 for inactive ones, 404 for tickers that
      may not be chosen; a create adds (201) or finds the user listed (200); a cancel, or a cancel_all,
      finds nothing to cancel (404); and a cancel_all that finds something fails (500). */
  lemma StatusIs(m: Market, c: Call)
    requires TableOk(m)
    ensures Handle(m, c).status == 401 <==> c.user.None? || c.user.value !in c.persons
    ensures Handle(m, c).status == 400 <==> c.user.Some? && c.user.value in c.persons && !c.persons[c.user.value]
    ensures !Admitted(c) ==> Handle(m, c).market == m && Handle(m, c).status in {400, 401, 404}
    ensures Admitted(c) && c.request.Create? ==>
              Handle(m, c).status == if Subscribed(m, c.ticker.value, c.user.value) then 200 else 201
    ensures Admitted(c) && c.request.Cancel? ==>
              Handle(m, c).status == if c.ticker.value in m.table.data && |m.table.data[c.ticker.value]| > 0 then 200 else 404
    ensures Admitted(c) && c.request.CancelAll? ==>
              Handle(m, c).status == if exists t :: Subscribed(m, t, c.user.value) then 500 else 404
  {
    assert Check(c) == 200 <==> Admitted(c);
    if Admitted(c) {
      TickersStayPut(c.ticker.value);
      if c.request.CancelAll? {
        if t :| Subscribed(m, t, c.user.value) {
          assert t in m.table.data && c.user.value in m.table.data[t];
        }
        if k :| k in m.table.data && c.user.value in m.table.data[k] {
          assert Subscribed(m, k, c.user.value);
        }
      }
    }
  }

  /** A create whose user is listed already changes nothing. */
  lemma CreateAgain(m: Market, c: Call)
    requires TableOk(m) && c.request.Create? && Handle(m, c).status == 200
    ensures Handle(m, c).market == m
  {
    StatusIs(m, c);
    if Check(c) == 200 {
      TickersStayPut(c.ticker.value);
    }
  }

  /** The id a create answered with 201 lists: the stripped user id under a new ticker, and a request id
      instead of the user under one that somebody already watches. */
  function ListedId(m: Market, c: Call): string
    requires c.request.Create? && Check(c) == 200
  {
    if c.ticker.value in m.table.data then RequestId(c) else Strip(c.user.value)
  }

  /** A create answered with 201 lists exactly one id more, under its own ticker.  So it has subscribed
      the user exactly when the ticker was new and the id is its own stripped form, or when the request id
      happens to be the user's id. */
  lemma CreateSubscribes(m: Market, c: Call, other: string, id: string)
    requires TableOk(m) && c.request.Create? && Handle(m, c).status == 201
    ensures var n, t, user := Handle(m, c).market, c.ticker.value, c.user.value;
            && (Subscribed(n, other, id) <==> Subscribed(m, other, id) || (other == t && id == ListedId(m, c)))
            && (Subscribed(n, t, user) <==>
                if t !in m.table.data then Strip(user) == user
                else match c.request.header
                     case Some(header) => header == user
                     case None => c.request.uuid == user)
  {
    TickersStayPut(c.ticker.value);
    NeverFull(m);
  }

  /** The id comes last in its ticker's list, a new ticker last in the table; every other list and the order
      of the tickers stay as they are. */
  lemma CreateAppends(m: Market, c: Call)
    requires TableOk(m) && c.request.Create? && Handle(m, c).status == 201
    ensures var n, t := Handle(m, c).market, c.ticker.value;
            && t in n.table.data && n.table.data[t] == (if t in m.table.data then m.table.data[t] else []) + [ListedId(m, c)]
            && n.table.keys == (if t in m.table.data then m.table.keys else m.table.keys + [t])
            && forall o :: o != t ==> (o in n.table.data <==> o in m.table.data) && (o in m.table.data ==> n.table.data[o] == m.table.data[o])
  {
    TickersStayPut(c.ticker.value);
    NeverFull(m);
  }

  /** A cancel leaves every other list and the order of the other tickers as they are. */
  lemma CancelKeepsOthers(m: Market, c: Call, before: seq<string>, after: seq<string>)
    requires TableOk(m) && c.request.Cancel? && Handle(m, c).status == 200
    requires m.table.keys == before + [c.ticker.value] + after && c.ticker.value !in before
    ensures Handle(m, c).market.table.keys == before + after
    ensures Handle(m, c).market.table.data == m.table.data - {c.ticker.value}
  {
    if Check(c) == 200 {
      TickersStayPut(c.ticker.value);
      RemovedOrder(m.table.keys, c.ticker.value);
    }
  }

  /** A cancel answered with 200 drops the ticker for everyone and nothing else. */
  lemma CancelDropsTicker(m: Market, c: Call, other: string, id: string)
    requires TableOk(m) && c.request.Cancel?
    ensures Handle(m, c).status == 200 <==>
            Check(c) == 200 && c.ticker.value in m.table.data && m.table.data[c.ticker.value] != []
    ensures Handle(m, c).status == 200 ==>
              (Subscribed(Handle(m, c).market, other, id) <==> Subscribed(m, other, id) && other != c.ticker.value)
    ensures Handle(m, c).status != 200 ==> Handle(m, c).market == m
  {
    if Check(c) == 200 {
      TickersStayPut(c.ticker.value);
    }
  }

  lemma {:induction false} RemoveFirstCounts(s: seq<string>, x: string)
    ensures multiset(RemoveFirst(s, x)) == multiset(s) - multiset{x}
  {
    if s != [] {
      assert s == [s[0]] + s[1..];
      if s[0] != x {
        RemoveFirstCounts(s[1..], x);
      }
    }
  }

  /** list.remove takes the first occurrence and leaves the order of the others. */
  lemma RemoveFirstOrder(s: seq<string>, x: string, before: seq<string>, after: seq<string>)
    requires s == before + [x] + after && x !in before
    ensures RemoveFirst(s, x) == before + after
  {
    RemovedOrder(s, x);
  }

  /** cancel_all never succeeds.  For a listed user it answers 500 after it took one occurrence of
      the user out of every list, and the record still holds the old lists. */
  lemma CancelAllFails(m: Market, c: Call)
    requires TableOk(m) && c.request.CancelAll?
    ensures Handle(m, c).status != 200 && Handle(m, c).market.record == m.record
    ensures Handle(m, c).status == 500 <==> Check(c) == 200 && exists k :: k in m.table.data && c.user.value in m.table.data[k]
    ensures Handle(m, c).status != 500 ==> Handle(m, c).market == m
    ensures Handle(m, c).status == 500 ==>
              && Handle(m, c).market.table.data.Keys == m.table.data.Keys && Handle(m, c).market.table.keys == m.table.keys
              && forall k :: k in m.table.data ==>
                 Handle(m, c).market.table.data[k] == RemoveFirst(m.table.data[k], c.user.value) &&
                 multiset(Handle(m, c).market.table.data[k]) == multiset(m.table.data[k]) - multiset{c.user.value}
  {
    forall s: seq<string>, x: string ensures multiset(RemoveFirst(s, x)) == multiset(s) - multiset{x} {
      RemoveFirstCounts(s, x);
    }
  }

  // ---------------------------------------------------------------------------------------------
  // The record's contents
  // ---------------------------------------------------------------------------------------------

  /** The cache server holds the table as it is. */
  predicate InSync(m: Market) {
    (if m.record.None? then map[] else m.record.value) == m.table.data
  }

  /** The two edits that do not refresh the record: a create for a ticker others watch, and a
      cancel_all by a listed user. */
  predicate EditsSilently(m: Market, c: Call) {
    Check(c) == 200 &&
    match c.request
    case Create(_, _) => c.ticker.value in m.table.data && c.user.value !in m.table.data[c.ticker.value]
    case Cancel => false
    case CancelAll => exists k :: k in m.table.data && c.user.value in m.table.data[k]
  }

  /** From a state in sync, with a working cache server, a handler leaves the record in sync exactly
      when it is not one of the two silent edits. */
  lemma SyncIsLostBySilentEdits(m: Market, c: Call)
    requires TableOk(m) && InSync(m) && c.saved
    ensures InSync(Handle(m, c).market) <==> !EditsSilently(m, c)
  {
    if Check(c) == 200 {
      var t := c.ticker.value;
      TickersStayPut(t);
      NeverFull(m);
      var n := Handle(m, c).market;
      match c.request
      case Create(_, _) =>
        if EditsSilently(m, c) {
          assert n.table.data[t] == m.table.data[t] + [RequestId(c)];
          assert |n.table.data[t]| == |m.table.data[t]| + 1;
        }
      case Cancel =>
      case CancelAll =>
        if k :| k in m.table.data && c.user.value in m.table.data[k] {
          RemoveFirstCounts(m.table.data[k], c.user.value);
          assert multiset(n.table.data[k]) == multiset(m.table.data[k]) - multiset{c.user.value};
          assert c.user.value in multiset(m.table.data[k]);
        }
    }
  }

  /** A handler that saves the table: the first create for a ticker, or a cancel that succeeds. */
  predicate Saves(m: Market, c: Call) {
    Check(c) == 200 &&
    match c.request
    case Create(_, _) => c.ticker.value !in m.table.data
    case Cancel => Handle(m, c).status == 200
    case CancelAll => false
  }

  /** The table as it was after the last handler of the run that saves it with success. */
  function LastSaved(calls: seq<Call>): Option<map<string, seq<string>>> {
    if calls == [] then None
    else if Last(calls).saved && Saves(HandleAll(Fresh(), Front(calls)), Last(calls)) then Some(HandleAll(Fresh(), calls).table.data)
    else LastSaved(Front(calls))
  }

  /** Over every run of handlers the record is the table as of the last handler that saved it. */
  lemma {:induction false} RecordIsLastSaved(calls: seq<Call>)
    ensures HandleAll(Fresh(), calls).record == LastSaved(calls)
  {
    if calls != [] {
      RecordIsLastSaved(Front(calls));
      TableAlwaysOk(Front(calls));
      SavesOrNot(HandleAll(Fresh(), Front(calls)), Last(calls));
    }
  }

  lemma SavesOrNot(m: Market, c: Call)
    requires TableOk(m)
    ensures Handle(m, c).market.record == if c.saved && Saves(m, c) then Some(Handle(m, c).market.table.data) else m.record
  {
    if Check(c) == 200 {
      TickersStayPut(c.ticker.value);
    }
  }

  /** A listed id stays listed unless its ticker is cancelled or the id itself cancels everything. */
  lemma StaysSubscribed(m: Market, c: Call, ticker: string, id: string)
    requires TableOk(m) && Subscribed(m, ticker, id)
    requires !(c.request.Cancel? && c.ticker == Some(ticker)) && !(c.request.CancelAll? && c.user == Some(id))
    ensures Subscribed(Handle(m, c).market, ticker, id)
  {
    if Check(c) == 200 {
      match c.request
      case Create(_, _) =>
        if Handle(m, c).status == 201 {
          CreateSubscribes(m, c, ticker, id);
        }
      case Cancel => CancelDropsTicker(m, c, ticker, id);
      case CancelAll =>
        var list := m.table.data[ticker];
        RemoveFirstCounts(list, c.user.value);
        assert id in multiset(list);
        assert id in multiset(RemoveFirst(list, c.user.value));
    }
  }

  // ---------------------------------------------------------------------------------------------
  // The object
  // ---------------------------------------------------------------------------------------------

  class CryptoCurrency {
    const currencyDict: FifoDictionary<seq<string>>
    var status: nat
    var record: Option<map<string, seq<string>>>   // the cache server's record

    ghost predicate Valid()
      reads this, currencyDict
    {
      currencyDict.maxsize == Some(DERIBIT_QUEUE_SIZE) && WellFormed(currencyDict.View())
    }

    ghost function View(): Market
      reads this, currencyDict
    {
      Market(currencyDict.View(), record)
    }

    constructor ()
      ensures Valid() && fresh(currencyDict) && View() == Fresh()
    {
      currencyDict := new FifoDictionary(Some(DERIBIT_QUEUE_SIZE));
      status, record := 200, None;
    }

    method SaveTable(saved: bool)
      modifies this
      ensures View() == SetCache(old(View()), saved) && status == old(status)
    {
      if saved {
        record := Some(currencyDict.data);
      }
    }

    method HandleCreate(c: Call)
      requires Valid() && c.request.Create? && Check(c) == 200
      modifies this, currencyDict
      ensures Valid() && Response(View(), status) == CreateOrder(old(View()), c)
    {
      status := 201;
      var key := Lower(c.ticker.value);
      if c.ticker.value !in currencyDict.data {
        var id := Strip(c.user.value);
        if key !in currencyDict.data || currencyDict.data[key] == [] {
          var _ := currencyDict.SetItem(Some(key), Some([id]));
        } else {
          currencyDict.Mutate(key, currencyDict.data[key] + [id]);
        }
        SaveTable(c.saved);
      } else if key !in currencyDict.data {
        status := 500;
      } else if c.user.value in currencyDict.data[key] {
        status := 200;
      } else {
        var longer := currencyDict.data[key] + [if c.request.header.Some? then c.request.header.value else c.request.uuid];
        currencyDict.Mutate(key, longer);
        var _ := currencyDict.SetItem(Some(key), Some(longer));
      }
    }

    method HandleCancel(c: Call)
      requires Valid() && Check(c) == 200
      modifies this, currencyDict
      ensures Valid() && Response(View(), status) == CancelOrder(old(View()), c)
    {
      var key := Lower(c.ticker.value);
      if key !in currencyDict.data || currencyDict.data[key] == [] {
        status := 404;
      } else {
        currencyDict.Delete(key);
        SaveTable(c.saved);
        SaveTable(c.saved);
        status := 200;
      }
    }

    /** The lists are edited one after the other in the order of the table. */
    method HandleCancelAll(c: Call)
      requires Valid() && Check(c) == 200
      modifies this, currencyDict
      ensures Valid() && Response(View(), status) == CancelAllOrders(old(View()), c)
    {
      var id := c.user.value;
      status := 404;
      var i := 0;
      while i < |currencyDict.keys|
        invariant Valid() && currencyDict.keys == old(currencyDict.keys) && record == old(record)
        invariant i <= |currencyDict.keys|
        invariant currencyDict.data == EditedUpTo(old(currencyDict.View()), i, id)
        invariant status == if ListedUpTo(old(currencyDict.View()), i, id) then 500 else 404
      {
        EditOneMore(old(currencyDict.View()), i, id);
        var key := currencyDict.keys[i];
        if id in currencyDict.data[key] {
          status := 500;
          currencyDict.Mutate(key, RemoveFirst(currencyDict.data[key], id));
        }
        i := i + 1;
      }
      EditedAll(old(currencyDict.View()), id);
    }

    /** Any of the three requests: the checks first, then its handler. */
    method Serve(c: Call)
      requires Valid()
      modifies this, currencyDict
      ensures Valid() && Response(View(), status) == Handle(old(View()), c)
    {
      status := Check(c);
      if status == 200 {
        match c.request
        case Create(_, _) => HandleCreate(c);
        case Cancel => HandleCancel(c);
        case CancelAll => HandleCancelAll(c);
      }
    }
  }

  /** The lists after the first i tickers of the table were visited. */
  function EditedUpTo(d: Dict<seq<string>>, i: nat, id: string): map<string, seq<string>>
    requires i <= |d.keys|
  {
    map k | k in d.data :: if k in d.keys[..i] then RemoveFirst(d.data[k], id) else d.data[k]
  }

  predicate ListedUpTo(d: Dict<seq<string>>, i: nat, id: string)
    requires i <= |d.keys|
  {
    exists j :: 0 <= j < i && d.keys[j] in d.data && id in d.data[d.keys[j]]
  }

  lemma VisitedGrows(keys: seq<string>, i: nat)
    requires Distinct(keys) && i < |keys|
    ensures keys[i] !in keys[..i]
    ensures forall k :: k in keys[..i + 1] <==> k in keys[..i] || k == keys[i]
  {
  }

  lemma EditOneMore(d: Dict<seq<string>>, i: nat, id: string)
    requires WellFormed(d) && i < |d.keys|
    ensures d.keys[i] in d.data && EditedUpTo(d, i, id)[d.keys[i]] == d.data[d.keys[i]]
    ensures EditedUpTo(d, i + 1, id) ==
            (if id in d.data[d.keys[i]] then EditedUpTo(d, i, id)[d.keys[i] := RemoveFirst(d.data[d.keys[i]], id)]
             else EditedUpTo(d, i, id))
    ensures ListedUpTo(d, i + 1, id) <==> ListedUpTo(d, i, id) || id in d.data[d.keys[i]]
  {
    var key := d.keys[i];
    assert key in d.keys;
    VisitedGrows(d.keys, i);
    var before, after := EditedUpTo(d, i, id), EditedUpTo(d, i + 1, id);
    assert after == before[key := RemoveFirst(d.data[key], id)];
    if id !in d.data[key] {
      RemoveAbsent(d.data[key], id);
      assert before[key := d.data[key]] == before;
    }
  }

  lemma EditedAll(d: Dict<seq<string>>, id: string)
    requires WellFormed(d)
    ensures EditedUpTo(d, |d.keys|, id) == map k | k in d.data :: RemoveFirst(d.data[k], id)
    ensures ListedUpTo(d, |d.keys|, id) <==> exists k :: k in d.data && id in d.data[k]
    ensures !ListedUpTo(d, |d.keys|, id) ==> EditedUpTo(d, |d.keys|, id) == d.data
  {
    assert d.keys[..|d.keys|] == d.keys;
    forall k | k in d.data && id in d.data[k] ensures ListedUpTo(d, |d.keys|, id) {
      assert k in d.keys;
    }
    forall k | k in d.data && id !in d.data[k] ensures RemoveFirst(d.data[k], id) == d.data[k] {
      RemoveAbsent(d.data[k], id);
    }
  }

  lemma {:induction false} RemoveAbsent(s: seq<string>, x: string)
    requires x !in s
    ensures RemoveFirst(s, x) == s
  {
    if s != [] {
      RemoveAbsent(s[1..], x);
    }
  }
}
