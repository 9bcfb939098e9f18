/**
  The periodic price sender (func in cryptomarket/tasks/celery/task_send_every_60_seconds.py) as one
  pass over the subscription table, and the event generator's pass over the connection records
  (cryptomarket/project/functions.py).

  The sender walks all (ticker, person) pairs of the table.  For each it looks up the ticker's last
  row, keeping the previous one when there is none, and rewrites the record of the person's
  connection; any person it cannot reach ends the whole pass.
*/
module PriceSender {
  import opened Prelude
  import opened Records
  import opened DatabaseConnection

  datatype Row = Row(ticker: string, price: string)

  datatype Address = Address(ticker: string, person: string)

  /** A row prepared for a person. */
  type Delivery = Message<Row>

  type Record = Envelope<Message<Row>>

  /** address_for_send: one pair per ticker and listed person, in table order. */
  function AddressList(table: seq<(string, seq<string>)>): seq<Address> {
    if table == [] then []
    else
      var people := table[0].1;
      seq(|people|, i requires 0 <= i < |people| => Address(table[0].0, people[i])) + AddressList(table[1..])
  }

  /** What the pass can see: the kind of database, the last stored row of each ticker, the key SCAN
      finds last for each person, and the records. */
  datatype Surroundings = Surroundings(
    db: Database, rows: map<string, Row>, scan: map<string, string>, records: map<string, Record>)

  /** A database of an unknown kind is not asked, and the synchronous query calls a method that its
      result does not have, which ends the pass. */
  predicate Readable(db: Database) {
    db.known && db.isAsync
  }

  /** The database filters rows by ticker. */
  predicate RowsOk(rows: map<string, Row>) {
    forall t :: t in rows ==> rows[t].ticker == t
  }

  predicate Reachable(s: Surroundings, person: string) {
    person in s.scan && s.scan[person] in s.records
  }

  function Refreshed(rows: map<string, Row>, carried: Option<Row>, ticker: string): Option<Row> {
    if ticker in rows then Some(rows[ticker]) else carried
  }

  /** The deliveries of a pass over the addresses, starting with a row carried over. */
  function Deliveries(s: Surroundings, carried: Option<Row>, addresses: seq<Address>): seq<Delivery>
    decreases |addresses|
  {
    if addresses == [] then []
    else
      var row := Refreshed(s.rows, carried, addresses[0].ticker);
      if !Readable(s.db) || row.None? || !Reachable(s, addresses[0].person) then []
      else [Message(addresses[0].person, row.value)] + Deliveries(s, row, addresses[1..])
  }

  /** The records after deliveries: each replaces the message of its person's record. */
  function Deliver(scan: map<string, string>, records: map<string, Record>, done: seq<Delivery>): map<string, Record> {
    if done == [] then records
    else
      var before := Deliver(scan, records, Front(done));
      var d := Last(done);
      if d.owner in scan && scan[d.owner] in before
      then before[scan[d.owner] := before[scan[d.owner]].(message := Some(d))]
      else before
  }

  // ---------------------------------------------------------------------------------------------
  // Who is served
  // ---------------------------------------------------------------------------------------------

  /** The i-th address can be served: its person is reachable and a row has been found by then. */
  predicate Servable(s: Surroundings, carried: Option<Row>, addresses: seq<Address>, i: nat)
    requires i < |addresses|
  {
    Readable(s.db) && Reachable(s, addresses[i].person) && (carried.Some? || exists j :: 0 <= j <= i && addresses[j].ticker in s.rows)
  }

  lemma ServableShifts(s: Surroundings, carried: Option<Row>, addresses: seq<Address>, i: nat)
    requires i + 1 < |addresses|
    ensures Servable(s, Refreshed(s.rows, carried, addresses[0].ticker), addresses[1..], i) <==>
            Servable(s, carried, addresses, i + 1)
  {
  }

  /** The pass serves a prefix of the addresses, in order, and it stops exactly at the first one it
      cannot serve. */
  lemma {:induction false} ServesAPrefix(s: Surroundings, carried: Option<Row>, addresses: seq<Address>)
    ensures var done := Deliveries(s, carried, addresses);
            && |done| <= |addresses|
            && (forall i :: 0 <= i < |done| ==> done[i].owner == addresses[i].person && Servable(s, carried, addresses, i))
            && (|done| < |addresses| ==> !Servable(s, carried, addresses, |done|))
    decreases |addresses|
  {
    if addresses != [] {
      var row := Refreshed(s.rows, carried, addresses[0].ticker);
      var done := Deliveries(s, carried, addresses);
      assert Servable(s, carried, addresses, 0) <==> Readable(s.db) && row.Some? && Reachable(s, addresses[0].person);
      if Readable(s.db) && row.Some? && Reachable(s, addresses[0].person) {
        var rest := Deliveries(s, row, addresses[1..]);
        ServesAPrefix(s, row, addresses[1..]);
        forall i | 0 <= i < |done|
          ensures done[i].owner == addresses[i].person && Servable(s, carried, addresses, i)
        {
          if i > 0 {
            assert done[i] == rest[i - 1];
            ServableShifts(s, carried, addresses, i - 1);
          }
        }
        if |done| < |addresses| {
          ServableShifts(s, carried, addresses, |rest|);
        }
      }
    }
  }

  /** A pass serves everybody exactly when the database is a known asynchronous one, everybody is
      reachable and the first ticker has a row: one listed id without a connection cuts off everyone
      listed after it. */
  lemma EverybodyIsServed(s: Surroundings, addresses: seq<Address>)
    requires addresses != []
    ensures |Deliveries(s, None, addresses)| == |addresses| <==>
            && s.db.known && s.db.isAsync && addresses[0].ticker in s.rows
            && forall a :: a in addresses ==> a.person in s.scan && s.scan[a.person] in s.records
  {
    ServesAPrefix(s, None, addresses);
    var done := Deliveries(s, None, addresses);
    if |done| == |addresses| {
      assert Servable(s, None, addresses, 0);
      forall a | a in addresses ensures Reachable(s, a.person) {
        var i :| 0 <= i < |addresses| && addresses[i] == a;
        assert Servable(s, None, addresses, i);
      }
    } else {
      assert addresses[|done|] in addresses;
      assert !Readable(s.db) || !Reachable(s, addresses[|done|].person) || addresses[0].ticker !in s.rows;
    }
  }

  predicate Connected(s: Surroundings, person: string) {
    person in s.scan && s.scan[person] in s.records
  }

  predicate ConnectedUpTo(s: Surroundings, addresses: seq<Address>, n: nat)
    requires n < |addresses|
  {
    forall m :: 0 <= m <= n ==> Connected(s, addresses[m].person)
  }

  /** The n-th address is served exactly when the database can be read, the first ticker has a row, and
      everybody up to the n-th has a connection with a record. */
  lemma ServedIff(s: Surroundings, addresses: seq<Address>, n: nat)
    requires n < |addresses|
    ensures n < |Deliveries(s, None, addresses)| <==>
            s.db.known && s.db.isAsync && addresses[0].ticker in s.rows && ConnectedUpTo(s, addresses, n)
  {
    ServesAPrefix(s, None, addresses);
    var done := Deliveries(s, None, addresses);
    if n < |done| {
      assert Servable(s, None, addresses, 0);
      forall m | 0 <= m <= n ensures Reachable(s, addresses[m].person) {
        assert Servable(s, None, addresses, m);
      }
    } else {
      assert !Servable(s, None, addresses, |done|);
      assert Reachable(s, addresses[|done|].person) ==> !Readable(s.db) || addresses[0].ticker !in s.rows;
    }
  }

  // The address list by positions.

  /** How many ids the first i entries of the table list. */
  function Listed(table: seq<(string, seq<string>)>, i: nat): nat
    requires i <= |table|
  {
    if i == 0 then 0 else Listed(table, i - 1) + |table[i - 1].1|
  }

  lemma {:induction false} ListedShifts(table: seq<(string, seq<string>)>, i: nat)
    requires 0 < i <= |table|
    ensures Listed(table, i) == |table[0].1| + Listed(table[1..], i - 1)
  {
    if i > 1 {
      ListedShifts(table, i - 1);
    }
  }

  /** There is one address per listed id. */
  lemma {:induction false} AddressCount(table: seq<(string, seq<string>)>)
    ensures |AddressList(table)| == Listed(table, |table|)
    decreases |table|
  {
    if table != [] {
      AddressCount(table[1..]);
      ListedShifts(table, |table|);
    }
  }

  /** The j-th id of the i-th entry stands behind all ids of the earlier entries and the j before it. */
  lemma {:induction false} AddressAt(table: seq<(string, seq<string>)>, i: nat, j: nat)
    requires i < |table| && j < |table[i].1|
    ensures Listed(table, i) + j < |AddressList(table)|
    ensures AddressList(table)[Listed(table, i) + j] == Address(table[i].0, table[i].1[j])
    decreases i
  {
    var people := table[0].1;
    var first := seq(|people|, k requires 0 <= k < |people| => Address(table[0].0, people[k]));
    assert AddressList(table) == first + AddressList(table[1..]);
    if i > 0 {
      AddressAt(table[1..], i - 1, j);
      ListedShifts(table, i);
    }
  }

  /** And every position belongs to one entry and one id of it. */
  lemma {:induction false} PositionOf(table: seq<(string, seq<string>)>, n: nat) returns (i: nat, j: nat)
    requires n < |AddressList(table)|
    ensures i < |table| && j < |table[i].1| && n == Listed(table, i) + j
    decreases |table|
  {
    var people := table[0].1;
    if n < |people| {
      i, j := 0, n;
    } else {
      i, j := PositionOf(table[1..], n - |people|);
      ListedShifts(table, i + 1);
      i := i + 1;
    }
  }

  /** The id comes before, or is, the j-th id of the i-th entry. */
  predicate NotAfter(a: nat, b: nat, i: nat, j: nat) {
    a < i || (a == i && b <= j)
  }

  lemma {:induction false} ListedGrows(table: seq<(string, seq<string>)>, a: nat, i: nat)
    requires a < i <= |table|
    ensures Listed(table, a) + |table[a].1| <= Listed(table, i)
  {
    if a + 1 < i {
      ListedGrows(table, a, i - 1);
    }
  }

  /** Whom a pass serves, in table order: the j-th id of the i-th entry is served exactly when the database
      can be read, the first ticker with listed people has a row, and everybody listed before it and the id
      itself have a connection with a record. */
  lemma ServedInTableOrder(s: Surroundings, table: seq<(string, seq<string>)>, i: nat, j: nat)
    requires i < |table| && j < |table[i].1|
    ensures Listed(table, i) + j < |Deliveries(s, None, AddressList(table))| <==>
            && s.db.known && s.db.isAsync && AddressList(table) != [] && AddressList(table)[0].ticker in s.rows
            && forall a: nat, b: nat :: a < |table| && b < |table[a].1| && NotAfter(a, b, i, j) ==> Connected(s, table[a].1[b])
    ensures Listed(table, i) + j < |Deliveries(s, None, AddressList(table))| ==>
              Deliveries(s, None, AddressList(table))[Listed(table, i) + j].owner == table[i].1[j]
  {
    var addresses, n := AddressList(table), Listed(table, i) + j;
    AddressAt(table, i, j);
    ServedIff(s, addresses, n);
    ServesAPrefix(s, None, addresses);
    if n < |Deliveries(s, None, addresses)| {
      forall a: nat, b: nat | a < |table| && b < |table[a].1| && NotAfter(a, b, i, j) ensures Connected(s, table[a].1[b]) {
        AddressAt(table, a, b);
        if a < i {
          ListedGrows(table, a, i);
        }
        assert addresses[Listed(table, a) + b].person == table[a].1[b];
      }
    }
    if forall a: nat, b: nat :: a < |table| && b < |table[a].1| && NotAfter(a, b, i, j) ==> Connected(s, table[a].1[b]) {
      forall m | 0 <= m <= n ensures Connected(s, addresses[m].person) {
        var a, b := PositionOf(table, m);
        AddressAt(table, a, b);
        if a > i {
          ListedGrows(table, i, a);
        }
        assert NotAfter(a, b, i, j);
      }
    }
  }

  // ---------------------------------------------------------------------------------------------
  // What they are served
  // ---------------------------------------------------------------------------------------------

  /** The row of the last address up to i whose ticker has one. */
  function RowInHand(rows: map<string, Row>, carried: Option<Row>, addresses: seq<Address>, i: nat): Option<Row>
    requires i < |addresses|
  {
    if addresses[i].ticker in rows then Some(rows[addresses[i].ticker])
    else if i == 0 then carried
    else RowInHand(rows, carried, addresses, i - 1)
  }

  lemma {:induction false} RowInHandShifts(rows: map<string, Row>, carried: Option<Row>, addresses: seq<Address>, i: nat)
    requires i + 1 < |addresses|
    ensures RowInHand(rows, Refreshed(rows, carried, addresses[0].ticker), addresses[1..], i)
            == RowInHand(rows, carried, addresses, i + 1)
    decreases i
  {
    if i > 0 {
      RowInHandShifts(rows, carried, addresses, i - 1);
    } else {
      assert RowInHand(rows, carried, addresses, 0) == Refreshed(rows, carried, addresses[0].ticker);
    }
  }

  lemma {:induction false} DeliversRowInHand(s: Surroundings, carried: Option<Row>, addresses: seq<Address>, i: nat)
    requires i < |Deliveries(s, carried, addresses)|
    ensures i < |addresses| && RowInHand(s.rows, carried, addresses, i) == Some(Deliveries(s, carried, addresses)[i].body)
    decreases |addresses|
  {
    if i > 0 {
      var row := Refreshed(s.rows, carried, addresses[0].ticker);
      DeliversRowInHand(s, row, addresses[1..], i - 1);
      RowInHandShifts(s.rows, carried, addresses, i - 1);
    }
  }

  lemma {:induction false} CarriedRowIsForeign(rows: map<string, Row>, addresses: seq<Address>, i: nat, ticker: string)
    requires RowsOk(rows) && i < |addresses| && ticker !in rows
    ensures RowInHand(rows, None, addresses, i).Some? ==> RowInHand(rows, None, addresses, i).value.ticker != ticker
  {
    if addresses[i].ticker !in rows && i > 0 {
      CarriedRowIsForeign(rows, addresses, i - 1, ticker);
    }
  }

  /** A delivered message quotes the ticker its person subscribed to exactly when the database has a
      row for that ticker; otherwise it quotes an earlier ticker of the table. */
  lemma QuotesOwnTicker(s: Surroundings, addresses: seq<Address>, i: nat)
    requires RowsOk(s.rows) && i < |Deliveries(s, None, addresses)|
    ensures i < |addresses|
    ensures Deliveries(s, None, addresses)[i].body.ticker == addresses[i].ticker <==> addresses[i].ticker in s.rows
  {
    DeliversRowInHand(s, None, addresses, i);
    if addresses[i].ticker !in s.rows {
      CarriedRowIsForeign(s.rows, addresses, i, addresses[i].ticker);
    }
  }

  /** The last of the deliveries that went to a record. */
  function LastTo(scan: map<string, string>, done: seq<Delivery>, key: string): Option<Delivery> {
    if done == [] then None
    else if Last(done).owner in scan && scan[Last(done).owner] == key then Some(Last(done))
    else LastTo(scan, Front(done), key)
  }

  /** Afterwards a record carries the last message delivered to it and still names its own key; the
      records no delivery went to are untouched, and none appears or disappears. */
  lemma {:induction false} RecordsAfterwards(scan: map<string, string>, records: map<string, Record>, done: seq<Delivery>, key: string)
    ensures Deliver(scan, records, done).Keys == records.Keys
    ensures key in records ==>
              Deliver(scan, records, done)[key] ==
              (if LastTo(scan, done, key).None? then records[key] else records[key].(message := LastTo(scan, done, key)))
  {
    if done != [] {
      RecordsAfterwards(scan, records, Front(done), key);
    }
  }

  /** SCAN finds a key the person's pattern matches. */
  predicate ScanOk(scan: map<string, string>) {
    forall p :: p in scan ==> Matches(PersonPattern(p), scan[p])
  }

  predicate RecordsOk(records: map<string, Record>) {
    forall k :: k in records ==> Belongs(records[k], k)
  }

  /** A pass keeps every record at home: it names the key it is stored at, and its message was prepared
      for somebody whose pattern finds that key. */
  lemma {:induction false} RecordsStayHome(scan: map<string, string>, records: map<string, Record>, done: seq<Delivery>)
    requires ScanOk(scan) && RecordsOk(records)
    ensures RecordsOk(Deliver(scan, records, done))
  {
    if done != [] {
      RecordsStayHome(scan, records, Front(done));
    }
  }

  // ---------------------------------------------------------------------------------------------
  // The loops
  // ---------------------------------------------------------------------------------------------

  /** One more delivery. */
  lemma DeliverOneMore(scan: map<string, string>, records: map<string, Record>, done: seq<Delivery>, d: Delivery)
    requires var now := Deliver(scan, records, done); d.owner in scan && scan[d.owner] in now
    ensures var now := Deliver(scan, records, done);
            var key := scan[d.owner];
            Deliver(scan, records, done + [d]) == now[key := now[key].(message := Some(d))]
  {
  }

  /** One more address of the pass. */
  lemma PassOneMore(s: Surroundings, carried: Option<Row>, addresses: seq<Address>, i: nat)
    requires i < |addresses|
    ensures var row := Refreshed(s.rows, carried, addresses[i].ticker);
            Deliveries(s, carried, addresses[i..]) ==
            (if !Readable(s.db) || row.None? || !Reachable(s, addresses[i].person) then []
             else [Message(addresses[i].person, row.value)] + Deliveries(s, row, addresses[i + 1..]))
  {
  }

  class CacheServer {
    var records: map<string, Record>

    /** The body of the loop for one person: find the record, read it, write it back. */
    method SendTo(person: string, row: Option<Row>, scan: map<string, string>) returns (sent: Option<Delivery>)
      modifies this
      ensures sent == if row.None? || person !in scan || scan[person] !in old(records) then None
                      else Some(Message(person, row.value))
      ensures sent.None? ==> records == old(records)
      ensures sent.Some? ==> records == old(records)[scan[person] := old(records)[scan[person]].(message := sent)]
    {
      if row.None? || person !in scan || scan[person] !in records {
        return None;
      }
      sent := Some(Message(person, row.value));
      var previous := records[scan[person]];
      records := records[scan[person] := previous.(message := sent)];
    }

    /** The sender's loop over the addresses. */
    method SendToAll(addresses: seq<Address>, db: Database, rows: map<string, Row>, scan: map<string, string>)
      returns (done: seq<Delivery>)
      modifies this
      ensures done == Deliveries(Surroundings(db, rows, scan, old(records)), None, addresses)
      ensures records == Deliver(scan, old(records), done)
    {
      ghost var s := Surroundings(db, rows, scan, records);
      var serialized: Option<Row> := None;
      done := [];
      var i := 0;
      while i < |addresses|
        invariant i <= |addresses|
        invariant Deliveries(s, None, addresses) == done + Deliveries(s, serialized, addresses[i..])
        invariant records == Deliver(scan, s.records, done) && records.Keys == s.records.Keys
        invariant !db.known ==> done == []
      {
        PassOneMore(s, serialized, addresses, i);
        if db.known {
          if !db.isAsync {
            return;   // fitchall raises inside the synchronous scope: a ValueError, which has no fallback
          }
          serialized := Refreshed(rows, serialized, addresses[i].ticker);
          var sent := SendTo(addresses[i].person, serialized, scan);
          if sent.None? {
            return;
          }
          Regrouped(done, [sent.value], Deliveries(s, serialized, addresses[i + 1..]));
          DeliverOneMore(scan, s.records, done, sent.value);
          done := done + [sent.value];
        }
        i := i + 1;
      }
    }

    /** The whole pass. */
    method SendPrices(table: seq<(string, seq<string>)>, db: Database, rows: map<string, Row>, scan: map<string, string>)
      returns (done: seq<Delivery>)
      modifies this
      ensures done == Deliveries(Surroundings(db, rows, scan, old(records)), None, AddressList(table))
      ensures records == Deliver(scan, old(records), done)
      ensures ScanOk(scan) && RecordsOk(old(records)) ==> RecordsOk(records)
      ensures forall n: nat :: n < |AddressList(table)| ==>
                (n < |done| <==>
                 && db.known && db.isAsync && AddressList(table)[0].ticker in rows
                 && ConnectedUpTo(Surroundings(db, rows, scan, old(records)), AddressList(table), n))
    {
      ghost var s, addresses := Surroundings(db, rows, scan, records), AddressList(table);
      forall n: nat | n < |addresses|
        ensures n < |Deliveries(s, None, addresses)| <==>
                db.known && db.isAsync && addresses[0].ticker in rows && ConnectedUpTo(s, addresses, n)
      {
        ServedIff(s, addresses, n);
      }
      done := SendToAll(AddressList(table), db, rows, scan);
      if ScanOk(scan) && RecordsOk(old(records)) {
        RecordsStayHome(scan, old(records), done);
      }
    }

    /** The event generator's pass: it reads every connection record, and broadcasts the one read
        last.  A record gone in between, or no record at all, ends the pass with nothing. */
    method RecordToBroadcast(keys: seq<string>) returns (record: Option<Record>)
      ensures record == if keys != [] && forall k :: k in keys ==> k in records then Some(records[Last(keys)]) else None
    {
      record := None;
      var i := 0;
      while i < |keys|
        invariant i <= |keys|
        invariant forall j :: 0 <= j < i ==> keys[j] in records
        invariant record == if i == 0 then None else Some(records[keys[i - 1]])
      {
        if keys[i] !in records {
          assert keys[i] in keys;
          return None;
        }
        record := Some(records[keys[i]]);
        i := i + 1;
      }
    }
  }
}
