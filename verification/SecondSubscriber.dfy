/**
  What a second subscription to a ticker does to the price sender: create_order
  (cryptomarket/deribit_client/deribit_currency.py) lists a request id, the next handler that saves the
  table puts it into the cache record, and the sender's next pass
  (cryptomarket/tasks/celery/task_send_every_60_seconds.py) ends at it.
*/
module SecondSubscriber {
  import opened Prelude
  import opened SubscriptionTable
  import opened PriceSender
  import opened Settings

  /** The cache record read back: its entries in some order. */
  predicate Reads(order: seq<(string, seq<string>)>, record: map<string, seq<string>>) {
    && (forall i :: 0 <= i < |order| ==> order[i].0 in record && record[order[i].0] == order[i].1)
    && (forall t :: t in record ==> exists i :: 0 <= i < |order| && order[i].0 == t)
  }

  /** The sender addresses exactly the people listed for each ticker. */
  lemma {:induction false} AddressedIffListed(order: seq<(string, seq<string>)>, a: Address)
    ensures a in AddressList(order) <==> exists i :: 0 <= i < |order| && order[i].0 == a.ticker && a.person in order[i].1
    decreases |order|
  {
    if order != [] {
      AddressedIffListed(order[1..], a);
      var people := order[0].1;
      var first := seq(|people|, i requires 0 <= i < |people| => Address(order[0].0, people[i]));
      assert AddressList(order) == first + AddressList(order[1..]);
      assert a in first <==> order[0].0 == a.ticker && a.person in people by {
        if order[0].0 == a.ticker && a.person in people {
          var i :| 0 <= i < |people| && people[i] == a.person;
          assert first[i] == a;
        }
      }
      if i :| 0 <= i < |order| && order[i].0 == a.ticker && a.person in order[i].1 {
        assert i > 0 ==> order[1..][i - 1] == order[i];
      }
      if i :| 0 <= i < |order| - 1 && order[1..][i].0 == a.ticker && a.person in order[1..][i].1 {
        assert order[i + 1] == order[1..][i];
      }
    }
  }

  /** The call neither cancels the ticker nor cancels everything in the id's name. */
  predicate LeavesListed(c: Call, ticker: string, id: string) {
    !(c.request.Cancel? && c.ticker == Some(ticker)) && !(c.request.CancelAll? && c.user == Some(id))
  }

  /** The state after a second create for a watched ticker, and any calls that leave its id listed. */
  function Between(m: Market, second: Call, between: seq<Call>): Market {
    HandleAll(Handle(m, second).market, between)
  }

  predicate SecondCreate(m: Market, second: Call, between: seq<Call>) {
    && second.request.Create? && Handle(m, second).status == 201 && second.ticker.value in m.table.data
    && forall c :: c in between ==> LeavesListed(c, second.ticker.value, RequestId(second))
  }

  lemma {:induction false} StaysListed(m: Market, second: Call, between: seq<Call>)
    requires TableOk(m) && SecondCreate(m, second, between)
    ensures TableOk(Between(m, second, between))
    ensures Subscribed(Between(m, second, between), second.ticker.value, RequestId(second))
  {
    if between == [] {
      HandleTable(m, second);
      CreateSubscribes(m, second, second.ticker.value, RequestId(second));
    } else {
      forall c | c in Front(between) ensures c in between {}
      assert Last(between) in between;
      StaysListed(m, second, Front(between));
      var n := Between(m, second, Front(between));
      HandleTable(n, Last(between));
      StaysSubscribed(n, Last(between), second.ticker.value, RequestId(second));
    }
  }

  /** The next handler after that which saves the table saves the request id with the rest of it. */
  lemma RequestIdIsSaved(m: Market, second: Call, between: seq<Call>, later: Call)
    requires TableOk(m) && SecondCreate(m, second, between)
    requires later.saved && Saves(Between(m, second, between), later)
    requires LeavesListed(later, second.ticker.value, RequestId(second))
    ensures var record := Handle(Between(m, second, between), later).market.record;
            record.Some? && second.ticker.value in record.value && RequestId(second) in record.value[second.ticker.value]
  {
    StaysListed(m, second, between);
    var n := Between(m, second, between);
    SavesOrNot(n, later);
    StaysSubscribed(n, later, second.ticker.value, RequestId(second));
  }

  /** A pass serves nobody from the first unreachable person on. */
  lemma PassEndsThere(s: Surroundings, addresses: seq<Address>, i: nat)
    requires i < |addresses| && !Reachable(s, addresses[i].person)
    ensures |Deliveries(s, None, addresses)| <= i
  {
    ServesAPrefix(s, None, addresses);
  }

  /** So from then on every pass of the sender that reads this record ends at the request id at the
      latest, unless somebody connected under that very id: nobody listed after it is served. */
  lemma SecondSubscriberCutsOff(m: Market, second: Call, between: seq<Call>, later: Call,
                                order: seq<(string, seq<string>)>, s: Surroundings)
    requires TableOk(m) && SecondCreate(m, second, between)
    requires later.saved && Saves(Between(m, second, between), later)
    requires LeavesListed(later, second.ticker.value, RequestId(second))
    requires var record := Handle(Between(m, second, between), later).market.record;
             record.Some? && Reads(order, record.value)
    requires !Reachable(s, RequestId(second))
    ensures var addresses := AddressList(order);
            && Address(second.ticker.value, RequestId(second)) in addresses
            && (forall i :: 0 <= i < |addresses| && addresses[i].person == RequestId(second) ==>
                  |Deliveries(s, None, addresses)| <= i)
            && |Deliveries(s, None, addresses)| < |addresses|
  {
    RequestIdIsSaved(m, second, between, later);
    var addresses := AddressList(order);
    var a := Address(second.ticker.value, RequestId(second));
    AddressedIffListed(order, a);
    forall i | 0 <= i < |addresses| && addresses[i].person == RequestId(second)
      ensures |Deliveries(s, None, addresses)| <= i
    {
      PassEndsThere(s, addresses, i);
    }
    var i :| 0 <= i < |addresses| && addresses[i] == a;
  }
}
