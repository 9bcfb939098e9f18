/**
  The insertion-ordered dictionary with a size cap behind the person registry and the subscription
  table: PersonDictionary (cryptomarket/deribit_client/deribit_person.py) and CurrencyDictionary
  (cryptomarket/deribit_client/deribit_currency.py) share this __setitem__.

  A write that finds the dictionary full first drops the oldest entry, whether or not the written
  key is already there.
*/
module BoundedDictionary {
  import opened Prelude

  /** Keys in insertion order, and their values. */
  datatype Dict<V> = Dict(keys: seq<string>, data: map<string, V>)

  function EmptyDict<V>(): Dict<V> {
    Dict([], map[])
  }

  ghost predicate WellFormed<V>(d: Dict<V>) {
    Distinct(d.keys) && (forall k :: k in d.keys <==> k in d.data)
  }

  function DropOldest<V>(d: Dict<V>): Dict<V>
    requires d.keys != []
  {
    Dict(d.keys[1..], d.data - {d.keys[0]})
  }

  /** Plain dictionary assignment: a known key keeps its place, a new one goes to the end. */
  function Assign<V>(d: Dict<V>, key: string, value: V): Dict<V> {
    Dict(if key in d.data then d.keys else d.keys + [key], d.data[key := value])
  }

  function RemoveKey(keys: seq<string>, key: string): seq<string> {
    if keys == [] then []
    else if keys[0] == key then keys[1..]
    else [keys[0]] + RemoveKey(keys[1..], key)
  }

  function Remove<V>(d: Dict<V>, key: string): Dict<V> {
    Dict(RemoveKey(d.keys, key), d.data - {key})
  }

  lemma {:induction false} RemovedKeys(keys: seq<string>, key: string)
    requires Distinct(keys)
    ensures Distinct(RemoveKey(keys, key))
    ensures forall k :: k in RemoveKey(keys, key) <==> k in keys && k != key
  {
    if keys != [] {
      var rest := keys[1..];
      RemovedKeys(rest, key);
      assert keys == [keys[0]] + rest;
      assert keys[0] !in rest;
    }
  }

  /** Removing takes out the first occurrence and leaves the order of the others. */
  lemma {:induction false} RemovedOrder(keys: seq<string>, key: string)
    ensures key !in keys ==> RemoveKey(keys, key) == keys
    ensures forall before, after :: keys == before + [key] + after && key !in before ==> RemoveKey(keys, key) == before + after
  {
    if keys != [] {
      RemovedOrder(keys[1..], key);
      forall before, after | keys == before + [key] + after && key !in before ensures RemoveKey(keys, key) == before + after {
        if before == [] {
          assert keys[1..] == after;
        } else {
          assert before[0] in before && keys[0] == before[0];
          assert keys[1..] == before[1..] + [key] + after;
          assert before == [before[0]] + before[1..];
        }
      }
    }
  }

  lemma RemoveKeyKeepsForm<V>(d: Dict<V>, key: string)
    requires WellFormed(d)
    ensures WellFormed(Remove(d, key))
  {
    RemovedKeys(d.keys, key);
  }

  function Write<V>(d: Dict<V>, maxsize: nat, key: string, value: V): Dict<V>
    requires 0 < maxsize
  {
    Assign(if |d.keys| >= maxsize then DropOldest(d) else d, key, value)
  }

  function WriteAll<V>(maxsize: nat, writes: seq<(string, V)>): Dict<V>
    requires 0 < maxsize
  {
    if writes == [] then EmptyDict()
    else Write(WriteAll(maxsize, Front(writes)), maxsize, Last(writes).0, Last(writes).1)
  }

  /** The value last written under a key. */
  function LatestValue<V>(writes: seq<(string, V)>, key: string): Option<V> {
    if writes == [] then None
    else if Last(writes).0 == key then Some(Last(writes).1)
    else LatestValue(Front(writes), key)
  }

  lemma DropKeepsForm<V>(d: Dict<V>)
    requires WellFormed(d) && d.keys != []
    ensures WellFormed(DropOldest(d))
    ensures forall k :: k in DropOldest(d).keys <==> k in d.keys && k != d.keys[0]
  {
  }

  /** The keys after a write: the old ones in their old order, less the oldest when there is no
      room, with the written key at the end if it is (again) new. */
  function NextKeys(keys: seq<string>, maxsize: nat, key: string): seq<string>
    requires 0 < maxsize
  {
    var kept := if |keys| >= maxsize then keys[1..] else keys;
    if key in kept then kept else kept + [key]
  }

  /** What one write does: the size stays within the cap, the written key is there with its value,
      every other live key keeps its value, and at most one key, the oldest, is gone. */
  lemma WriteSpec<V>(d: Dict<V>, maxsize: nat, key: string, value: V)
    requires WellFormed(d) && 0 < maxsize && |d.keys| <= maxsize
    ensures var e := Write(d, maxsize, key, value);
            && WellFormed(e) && |e.keys| <= maxsize
            && key in e.data && e.data[key] == value
            && (forall k :: k in e.data && k != key ==> k in d.data && e.data[k] == d.data[k])
            && e.keys == NextKeys(d.keys, maxsize, key)
            && e.keys == (if |d.keys| < maxsize then (if key in d.keys then d.keys else d.keys + [key])
                          else (if key in d.keys[1..] then d.keys[1..] else d.keys[1..] + [key]))
  {
  }

  /** Dictionaries with the same keys keep the same keys when the same key is written. */
  lemma WriteParallel<A, B>(d: Dict<A>, e: Dict<B>, maxsize: nat, key: string, a: A, b: B)
    requires 0 < maxsize && d.keys == e.keys && d.data.Keys == e.data.Keys
    ensures Write(d, maxsize, key, a).keys == Write(e, maxsize, key, b).keys
    ensures Write(d, maxsize, key, a).data.Keys == Write(e, maxsize, key, b).data.Keys
    ensures forall k :: k in Write(d, maxsize, key, a).data && k != key ==>
                        k in d.data && Write(d, maxsize, key, a).data[k] == d.data[k]
    ensures forall k :: k in Write(e, maxsize, key, b).data && k != key ==>
                        k in e.data && Write(e, maxsize, key, b).data[k] == e.data[k]
  {
  }

  /** Over any sequence of writes the cap holds, the key just written is there, and every live key
      holds its latest value. */
  lemma {:induction false} WritesSpec<V>(maxsize: nat, writes: seq<(string, V)>)
    requires 0 < maxsize
    ensures var d := WriteAll(maxsize, writes);
            && WellFormed(d) && |d.keys| <= maxsize
            && (writes != [] ==> Last(writes).0 in d.data)
            && (forall k :: k in d.data ==> LatestValue(writes, k) == Some(d.data[k]))
  {
    if writes != [] {
      WritesSpec(maxsize, Front(writes));
      WriteSpec(WriteAll(maxsize, Front(writes)), maxsize, Last(writes).0, Last(writes).1);
    }
  }

  function WrittenKeys<V>(writes: seq<(string, V)>): (keys: seq<string>)
    ensures |keys| == |writes| && forall i :: 0 <= i < |keys| ==> keys[i] == writes[i].0
  {
    seq(|writes|, i requires 0 <= i < |writes| => writes[i].0)
  }

  /** The last n elements, or all when there are fewer. */
  function Window<T>(s: seq<T>, n: nat): seq<T> {
    s[if |s| <= n then 0 else |s| - n..]
  }

  lemma WindowMoves<T>(s: seq<T>, x: T, n: nat)
    requires 0 < n
    ensures var w := Window(s, n);
            Window(s + [x], n) == (if |w| == n then w[1..] else w) + [x]
  {
  }

  lemma DistinctFront(keys: seq<string>, key: string)
    requires Distinct(keys + [key])
    ensures Distinct(keys) && key !in keys
  {
    var all := keys + [key];
    forall i | 0 <= i < |keys| ensures keys[i] != key {
      assert all[i] != all[|keys|];
    }
    forall i, j | 0 <= i < j < |keys| ensures keys[i] != keys[j] {
      assert all[i] != all[j];
    }
  }

  /** For distinct keys the dictionary holds exactly the last `maxsize` writes, in order. */
  lemma {:induction false} DistinctWritesAreAWindow<V>(maxsize: nat, writes: seq<(string, V)>)
    requires 0 < maxsize && Distinct(WrittenKeys(writes))
    ensures WriteAll(maxsize, writes).keys == Window(WrittenKeys(writes), maxsize)
  {
    if writes != [] {
      var past, key := Front(writes), Last(writes).0;
      assert WrittenKeys(writes) == WrittenKeys(past) + [key];
      DistinctFront(WrittenKeys(past), key);
      DistinctWritesAreAWindow(maxsize, past);
      WritesSpec(maxsize, past);
      WriteSpec(WriteAll(maxsize, past), maxsize, key, Last(writes).1);
      WindowMoves(WrittenKeys(past), key, maxsize);
    }
  }

  datatype WriteResult = Written | DictionaryError | IndexError

  /** The dictionary object.  A missing key or value is refused; without a cap nothing is dropped;
      a cap of zero has no oldest key to drop. */
  class FifoDictionary<V> {
    const maxsize: Option<nat>
    var keys: seq<string>
    var data: map<string, V>

    ghost function View(): Dict<V>
      reads this
    {
      Dict(keys, data)
    }

    constructor (maxsize: Option<nat>)
      ensures View() == EmptyDict() && this.maxsize == maxsize
    {
      this.maxsize := maxsize;
      keys, data := [], map[];
    }

    method SetItem(key: Option<string>, value: Option<V>) returns (result: WriteResult)
      requires WellFormed(View())
      modifies this
      ensures WellFormed(View())
      ensures result.DictionaryError? <==> key.None? || value.None?
      ensures result.IndexError? <==> key.Some? && value.Some? && maxsize == Some(0) && old(keys) == []
      ensures !result.Written? ==> View() == old(View())
      ensures result.Written? && maxsize.None? ==> View() == Assign(old(View()), key.value, value.value)
      ensures result.Written? && maxsize.Some? && 0 < maxsize.value ==>
                View() == Write(old(View()), maxsize.value, key.value, value.value)
    {
      if key.None? || value.None? {
        return DictionaryError;
      }
      if maxsize.Some? && |keys| >= maxsize.value {
        if keys == [] {
          return IndexError;
        }
        DropKeepsForm(View());
        data := data - {keys[0]};
        keys := keys[1..];
      }
      if key.value !in data {
        keys := keys + [key.value];
      }
      data := data[key.value := value.value];
      result := Written;
    }

    /** del self[key] */
    method Delete(key: string)
      requires WellFormed(View()) && key in data
      modifies this
      ensures WellFormed(View()) && View() == Remove(old(View()), key)
    {
      RemoveKeyKeepsForm(View(), key);
      keys, data := RemoveKey(keys, key), data - {key};
    }

    /** The value stored under a key is changed where it stands. */
    method Mutate(key: string, value: V)
      requires WellFormed(View()) && key in data
      modifies this
      ensures WellFormed(View()) && View() == Assign(old(View()), key, value)
    {
      data := data[key := value];
    }
  }
}
