/**
  The two loops that turn price rows into one map per second (get_index_price_child,
  cryptomarket/api/v1/api_get_index_price.py): one leaves "created_at" out while building each entry,
  the other deletes it afterwards.
*/
module DateGrouping {
  import opened Prelude

  const CREATED := "created_at"

  /** One row: the second its created_at formats to, and its attributes. */
  datatype Row = Row(second: string, attributes: map<string, string>)

  /** The loaded attributes of a row include created_at, which the loop has just read. */
  predicate Loaded(rows: seq<Row>) {
    forall r :: r in rows ==> CREATED in r.attributes
  }

  predicate Hidden(name: string) {
    name != "" && name[0] == '_'
  }

  /** What a client sees of a row. */
  function Public(r: Row): map<string, string> {
    map k | k in r.attributes && !Hidden(k) && k != CREATED :: r.attributes[k]
  }

  /** The last row of a second. */
  function LastOf(rows: seq<Row>, second: string): Option<Row> {
    if rows == [] then None
    else if Last(rows).second == second then Some(Last(rows))
    else LastOf(Front(rows), second)
  }

  /** One entry per second that occurs, made of the last row of that second. */
  ghost predicate Groups(rows: seq<Row>, out: map<string, map<string, string>>) {
    && (forall s :: s in out <==> LastOf(rows, s).Some?)
    && (forall s :: s in out ==> LastOf(rows, s).Some? && out[s] == Public(LastOf(rows, s).value))
  }

  lemma {:induction false} SecondOccurs(rows: seq<Row>, second: string)
    ensures LastOf(rows, second).Some? <==> exists r :: r in rows && r.second == second
    ensures LastOf(rows, second).Some? ==> LastOf(rows, second).value in rows
  {
    if rows != [] {
      SecondOccurs(Front(rows), second);
      assert rows == Front(rows) + [Last(rows)];
    }
  }

  /** The row that makes a second's entry is the last of that second. */
  lemma {:induction false} LastOfSpec(rows: seq<Row>, second: string, r: Row)
    ensures LastOf(rows, second) == Some(r) <==>
            exists i :: 0 <= i < |rows| && rows[i] == r && r.second == second && forall j :: i < j < |rows| ==> rows[j].second != second
  {
    if rows != [] {
      var past, last := Front(rows), |rows| - 1;
      LastOfSpec(past, second, r);
      assert forall j :: 0 <= j < last ==> past[j] == rows[j];
      if i :| 0 <= i < |rows| && rows[i] == r && r.second == second && forall j :: i < j < |rows| ==> rows[j].second != second {
        if i < last {
          assert past[i] == r && forall j :: i < j < |past| ==> past[j].second != second;
        }
      }
      if LastOf(rows, second) == Some(r) && rows[last].second != second {
        var i :| 0 <= i < |past| && past[i] == r && r.second == second && forall j :: i < j < |past| ==> past[j].second != second;
        assert rows[i] == r;
      }
    }
  }

  /** A client sees of it every attribute with its value, but for created_at and those whose name starts
      with an underscore. */
  lemma ClientSees(r: Row, name: string)
    ensures name in Public(r) <==> name in r.attributes && name != "created_at" && (|name| == 0 || name[0] != '_')
    ensures name in Public(r) ==> Public(r)[name] == r.attributes[name]
  {
  }

  /** Whatever way two maps that group the rows were built they are the same map, with exactly one
      entry for each second that occurs. */
  lemma GroupingIsUnique(rows: seq<Row>, a: map<string, map<string, string>>, b: map<string, map<string, string>>)
    requires Groups(rows, a) && Groups(rows, b)
    ensures a == b
    ensures forall s :: s in a <==> exists r :: r in rows && r.second == s
  {
    forall s ensures s in a <==> exists r :: r in rows && r.second == s {
      SecondOccurs(rows, s);
    }
    assert forall s :: s in a <==> s in b;
  }

  lemma GroupOneMore(rows: seq<Row>, r: Row, out: map<string, map<string, string>>)
    requires Groups(rows, out)
    ensures Groups(rows + [r], out[r.second := Public(r)])
  {
  }

  /** The synchronous branch filters while it builds. */
  method BuildFiltered(rows: seq<Row>) returns (out: map<string, map<string, string>>)
    ensures Groups(rows, out)
  {
    out := map[];
    for i := 0 to |rows|
      invariant Groups(rows[..i], out)
    {
      var entry := map k | k in rows[i].attributes && !Hidden(k) && k != CREATED :: rows[i].attributes[k];
      GroupOneMore(rows[..i], rows[i], out);
      assert rows[..i + 1] == rows[..i] + [rows[i]];
      out := out[rows[i].second := entry];
    }
    assert rows[..|rows|] == rows;
  }

  /** The asynchronous branch keeps created_at and deletes it from the entry just stored; a row
      without it raises. */
  method BuildThenDelete(rows: seq<Row>) returns (out: Option<map<string, map<string, string>>>)
    ensures out.Some? <==> Loaded(rows)
    ensures out.Some? <==> forall r :: r in rows ==> "created_at" in r.attributes
    ensures out.Some? ==> Groups(rows, out.value)
  {
    var entries: map<string, map<string, string>> := map[];
    for i := 0 to |rows|
      invariant Groups(rows[..i], entries)
      invariant forall j :: 0 <= j < i ==> CREATED in rows[j].attributes
    {
      var second := rows[i].second;
      GroupOneMore(rows[..i], rows[i], entries);
      assert rows[..i + 1] == rows[..i] + [rows[i]];
      entries := entries[second := map k | k in rows[i].attributes && !Hidden(k) :: rows[i].attributes[k]];
      if CREATED !in entries[second] {
        assert rows[i] in rows;
        return None;
      }
      entries := entries[second := entries[second] - {CREATED}];
      assert entries[second] == Public(rows[i]);
    }
    assert rows[..|rows|] == rows;
    out := Some(entries);
  }
}
