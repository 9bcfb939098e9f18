/** Small shared vocabulary: optional values, and the ends, elements and suffixes of sequences. */
module Prelude {

  datatype Option<+T> = None | Some(value: T)

  /** All but the last element. */
  function Front<T>(s: seq<T>): seq<T>
    requires s != []
  {
    s[..|s| - 1]
  }

  function Last<T>(s: seq<T>): T
    requires s != []
  {
    s[|s| - 1]
  }

  predicate Distinct<T(==)>(s: seq<T>) {
    forall i, j :: 0 <= i < j < |s| ==> s[i] != s[j]
  }

  function Elements<T(==)>(s: seq<T>): set<T> {
    set x | x in s
  }

  ghost predicate IsSuffix<T>(small: seq<T>, big: seq<T>) {
    |small| <= |big| && small == big[|big| - |small|..]
  }

  /** Appending the same elements at the end keeps a suffix a suffix. */
  lemma SuffixGrows<T>(small: seq<T>, big: seq<T>, more: seq<T>)
    requires IsSuffix(small, big)
    ensures IsSuffix(small + more, big + more)
  {
  }

  lemma Regrouped<T>(a: seq<T>, b: seq<T>, c: seq<T>)
    ensures a + (b + c) == a + b + c
    ensures a + [] == a
  {
  }

  /** A sequence without repetitions is no longer than any set holding its elements. */
  lemma {:induction false} DistinctFits<T>(s: seq<T>, room: set<T>)
    requires Distinct(s)
    requires forall x :: x in s ==> x in room
    ensures |s| <= |room|
  {
    if s != [] {
      var x := Last(s);
      forall y | y in Front(s) ensures y in room - {x} {
        var i :| 0 <= i < |s| - 1 && s[i] == y;
      }
      DistinctFits(Front(s), room - {x});
      assert |room - {x}| == |room| - 1;
    }
  }

  /** The elements of a sequence are at most as many as its positions. */
  lemma {:induction false} ElementsFit<T>(s: seq<T>)
    ensures |Elements(s)| <= |s|
  {
    if s == [] {
      assert Elements(s) == {};
    } else {
      ElementsFit(Front(s));
      assert s == Front(s) + [Last(s)];
      assert Elements(s) == Elements(Front(s)) + {Last(s)};
    }
  }
}
