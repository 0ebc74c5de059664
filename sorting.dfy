/** Python's `list.sort(key=...)`, which is stable, as an insertion sort on sequences. */
module Sorting {

  predicate SortedBy<T>(ps: seq<T>, key: T -> nat) {
    forall i, j :: 0 <= i < j < |ps| ==> key(ps[i]) <= key(ps[j])
  }

  /** Insertion after every element whose key is no greater than x's. */
  function InsertBy<T>(x: T, ps: seq<T>, key: T -> nat): (r: seq<T>)
    ensures |r| == |ps| + 1
  {
    if |ps| == 0 then [x]
    else if key(x) < key(ps[0]) then [x] + ps
    else [ps[0]] + InsertBy(x, ps[1..], key)
  }

  /** `ps.sort(key=key)`: each element goes after the earlier ones of equal key. */
  function SortBy<T>(ps: seq<T>, key: T -> nat): (r: seq<T>)
    ensures |r| == |ps|
  {
    if |ps| == 0 then [] else InsertBy(ps[|ps| - 1], SortBy(ps[..|ps| - 1], key), key)
  }

  lemma InsertBySpec<T>(x: T, ps: seq<T>, key: T -> nat)
    ensures multiset(InsertBy(x, ps, key)) == multiset(ps) + multiset{x}
    ensures SortedBy(ps, key) ==> SortedBy(InsertBy(x, ps, key), key)
  {
    InsertByMultiset(x, ps, key);
    if SortedBy(ps, key) {
      InsertBySorted(x, ps, key);
    }
  }

  lemma {:induction false} InsertByMultiset<T>(x: T, ps: seq<T>, key: T -> nat)
    ensures multiset(InsertBy(x, ps, key)) == multiset(ps) + multiset{x}
  {
    if |ps| > 0 && key(x) >= key(ps[0]) {
      InsertByMultiset(x, ps[1..], key);
      assert ps == [ps[0]] + ps[1..];
    }
  }

  lemma {:induction false} InsertBySorted<T>(x: T, ps: seq<T>, key: T -> nat)
    requires SortedBy(ps, key)
    ensures SortedBy(InsertBy(x, ps, key), key)
  {
    if |ps| == 0 {
    } else if key(x) < key(ps[0]) {
      forall y | y in multiset(ps) ensures key(x) <= key(y) {
        var i :| 0 <= i < |ps| && ps[i] == y;
      }
      SortedCons(x, ps, key);
    } else {
      var tail := InsertBy(x, ps[1..], key);
      assert InsertBy(x, ps, key) == [ps[0]] + tail;
      assert SortedBy(ps[1..], key);
      InsertBySorted(x, ps[1..], key);
      InsertByMultiset(x, ps[1..], key);
      forall y | y in multiset(tail) ensures key(ps[0]) <= key(y) {
        if y != x {
          assert y in multiset(ps[1..]);
          var i :| 0 <= i < |ps[1..]| && ps[1..][i] == y;
          assert ps[i + 1] == y;
        }
      }
      SortedCons(ps[0], tail, key);
    }
  }

  /** A sorted list stays sorted under a head whose key is no greater than any of its keys. */
  lemma SortedCons<T>(h: T, tail: seq<T>, key: T -> nat)
    requires SortedBy(tail, key) && forall y :: y in multiset(tail) ==> key(h) <= key(y)
    ensures SortedBy([h] + tail, key)
  {
    var r := [h] + tail;
    forall i, j | 0 <= i < j < |r| ensures key(r[i]) <= key(r[j]) {
      if i == 0 {
        assert r[j] == tail[j - 1];
        assert r[j] in multiset(tail);
      }
    }
  }

  /** The sort yields a sorted permutation. */
  lemma {:induction false} SortBySpec<T>(ps: seq<T>, key: T -> nat)
    ensures multiset(SortBy(ps, key)) == multiset(ps)
    ensures SortedBy(SortBy(ps, key), key)
  {
    if |ps| > 0 {
      SortBySpec(ps[..|ps| - 1], key);
      InsertBySpec(ps[|ps| - 1], SortBy(ps[..|ps| - 1], key), key);
      assert ps == ps[..|ps| - 1] + [ps[|ps| - 1]];
    }
  }

  /** Inserting an element whose key is no smaller than every key of a list puts it at the end. */
  lemma {:induction false} InsertLast<T>(x: T, ps: seq<T>, key: T -> nat)
    requires forall i :: 0 <= i < |ps| ==> key(ps[i]) <= key(x)
    ensures InsertBy(x, ps, key) == ps + [x]
  {
    if |ps| > 0 {
      InsertLast(x, ps[1..], key);
    }
  }

  /** Sorting a sorted list changes nothing. */
  lemma {:induction false} SortSorted<T>(ps: seq<T>, key: T -> nat)
    requires SortedBy(ps, key)
    ensures SortBy(ps, key) == ps
  {
    if |ps| > 0 {
      SortSorted(ps[..|ps| - 1], key);
      InsertLast(ps[|ps| - 1], ps[..|ps| - 1], key);
    }
  }

  /** So re-sorting after an append to a sorted list inserts the new element after every
      element whose key is no greater. */
  lemma SortAppend<T>(ps: seq<T>, x: T, key: T -> nat)
    requires SortedBy(ps, key)
    ensures SortBy(ps + [x], key) == InsertBy(x, ps, key)
  {
    assert (ps + [x])[..|ps|] == ps;
    SortSorted(ps, key);
  }
}
