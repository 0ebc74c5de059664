/** `itertools.permutations` and the "first element of a generator" pattern the puzzles use. */
module Permutations {
  import opened Common

  /** No element occurs twice. */
  predicate Distinct<T(==)>(s: seq<T>) {
    forall i, j :: 0 <= i < j < |s| ==> s[i] != s[j]
  }

  /** The pool with the element at index i taken out, the others in their order. */
  function Without<T>(pool: seq<T>, i: nat): seq<T>
    requires i < |pool|
  {
    pool[..i] + pool[i + 1..]
  }

  /** Each list of qs with x put in front. */
  function Prepend<T>(x: T, qs: seq<seq<T>>): (r: seq<seq<T>>)
    ensures |r| == |qs|
  {
    seq(|qs|, j requires 0 <= j < |qs| => [x] + qs[j])
  }

  /** `itertools.permutations(pool, k)`, as a list: the k-permutations in the lexicographic
      order of the positions they take from the pool. */
  function Perms<T>(pool: seq<T>, k: nat): seq<seq<T>>
    decreases k, 1, 0
  {
    if k == 0 then [[]] else PermsFrom(pool, k, 0)
  }

  /** The k-permutations whose first element is taken from position i or later. */
  function PermsFrom<T>(pool: seq<T>, k: nat, i: nat): seq<seq<T>>
    requires k > 0
    decreases k, 0, |pool| - i
  {
    if i >= |pool| then []
    else Prepend(pool[i], Perms(Without(pool, i), k - 1)) + PermsFrom(pool, k, i + 1)
  }

  lemma PrependHas<T>(x: T, qs: seq<seq<T>>, p: seq<T>)
    ensures p in Prepend(x, qs) <==> p != [] && p[0] == x && p[1..] in qs
  {
    if p != [] && p[0] == x && p[1..] in qs {
      var j :| 0 <= j < |qs| && qs[j] == p[1..];
      assert Prepend(x, qs)[j] == p;
    }
  }

  lemma {:induction false} PermsFromHas<T>(pool: seq<T>, k: nat, i: nat, p: seq<T>)
    requires k > 0 && i <= |pool|
    ensures p in PermsFrom(pool, k, i) <==>
      exists j :: i <= j < |pool| && p != [] && p[0] == pool[j] && p[1..] in Perms(Without(pool, j), k - 1)
    decreases |pool| - i
  {
    if i < |pool| {
      PermsFromHas(pool, k, i + 1, p);
      PrependHas(pool[i], Perms(Without(pool, i), k - 1), p);
    }
  }

  /** Taking an element out of a pool without repeats leaves exactly the other elements. */
  lemma WithoutHas<T>(pool: seq<T>, j: nat, x: T)
    requires Distinct(pool) && j < |pool|
    ensures Distinct(Without(pool, j))
    ensures x in Without(pool, j) <==> x in pool && x != pool[j]
  {
    var w := Without(pool, j);
    assert forall a :: 0 <= a < |w| ==> w[a] == if a < j then pool[a] else pool[a + 1];
    if x in pool && x != pool[j] {
      var a :| 0 <= a < |pool| && pool[a] == x;
      assert w[if a < j then a else a - 1] == x;
    }
  }

  /** Every k-permutation of a pool without repeats is k different elements of the pool. */
  lemma {:induction false} PermsSound<T>(pool: seq<T>, k: nat, p: seq<T>)
    requires Distinct(pool) && p in Perms(pool, k)
    ensures |p| == k && Distinct(p) && forall x :: x in p ==> x in pool
    decreases k
  {
    if k > 0 {
      PermsFromHas(pool, k, 0, p);
      var j :| 0 <= j < |pool| && p != [] && p[0] == pool[j] && p[1..] in Perms(Without(pool, j), k - 1);
      WithoutHas(pool, j, p[0]);
      PermsSound(Without(pool, j), k - 1, p[1..]);
      forall x | x in p[1..] ensures x in pool && x != p[0] {
        WithoutHas(pool, j, x);
      }
      assert p == [p[0]] + p[1..];
    }
  }

  /** Every sequence of k different elements of the pool is among its k-permutations. */
  lemma {:induction false} PermsComplete<T>(pool: seq<T>, k: nat, p: seq<T>)
    requires Distinct(pool) && |p| == k && Distinct(p) && forall x :: x in p ==> x in pool
    ensures p in Perms(pool, k)
    decreases k
  {
    if k > 0 {
      PermsFromHas(pool, k, 0, p);
      assert p[0] in p;
      var j :| 0 <= j < |pool| && pool[j] == p[0];
      WithoutHas(pool, j, p[0]);
      forall x | x in p[1..] ensures x in Without(pool, j) {
        var a :| 0 <= a < |p[1..]| && p[1..][a] == x;
        assert p[a + 1] == x && p[a + 1] != p[0];
        WithoutHas(pool, j, x);
      }
      PermsComplete(Without(pool, j), k - 1, p[1..]);
    } else {
      assert p == [];
    }
  }

  /** From a pool without repeats, `itertools.permutations(pool, k)` lists exactly the
      sequences of k different elements of the pool. */
  lemma PermsExact<T>(pool: seq<T>, k: nat, p: seq<T>)
    requires Distinct(pool)
    ensures p in Perms(pool, k) <==> |p| == k && Distinct(p) && forall x :: x in p ==> x in pool
  {
    if p in Perms(pool, k) {
      PermsSound(pool, k, p);
    }
    if |p| == k && Distinct(p) && forall x :: x in p ==> x in pool {
      PermsComplete(pool, k, p);
    }
  }

  /** `next(...)` over a generator of candidates: the answer of the first candidate that
      has one, None where Python would raise StopIteration. */
  function FindFirst<T, R>(xs: seq<T>, f: T -> Option<R>): Option<R> {
    if xs == [] then None else if f(xs[0]).Some? then f(xs[0]) else FindFirst(xs[1..], f)
  }

  /** The answer comes from the first candidate that has one. */
  lemma {:induction false} FindFirstAt<T, R>(xs: seq<T>, f: T -> Option<R>) returns (i: nat)
    requires FindFirst(xs, f).Some?
    ensures i < |xs| && f(xs[i]) == FindFirst(xs, f)
    ensures forall j :: 0 <= j < i ==> f(xs[j]) == None
  {
    if f(xs[0]).Some? {
      i := 0;
    } else {
      var k := FindFirstAt(xs[1..], f);
      i := k + 1;
    }
  }

  /** There is an answer as soon as one candidate has one. */
  lemma {:induction false} FindFirstSome<T, R>(xs: seq<T>, f: T -> Option<R>, i: nat)
    requires i < |xs| && f(xs[i]).Some?
    ensures FindFirst(xs, f).Some?
  {
    if i > 0 && f(xs[0]).None? {
      FindFirstSome(xs[1..], f, i - 1);
    }
  }
}

/** The orderings of five days, floors or houses the puzzles search: every arrangement of the
    numbers 1 to 5. */
module Orderings {
  import opened Permutations

  /** Five different numbers from 1 to 5. */
  predicate IsOrdering(p: seq<nat>) {
    |p| == 5 && Distinct(p) && forall x :: x in p ==> 1 <= x <= 5
  }

  /** Five different numbers from 1 to 5 are all of them. */
  lemma AllFive(p: seq<nat>, x: nat)
    requires IsOrdering(p) && 1 <= x <= 5
    ensures x in p
  {
    var a, b, c, d, e := p[0], p[1], p[2], p[3], p[4];
    assert a in p && b in p && c in p && d in p && e in p;
    assert a != b && a != c && a != d && a != e && b != c && b != d && b != e && c != d && c != e && d != e;
    assert p == [a, b, c, d, e];
  }

  /** The permutations of an ordering are exactly the orderings. */
  lemma OrderingsExact(pool: seq<nat>, p: seq<nat>)
    requires IsOrdering(pool)
    ensures p in Perms(pool, |pool|) <==> IsOrdering(p)
  {
    PermsExact(pool, |pool|, p);
    if IsOrdering(p) {
      forall x | x in p ensures x in pool {
        AllFive(pool, x);
      }
    }
  }
}
