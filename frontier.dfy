/** Paths that carry running costs, `[s0, (a1, c1), s1, ..., (an, cn), sn]` with each total `ci`
    stored beside its action, and the frontier the cost-ordered searches keep: one path per end
    state, replaced by a path that is no costlier. */
module CostPaths {
  import opened Paths

  type CostPath<S, A> = Path<S, (A, nat)>

  /** `path_cost`: 0 for a path shorter than 3, otherwise the total stored with the last action
      (a path whose last-but-one element is not an action, which the searches never build,
      also counts 0). */
  function PathCost<S, A>(p: CostPath<S, A>): nat {
    if |p| < 3 then 0 else if p[|p| - 2].Act? then p[|p| - 2].action.1 else 0
  }

  /** The total stored with the k-th action, 0 at the start. */
  function TotalAt<S, A>(p: CostPath<S, A>, k: nat): nat
    requires WellFormed(p) && k <= Steps(p)
  {
    if k == 0 then 0 else ActionAt(p, k - 1).1
  }

  /** Step k of the path, (s, (a, c), s'), has s': a in `succ(s)` and c is the previous total
      plus the cost of a. */
  ghost predicate CostStep<S, A>(p: CostPath<S, A>, succ: S -> seq<(S, A)>, cost: A -> nat, k: nat)
    requires WellFormed(p) && k < Steps(p)
  {
    && (StateAt(p, k + 1), ActionAt(p, k).0) in succ(StateAt(p, k))
    && ActionAt(p, k).1 == TotalAt(p, k) + cost(ActionAt(p, k).0)
  }

  /** The path leaves `start` and every step is a cost step. */
  ghost predicate ValidCostPath<S, A>(p: CostPath<S, A>, start: S, succ: S -> seq<(S, A)>, cost: A -> nat) {
    && WellFormed(p)
    && StateAt(p, 0) == start
    && forall k :: 0 <= k < Steps(p) ==> CostStep(p, succ, cost, k)
  }

  /** Two cost paths that agree up to the k-th state and then take the same step at the same
      cost agree one step further. */
  lemma FollowsCost<S, A>(q: CostPath<S, A>, p: CostPath<S, A>, k: nat, c: nat)
    requires Follows(q, p, k) && k < Steps(q) && k < Steps(p)
    requires StateAt(q, k + 1) == StateAt(p, k + 1) && ActionAt(q, k).0 == ActionAt(p, k).0
    requires ActionAt(q, k).1 == TotalAt(q, k) + c && ActionAt(p, k).1 == TotalAt(p, k) + c
    ensures Follows(q, p, k + 1)
  {
    if k > 0 {
      FollowsAction(q, p, k, k - 1);
    }
    FollowsOn(q, p, k);
  }

  /** The sum of the costs of the first k actions. */
  function CostSum<S, A>(p: CostPath<S, A>, cost: A -> nat, k: nat): nat
    requires WellFormed(p) && k <= Steps(p)
  {
    if k == 0 then 0 else CostSum(p, cost, k - 1) + cost(ActionAt(p, k - 1).0)
  }

  lemma PathCostIsLastTotal<S, A>(p: CostPath<S, A>)
    requires WellFormed(p)
    ensures PathCost(p) == TotalAt(p, Steps(p))
  {
    if Steps(p) > 0 {
      assert 2 * (Steps(p) - 1) + 1 == |p| - 2;
    }
  }

  /** On a valid cost path each stored total is the sum of the action costs so far, so the
      path's cost is the sum of its action costs. */
  lemma {:induction false} TotalIsSum<S, A>(p: CostPath<S, A>, start: S, succ: S -> seq<(S, A)>, cost: A -> nat, k: nat)
    requires ValidCostPath(p, start, succ, cost) && k <= Steps(p)
    ensures TotalAt(p, k) == CostSum(p, cost, k)
    ensures k == Steps(p) ==> PathCost(p) == CostSum(p, cost, k)
  {
    if k > 0 {
      TotalIsSum(p, start, succ, cost, k - 1);
      assert CostStep(p, succ, cost, k - 1);
    }
    PathCostIsLastTotal(p);
  }

  /** Totals never decrease along a valid path. */
  lemma {:induction false} TotalMonotone<S, A>(p: CostPath<S, A>, start: S, succ: S -> seq<(S, A)>, cost: A -> nat, i: nat, j: nat)
    requires ValidCostPath(p, start, succ, cost) && i <= j <= Steps(p)
    ensures TotalAt(p, i) <= TotalAt(p, j)
  {
    if i < j {
      TotalMonotone(p, start, succ, cost, i, j - 1);
      assert CostStep(p, succ, cost, j - 1);
    }
  }

  /** `path + [(action, total_cost), state]` with the total `path_cost(path) + cost(action)`. */
  function Extended<S, A>(p: CostPath<S, A>, a: A, t: S, cost: A -> nat): CostPath<S, A> {
    p + [Act((a, PathCost(p) + cost(a))), St(t)]
  }

  /** `path + [(action, path_cost(path) + cost(action)), state]` extends a valid cost path to a
      valid cost path whose cost grows by the action's cost. */
  lemma CostExtend<S, A>(p: CostPath<S, A>, start: S, succ: S -> seq<(S, A)>, cost: A -> nat, a: A, t: S)
    requires ValidCostPath(p, start, succ, cost)
    requires (t, a) in succ(LastState(p))
    ensures var p2 := Extended(p, a, t, cost);
      && ValidCostPath(p2, start, succ, cost)
      && PathCost(p2) == PathCost(p) + cost(a)
      && LastState(p2) == t && Steps(p2) == Steps(p) + 1
  {
    var p2 := p + [Act((a, PathCost(p) + cost(a))), St(t)];
    assert WellFormed(p2) by {
      forall i | 0 <= i < |p2| ensures (p2[i].St? <==> i % 2 == 0) {
        if i < |p| { assert p2[i] == p[i]; }
      }
    }
    PathCostIsLastTotal(p);
    forall k | 0 <= k < Steps(p2) ensures CostStep(p2, succ, cost, k) {
      assert StateAt(p2, k) == StateAt(p, k);
      assert TotalAt(p2, k) == TotalAt(p, k);
      if k < Steps(p) {
        assert CostStep(p, succ, cost, k);
        assert StateAt(p2, k + 1) == StateAt(p, k + 1);
        assert ActionAt(p2, k) == ActionAt(p, k);
      }
    }
  }

  /** The first i steps of a valid cost path form a valid cost path of cost `TotalAt(p, i)`. */
  lemma CostPrefix<S, A>(p: CostPath<S, A>, start: S, succ: S -> seq<(S, A)>, cost: A -> nat, i: nat)
    requires ValidCostPath(p, start, succ, cost) && i <= Steps(p)
    ensures var q := p[..2 * i + 1];
      && ValidCostPath(q, start, succ, cost)
      && Steps(q) == i && LastState(q) == StateAt(p, i) && PathCost(q) == TotalAt(p, i)
  {
    var q := p[..2 * i + 1];
    assert WellFormed(q) by {
      forall j | 0 <= j < |q| ensures (q[j].St? <==> j % 2 == 0) {
        assert q[j] == p[j];
      }
    }
    forall k | 0 <= k < Steps(q) ensures CostStep(q, succ, cost, k) {
      assert CostStep(p, succ, cost, k);
      assert StateAt(q, k) == StateAt(p, k);
      assert StateAt(q, k + 1) == StateAt(p, k + 1);
      assert ActionAt(q, k) == ActionAt(p, k);
      assert TotalAt(q, k) == TotalAt(p, k);
    }
    PathCostIsLastTotal(q);
    assert TotalAt(q, i) == TotalAt(p, i);
  }
}

/** The frontier of `lowest_cost_search` and of `bridge_problem2`: a list of cost paths that
    `add_to_frontier` updates in place. */
module Frontiers {
  import opened Common
  import opened Sorting
  import opened Paths
  import opened CostPaths

  predicate AllWellFormed<S, A>(ps: seq<CostPath<S, A>>) {
    forall i :: 0 <= i < |ps| ==> WellFormed(ps[i])
  }

  /** No two paths of the frontier end in the same state. */
  predicate DistinctEnds<S(==), A>(ps: seq<CostPath<S, A>>)
    requires AllWellFormed(ps)
  {
    forall i, j :: 0 <= i < j < |ps| ==> LastState(ps[i]) != LastState(ps[j])
  }

  /** The position of the first path ending in t, or |ps| when there is none. */
  function FirstEnd<S(==), A>(ps: seq<CostPath<S, A>>, t: S): (i: nat)
    requires AllWellFormed(ps)
    ensures i <= |ps| && (i < |ps| ==> LastState(ps[i]) == t)
    ensures forall j :: 0 <= j < i ==> LastState(ps[j]) != t
  {
    if |ps| == 0 then 0 else if LastState(ps[0]) == t then 0 else 1 + FirstEnd(ps[1..], t)
  }

  /** `del frontier[i]`, or nothing when i is past the end. */
  function Remove<T>(ps: seq<T>, i: nat): (r: seq<T>)
    ensures i < |ps| ==> r == ps[..i] + ps[i + 1..]
    ensures i >= |ps| ==> r == ps
  {
    if i < |ps| then ps[..i] + ps[i + 1..] else ps
  }

  /** `add_to_frontier` of the lowest-cost search: keep the frontier when its path to the same
      end is strictly cheaper; otherwise drop that path, append the new one and re-sort. */
  function Added<S(==), A>(ps: seq<CostPath<S, A>>, path: CostPath<S, A>): seq<CostPath<S, A>>
    requires AllWellFormed(ps) && WellFormed(path)
  {
    var i := FirstEnd(ps, LastState(path));
    if i < |ps| && PathCost(ps[i]) < PathCost(path) then ps else SortBy(Remove(ps, i) + [path], PathCost)
  }

  /** `add_to_frontier` of the bridge file: the same, without the re-sort. */
  function AddedUnsorted<S(==), A>(ps: seq<CostPath<S, A>>, path: CostPath<S, A>): seq<CostPath<S, A>>
    requires AllWellFormed(ps) && WellFormed(path)
  {
    var i := FirstEnd(ps, LastState(path));
    if i < |ps| && PathCost(ps[i]) < PathCost(path) then ps else Remove(ps, i) + [path]
  }

  /** Some path of the frontier ends in t at cost c or less. */
  ghost predicate Reaches<S, A>(ps: seq<CostPath<S, A>>, t: S, c: nat)
    requires AllWellFormed(ps)
  {
    exists j :: 0 <= j < |ps| && LastState(ps[j]) == t && PathCost(ps[j]) <= c
  }

  /** Removing position i shifts the later elements down by one. */
  lemma RemoveAt<T>(ps: seq<T>, i: nat)
    requires i < |ps|
    ensures var r := Remove(ps, i);
      && |r| == |ps| - 1
      && (forall k :: 0 <= k < i ==> r[k] == ps[k])
      && (forall k :: i <= k < |r| ==> r[k] == ps[k + 1])
  {
  }

  /** `del frontier[old]` of the first path ending in t drops the only such path and keeps
      every other one, in order. */
  lemma RemoveEnd<S, A>(ps: seq<CostPath<S, A>>, t: S)
    requires AllWellFormed(ps) && DistinctEnds(ps)
    ensures var r := Remove(ps, FirstEnd(ps, t));
      && AllWellFormed(r) && DistinctEnds(r)
      && (SortedBy(ps, PathCost) ==> SortedBy(r, PathCost))
      && (forall x :: x in r ==> x in ps && LastState(x) != t)
      && (forall k :: 0 <= k < |ps| && LastState(ps[k]) != t ==> ps[k] in r)
  {
    var i := FirstEnd(ps, t);
    if i < |ps| {
      RemoveSorted(ps, i);
      RemoveDrops(ps, i);
      RemoveKeeps(ps, i);
    } else {
      forall x | x in ps ensures LastState(x) != t {
        var k :| 0 <= k < |ps| && ps[k] == x;
      }
    }
  }

  lemma RemoveDrops<S, A>(ps: seq<CostPath<S, A>>, i: nat)
    requires AllWellFormed(ps) && DistinctEnds(ps) && i < |ps|
    ensures forall x :: x in Remove(ps, i) ==> x in ps && LastState(x) != LastState(ps[i])
  {
    var r := Remove(ps, i);
    RemoveAt(ps, i);
    forall x | x in r ensures x in ps && LastState(x) != LastState(ps[i]) {
      var k :| 0 <= k < |r| && r[k] == x;
      var m := if k < i then k else k + 1;
      assert x == ps[m] && m != i;
    }
  }

  lemma RemoveKeeps<S, A>(ps: seq<CostPath<S, A>>, i: nat)
    requires AllWellFormed(ps) && i < |ps|
    ensures forall k :: 0 <= k < |ps| && k != i ==> ps[k] in Remove(ps, i)
  {
    var r := Remove(ps, i);
    RemoveAt(ps, i);
    forall k | 0 <= k < |ps| && k != i ensures ps[k] in r {
      if k < i { assert r[k] == ps[k]; } else { assert r[k - 1] == ps[k]; }
    }
  }

  lemma RemoveSorted<S, A>(ps: seq<CostPath<S, A>>, i: nat)
    requires AllWellFormed(ps) && DistinctEnds(ps) && i < |ps|
    ensures var r := Remove(ps, i);
      && AllWellFormed(r) && DistinctEnds(r)
      && (SortedBy(ps, PathCost) ==> SortedBy(r, PathCost))
  {
    var r := Remove(ps, i);
    RemoveAt(ps, i);
    assert forall k :: 0 <= k < |r| ==> r[k] == ps[if k < i then k else k + 1];
  }

  lemma {:induction false} InsertDistinct<S, A>(x: CostPath<S, A>, ps: seq<CostPath<S, A>>)
    requires AllWellFormed(ps) && DistinctEnds(ps) && WellFormed(x)
    requires forall k :: 0 <= k < |ps| ==> LastState(ps[k]) != LastState(x)
    ensures AllWellFormed(InsertBy(x, ps, PathCost)) && DistinctEnds(InsertBy(x, ps, PathCost))
  {
    if |ps| > 0 && PathCost(x) >= PathCost(ps[0]) {
      var tail := InsertBy(x, ps[1..], PathCost);
      InsertDistinct(x, ps[1..]);
      InsertBySpec(x, ps[1..], PathCost);
      var r := [ps[0]] + tail;
      forall k | 0 < k < |r| ensures LastState(r[k]) != LastState(ps[0]) {
        assert r[k] == tail[k - 1];
        InsertedEnd(x, ps, k - 1);
      }
    }
  }

  /** A path of the tail after inserting x past the head is x or a later path of ps, so it
      ends elsewhere than the head. */
  lemma InsertedEnd<S, A>(x: CostPath<S, A>, ps: seq<CostPath<S, A>>, k: nat)
    requires AllWellFormed(ps) && DistinctEnds(ps) && WellFormed(x) && |ps| > 0
    requires forall k :: 0 <= k < |ps| ==> LastState(ps[k]) != LastState(x)
    requires AllWellFormed(InsertBy(x, ps[1..], PathCost)) && k < |InsertBy(x, ps[1..], PathCost)|
    ensures LastState(InsertBy(x, ps[1..], PathCost)[k]) != LastState(ps[0])
  {
    var y := InsertBy(x, ps[1..], PathCost)[k];
    InsertBySpec(x, ps[1..], PathCost);
    assert y in multiset(InsertBy(x, ps[1..], PathCost));
    if y != x {
      assert y in multiset(ps[1..]);
      var m :| 0 <= m < |ps[1..]| && ps[1..][m] == y;
      assert ps[m + 1] == y;
    }
  }

  /** The sorted `add_to_frontier`: the result keeps the frontier sorted with distinct ends;
      its one path to t, the end of the new path, is the new path unless the frontier held a
      strictly cheaper one, which it then keeps; every path to another state stays; and no path
      comes from elsewhere. */
  lemma AddedSpec<S, A>(ps: seq<CostPath<S, A>>, path: CostPath<S, A>)
    requires AllWellFormed(ps) && DistinctEnds(ps) && SortedBy(ps, PathCost) && WellFormed(path)
    ensures var r := Added(ps, path); var t := LastState(path);
      && AllWellFormed(r) && DistinctEnds(r) && SortedBy(r, PathCost)
      && (forall x :: x in r ==> x in ps || x == path)
      && (forall k :: 0 <= k < |ps| && LastState(ps[k]) != t ==> ps[k] in r)
      && (forall x :: x in r && LastState(x) == t ==> x == path || PathCost(x) < PathCost(path))
      && ((forall k :: 0 <= k < |ps| && LastState(ps[k]) == t ==> PathCost(path) <= PathCost(ps[k])) ==> path in r)
      && ((exists k :: 0 <= k < |ps| && LastState(ps[k]) == t && PathCost(ps[k]) < PathCost(path)) ==> r == ps)
  {
    var t := LastState(path);
    var i := FirstEnd(ps, t);
    OnlyFirstEnd(ps, t);
    if i < |ps| && PathCost(ps[i]) < PathCost(path) {
      assert Added(ps, path) == ps;
    } else {
      RemoveEnd(ps, t);
      AddedReplace(ps, path);
      InsertFresh(path, Remove(ps, i));
      ReplaceContents(ps, path, Remove(ps, i), Added(ps, path));
    }
  }

  /** A list holding the paths of the frontier other than its path to t, plus the new path,
      holds the new path as its one path to t. */
  lemma ReplaceContents<S, A>(ps: seq<CostPath<S, A>>, path: CostPath<S, A>, rest: seq<CostPath<S, A>>,
      r: seq<CostPath<S, A>>)
    requires AllWellFormed(ps) && WellFormed(path)
    requires forall x :: x in rest ==> x in ps && LastState(x) != LastState(path)
    requires forall k :: 0 <= k < |ps| && LastState(ps[k]) != LastState(path) ==> ps[k] in rest
    requires multiset(r) == multiset(rest) + multiset{path}
    ensures var t := LastState(path);
      && (forall x :: x in r ==> x in ps || x == path)
      && (forall k :: 0 <= k < |ps| && LastState(ps[k]) != t ==> ps[k] in r)
      && (forall x :: x in r && LastState(x) == t ==> x == path)
      && path in r
  {
    forall x | x in r ensures x in rest || x == path {
      assert x in multiset(r);
    }
    forall k | 0 <= k < |ps| && LastState(ps[k]) != LastState(path) ensures ps[k] in r {
      assert ps[k] in rest;
      assert ps[k] in multiset(rest);
      assert ps[k] in multiset(r);
    }
    assert path in multiset(r);
  }

  /** With distinct ends, the first path ending in t is the only one. */
  lemma OnlyFirstEnd<S, A>(ps: seq<CostPath<S, A>>, t: S)
    requires AllWellFormed(ps) && DistinctEnds(ps)
    ensures forall k :: 0 <= k < |ps| && LastState(ps[k]) == t ==> k == FirstEnd(ps, t)
  {
  }

  /** When the new path replaces, `add_to_frontier` inserts it into the rest by cost. */
  lemma AddedReplace<S, A>(ps: seq<CostPath<S, A>>, path: CostPath<S, A>)
    requires AllWellFormed(ps) && WellFormed(path)
    requires SortedBy(Remove(ps, FirstEnd(ps, LastState(path))), PathCost)
    requires var i := FirstEnd(ps, LastState(path)); !(i < |ps| && PathCost(ps[i]) < PathCost(path))
    ensures Added(ps, path) == InsertBy(path, Remove(ps, FirstEnd(ps, LastState(path))), PathCost)
  {
    SortAppend(Remove(ps, FirstEnd(ps, LastState(path))), path, PathCost);
  }

  /** Inserting a path whose end no path of a sorted frontier has keeps the frontier sorted
      with distinct ends, and adds exactly that path. */
  lemma InsertFresh<S, A>(path: CostPath<S, A>, rest: seq<CostPath<S, A>>)
    requires AllWellFormed(rest) && DistinctEnds(rest) && SortedBy(rest, PathCost) && WellFormed(path)
    requires forall x :: x in rest ==> LastState(x) != LastState(path)
    ensures var r := InsertBy(path, rest, PathCost);
      && AllWellFormed(r) && DistinctEnds(r) && SortedBy(r, PathCost)
      && multiset(r) == multiset(rest) + multiset{path}
  {
    InsertBySpec(path, rest, PathCost);
    forall k | 0 <= k < |rest| ensures LastState(rest[k]) != LastState(path) {
      assert rest[k] in rest;
    }
    InsertDistinct(path, rest);
  }

  /** The unsorted `add_to_frontier`: the same replacement, with the new path appended last. */
  lemma AddedUnsortedSpec<S, A>(ps: seq<CostPath<S, A>>, path: CostPath<S, A>)
    requires AllWellFormed(ps) && DistinctEnds(ps) && WellFormed(path)
    ensures var r := AddedUnsorted(ps, path); var t := LastState(path);
      && AllWellFormed(r) && DistinctEnds(r)
      && (forall x :: x in r ==> x in ps || x == path)
      && (forall k :: 0 <= k < |ps| && LastState(ps[k]) != t ==> ps[k] in r)
      && (forall x :: x in r && LastState(x) == t ==> x == path || PathCost(x) < PathCost(path))
      && ((forall k :: 0 <= k < |ps| && LastState(ps[k]) == t ==> PathCost(path) <= PathCost(ps[k])) ==> path in r && r[|r| - 1] == path)
      && ((exists k :: 0 <= k < |ps| && LastState(ps[k]) == t && PathCost(ps[k]) < PathCost(path)) ==> r == ps)
  {
    var t := LastState(path);
    var i := FirstEnd(ps, t);
    RemoveEnd(ps, t);
    var rest := Remove(ps, i);
    if !(i < |ps| && PathCost(ps[i]) < PathCost(path)) {
      SnocDistinctEnds(rest, path);
      forall k | 0 <= k < |ps| && LastState(ps[k]) == t ensures PathCost(path) <= PathCost(ps[k]) {
        assert k == i;
      }
    }
  }

  /** A path whose end no path of the frontier has can go last. */
  lemma SnocDistinctEnds<S, A>(ps: seq<CostPath<S, A>>, path: CostPath<S, A>)
    requires AllWellFormed(ps) && DistinctEnds(ps) && WellFormed(path)
    requires forall x :: x in ps ==> LastState(x) != LastState(path)
    ensures AllWellFormed(ps + [path]) && DistinctEnds(ps + [path])
  {
    var r := ps + [path];
    assert AllWellFormed(r) by {
      forall a | 0 <= a < |r| ensures WellFormed(r[a]) {
        if a < |ps| { assert r[a] == ps[a]; }
      }
    }
    forall a, b | 0 <= a < b < |r| ensures LastState(r[a]) != LastState(r[b]) {
      assert r[a] == ps[a] && r[a] in ps;
      if b < |ps| { assert r[b] == ps[b]; }
    }
  }

  /** A path replaces the frontier's path to the same state only when it is no costlier, so
      every bound the frontier met before the update it meets after, and it meets the new path's
      own cost for the new path's end. */
  lemma AddedReaches<S, A>(ps: seq<CostPath<S, A>>, path: CostPath<S, A>, r: seq<CostPath<S, A>>)
    requires AllWellFormed(ps) && DistinctEnds(ps) && WellFormed(path) && AllWellFormed(r)
    requires forall k :: 0 <= k < |ps| && LastState(ps[k]) != LastState(path) ==> ps[k] in r
    requires (forall k :: 0 <= k < |ps| && LastState(ps[k]) == LastState(path) ==> PathCost(path) <= PathCost(ps[k])) ==> path in r
    requires (exists k :: 0 <= k < |ps| && LastState(ps[k]) == LastState(path) && PathCost(ps[k]) < PathCost(path)) ==> r == ps
    ensures forall s, c :: Reaches(ps, s, c) ==> Reaches(r, s, c)
    ensures Reaches(r, LastState(path), PathCost(path))
  {
    var t := LastState(path);
    forall s, c | Reaches(ps, s, c) ensures Reaches(r, s, c) {
      var j :| 0 <= j < |ps| && LastState(ps[j]) == s && PathCost(ps[j]) <= c;
      if s != t {
        var m :| 0 <= m < |r| && r[m] == ps[j];
      } else if r == ps {
      } else {
        var m :| 0 <= m < |r| && r[m] == path;
      }
    }
    if r == ps {
      if exists k :: 0 <= k < |ps| && LastState(ps[k]) == t && PathCost(ps[k]) < PathCost(path) {
        var k :| 0 <= k < |ps| && LastState(ps[k]) == t && PathCost(ps[k]) < PathCost(path);
        assert r[k] == ps[k];
      } else {
        var m :| 0 <= m < |r| && r[m] == path;
      }
    } else {
      var m :| 0 <= m < |r| && r[m] == path;
    }
  }

  /** The frontier list, which `add_to_frontier` updates in place. */
  class Frontier<S(==), A> {
    var paths: seq<CostPath<S, A>>

    /** `frontier = [[start]]`. */
    constructor (start: S)
      ensures paths == [[St(start)]]
    {
      paths := [[St(start)]];
    }

    /** `frontier.pop(0)`. */
    method Pop() returns (p: CostPath<S, A>)
      requires paths != []
      modifies this
      ensures p == old(paths)[0] && paths == old(paths)[1..]
    {
      p := paths[0];
      paths := paths[1..];
    }

    /** The loop that looks for an old path to t: the index of the first path ending in t,
        or None. */
    method FindOld(t: S) returns (oldAt: Option<nat>)
      requires AllWellFormed(paths)
      ensures oldAt.Some? ==> oldAt.value < |paths| && LastState(paths[oldAt.value]) == t
      ensures oldAt.Some? ==> forall j :: 0 <= j < oldAt.value ==> LastState(paths[j]) != t
      ensures oldAt.None? ==> forall j :: 0 <= j < |paths| ==> LastState(paths[j]) != t
    {
      oldAt := None;
      var i := 0;
      while i < |paths|
        invariant 0 <= i <= |paths|
        invariant forall j :: 0 <= j < i ==> LastState(paths[j]) != t
      {
        if LastState(paths[i]) == t {
          oldAt := Some(i);
          break;
        }
        i := i + 1;
      }
    }

    /** `add_to_frontier` of the lowest-cost search. */
    method AddToFrontier(path: CostPath<S, A>)
      requires AllWellFormed(paths) && WellFormed(path)
      modifies this
      ensures paths == Added(old(paths), path)
    {
      ghost var ps := paths;
      var oldAt := FindOld(LastState(path));
      FindOldIsFirstEnd(ps, LastState(path), oldAt);
      if oldAt.Some? && PathCost(paths[oldAt.value]) < PathCost(path) {
        return;
      } else if oldAt.Some? {
        paths := paths[..oldAt.value] + paths[oldAt.value + 1..];
      }
      paths := paths + [path];
      paths := SortBy(paths, PathCost);
    }

    /** `add_to_frontier` of the bridge search, which does not re-sort. */
    method AddToFrontierUnsorted(path: CostPath<S, A>)
      requires AllWellFormed(paths) && WellFormed(path)
      modifies this
      ensures paths == AddedUnsorted(old(paths), path)
    {
      ghost var ps := paths;
      var oldAt := FindOld(LastState(path));
      FindOldIsFirstEnd(ps, LastState(path), oldAt);
      if oldAt.Some? && PathCost(paths[oldAt.value]) < PathCost(path) {
        return;
      } else if oldAt.Some? {
        paths := paths[..oldAt.value] + paths[oldAt.value + 1..];
      }
      paths := paths + [path];
    }
  }

  lemma FindOldIsFirstEnd<S, A>(ps: seq<CostPath<S, A>>, t: S, oldAt: Option<nat>)
    requires AllWellFormed(ps)
    requires oldAt.Some? ==> oldAt.value < |ps| && LastState(ps[oldAt.value]) == t
    requires oldAt.Some? ==> forall j :: 0 <= j < oldAt.value ==> LastState(ps[j]) != t
    requires oldAt.None? ==> forall j :: 0 <= j < |ps| ==> LastState(ps[j]) != t
    ensures oldAt.Some? ==> oldAt.value == FirstEnd(ps, t)
    ensures oldAt.None? ==> FirstEnd(ps, t) == |ps|
  {
  }
}
