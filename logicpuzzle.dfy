/** The logic puzzle of Hamming, Knuth, Minsky, Simon and Wilkes, who arrive on five different
    days (1 is Monday, 5 is Friday), each with a profession and an item bought. The names, the
    professions and the items are each given an ordering of the days, and the clues filter them. */
module LogicPuzzle {
  import opened Common
  import opened Permutations
  import opened Sorting
  import opened Orderings

  const Days: seq<nat> := [1, 2, 3, 4, 5]

  const Names: seq<string> := ["Hamming", "Knuth", "Minsky", "Simon", "Wilkes"]

  /** The clue on the days of (Hamming, Knuth, Minsky, Simon, Wilkes): Knuth arrives the day
      after Simon. */
  predicate NamesFit(n: seq<nat>) {
    |n| == 5 && n[1] as int - n[3] as int == 1
  }

  /** The clues on the days of (programmer, writer, manager, designer, nothing). */
  predicate JobsFit(n: seq<nat>, j: seq<nat>) {
    |n| == 5 && |j| == 5 &&
    var knuth, minsky, wilkes := n[1], n[2], n[4];
    var programmer, writer, manager, designer := j[0], j[1], j[2], j[3];
    && designer != 4
    && writer != minsky
    && programmer != wilkes
    && manager != knuth
    && knuth as int - manager as int == 1
  }

  /** The clues on the days of (laptop, droid, tablet, iphone, nothing). */
  predicate ItemsFit(n: seq<nat>, j: seq<nat>, it: seq<nat>) {
    |n| == 5 && |j| == 5 && |it| == 5 &&
    var hamming, wilkes := n[0], n[4];
    var programmer, writer, manager, designer := j[0], j[1], j[2], j[3];
    var laptop, droid, tablet, iphone := it[0], it[1], it[2], it[3];
    && {2} * {iphone, tablet} != {}
    && tablet != 5
    && laptop == 3
    && designer != droid
    && manager != tablet
    && {programmer, droid} == {wilkes, hamming}
    && {wilkes, laptop} == {1, writer}
  }

  /** Every clue holds. */
  predicate Solves(n: seq<nat>, j: seq<nat>, it: seq<nat>) {
    NamesFit(n) && JobsFit(n, j) && ItemsFit(n, j, it)
  }

  /** `zip([Hamming, Knuth, Minsky, Simon, Wilkes], names)`. */
  function Zip(n: seq<nat>): (r: seq<(nat, string)>)
    requires |n| == 5
    ensures |r| == 5
  {
    seq(5, i requires 0 <= i < 5 => (n[i], Names[i]))
  }

  function Day(p: (nat, string)): nat {
    p.0
  }

  /** `[name for _, name in sorted(zip(...))]`: the days are different, so sorting the pairs
      is sorting them by day. */
  function Arrivals(n: seq<nat>): (r: seq<string>)
    requires |n| == 5
    ensures |r| == 5
  {
    var sorted := SortBy(Zip(n), Day);
    seq(5, i requires 0 <= i < 5 => sorted[i].1)
  }

  /** Each name is listed at the place of its day: the names in the order they arrive. */
  lemma ArrivalsInOrder(n: seq<nat>)
    requires IsOrdering(n)
    ensures forall i :: 0 <= i < 5 ==> 1 <= n[i] <= 5 && Arrivals(n)[n[i] - 1] == Names[i]
  {
    var z := Zip(n);
    var sorted := SortBy(z, Day);
    SortBySpec(z, Day);
    SortedDays(n, sorted);
    var arrivals := Arrivals(n);
    assert forall k :: 0 <= k < 5 ==> arrivals[k] == sorted[k].1;
    forall i | 0 <= i < 5 ensures 1 <= n[i] <= 5 && arrivals[n[i] - 1] == Names[i] {
      SortedAt(n, sorted, i);
      assert z[i].1 == Names[i];
    }
  }

  /** The pair of name i sits at the place of its day. */
  lemma SortedAt(n: seq<nat>, sorted: seq<(nat, string)>, i: nat)
    requires IsOrdering(n) && multiset(sorted) == multiset(Zip(n))
    requires |sorted| == 5 && forall k :: 0 <= k < 5 ==> Day(sorted[k]) == k + 1
    requires i < 5
    ensures 1 <= n[i] <= 5 && sorted[n[i] - 1] == Zip(n)[i]
  {
    var z := Zip(n);
    assert n[i] in n;
    assert z[i] in multiset(sorted);
    var k :| 0 <= k < 5 && sorted[k] == z[i];
    assert Day(sorted[k]) == k + 1;
  }

  /** Sorting the pairs of five different days from 1 to 5 puts day k + 1 at place k. */
  lemma SortedDays(n: seq<nat>, sorted: seq<(nat, string)>)
    requires IsOrdering(n) && multiset(sorted) == multiset(Zip(n)) && SortedBy(sorted, Day)
    ensures |sorted| == 5 && forall k :: 0 <= k < 5 ==> Day(sorted[k]) == k + 1
  {
    assert |sorted| == |multiset(sorted)| == 5;
    forall k | 0 <= k < 5 ensures 1 <= Day(sorted[k]) <= 5 && (k < 4 ==> Day(sorted[k]) < Day(sorted[k + 1])) {
      SortedPair(n, sorted, k);
    }
    var d := seq(5, k requires 0 <= k < 5 => Day(sorted[k]));
    assert 1 <= d[0] < d[1] < d[2] < d[3] < d[4] <= 5;
  }

  /** Each sorted pair has a day from 1 to 5, earlier than that of the next pair. */
  lemma SortedPair(n: seq<nat>, sorted: seq<(nat, string)>, k: nat)
    requires IsOrdering(n) && multiset(sorted) == multiset(Zip(n)) && SortedBy(sorted, Day)
    requires k < 5 && |sorted| == 5
    ensures 1 <= Day(sorted[k]) <= 5 && (k < 4 ==> Day(sorted[k]) < Day(sorted[k + 1]))
  {
    var z := Zip(n);
    assert sorted[k] in multiset(z);
    var a :| 0 <= a < 5 && z[a] == sorted[k];
    assert n[a] in n;
    if k < 4 {
      assert sorted[k + 1] in multiset(z);
      var b :| 0 <= b < 5 && z[b] == sorted[k + 1];
      if a == b {
        assert Distinct(z);
        TwiceCounted(sorted, k, k + 1);
        DistinctCounted(z, z[a]);
        assert false;
      }
      assert Day(sorted[k]) <= Day(sorted[k + 1]);
    }
  }

  /** An element of a sequence without repeats is counted once. */
  lemma {:induction false} DistinctCounted<T>(s: seq<T>, x: T)
    requires Distinct(s)
    ensures multiset(s)[x] <= 1
  {
    if s != [] {
      assert s == [s[0]] + s[1..];
      assert Distinct(s[1..]);
      DistinctCounted(s[1..], x);
      if x == s[0] {
        assert x !in s[1..];
      }
    }
  }

  /** An element at two places of a sequence is counted at least twice. */
  lemma TwiceCounted<T>(s: seq<T>, k: nat, l: nat)
    requires k < l < |s| && s[k] == s[l]
    ensures multiset(s)[s[k]] >= 2
  {
    assert s == s[..l] + s[l..];
    assert s[..l][k] == s[k] && s[l..][0] == s[k];
  }

  /** The innermost loop: the first items ordering that completes n and j. */
  function ItemCandidate(n: seq<nat>, j: seq<nat>): seq<nat> -> Option<seq<string>> {
    (it: seq<nat>) => if ItemsFit(n, j, it) then Some(Arrivals(n)) else None
  }

  /** The middle loop: the first professions ordering that some items ordering completes. */
  function JobCandidate(orderings: seq<seq<nat>>, n: seq<nat>): seq<nat> -> Option<seq<string>> {
    (j: seq<nat>) => if JobsFit(n, j) then FindFirst(orderings, ItemCandidate(n, j)) else None
  }

  /** The outer loop, over the names. */
  function NameCandidate(orderings: seq<seq<nat>>): seq<nat> -> Option<seq<string>> {
    (n: seq<nat>) => if NamesFit(n) then FindFirst(orderings, JobCandidate(orderings, n)) else None
  }

  /** The generator of `logic_puzzle` over the orderings of the given days. */
  function Solve(days: seq<nat>): Option<seq<string>> {
    var orderings := Perms(days, |days|);
    FindFirst(orderings, NameCandidate(orderings))
  }

  /** `logic_puzzle()`. */
  function Puzzle(): Option<seq<string>> {
    Solve(Days)
  }

  /** The names ordering n can be completed by a professions and an items ordering. */
  ghost predicate Completes(orderings: seq<seq<nat>>, n: seq<nat>) {
    exists j, it :: j in orderings && it in orderings && Solves(n, j, it)
  }

  /** For a names ordering, the nested loops find an answer exactly when the ordering can be
      completed, and the answer then lists the names by day. */
  lemma NameCandidateExact(orderings: seq<seq<nat>>, n: seq<nat>)
    ensures NameCandidate(orderings)(n).Some? <==> Completes(orderings, n)
    ensures NameCandidate(orderings)(n).Some? ==> |n| == 5 && NameCandidate(orderings)(n) == Some(Arrivals(n))
  {
    if NameCandidate(orderings)(n).Some? {
      var a := FindFirstAt(orderings, JobCandidate(orderings, n));
      var j := orderings[a];
      var b := FindFirstAt(orderings, ItemCandidate(n, j));
      assert Solves(n, j, orderings[b]);
    }
    if Completes(orderings, n) {
      var j, it :| j in orderings && it in orderings && Solves(n, j, it);
      var b :| 0 <= b < |orderings| && orderings[b] == it;
      FindFirstSome(orderings, ItemCandidate(n, j), b);
      var a :| 0 <= a < |orderings| && orderings[a] == j;
      FindFirstSome(orderings, JobCandidate(orderings, n), a);
    }
  }

  /** The answer lists, by day, the names of the first names ordering in permutation order
      that professions and items orderings complete under every clue. */
  lemma SolveFirst(days: seq<nat>) returns (i: nat)
    requires Solve(days).Some?
    ensures var orderings := Perms(days, |days|);
      && i < |orderings| && Completes(orderings, orderings[i])
      && |orderings[i]| == 5 && Solve(days) == Some(Arrivals(orderings[i]))
      && forall k :: 0 <= k < i ==> !Completes(orderings, orderings[k])
  {
    var orderings := Perms(days, |days|);
    i := FindFirstAt(orderings, NameCandidate(orderings));
    NameCandidateExact(orderings, orderings[i]);
    forall k | 0 <= k < i ensures !Completes(orderings, orderings[k]) {
      NameCandidateExact(orderings, orderings[k]);
    }
  }

  /** There is an answer as soon as some orderings satisfy every clue. */
  lemma SolveSome(days: seq<nat>, n: seq<nat>, j: seq<nat>, it: seq<nat>)
    requires IsOrdering(days) && IsOrdering(n) && IsOrdering(j) && IsOrdering(it) && Solves(n, j, it)
    ensures Solve(days).Some?
  {
    var orderings := Perms(days, |days|);
    OrderingsExact(days, n);
    OrderingsExact(days, j);
    OrderingsExact(days, it);
    NameCandidateExact(orderings, n);
    var a :| 0 <= a < |orderings| && orderings[a] == n;
    FindFirstSome(orderings, NameCandidate(orderings), a);
  }

  /** The clues fix the days of the names: Hamming 4, Knuth 3, Minsky 5, Simon 2, Wilkes 1. */
  lemma OnlyNames(n: seq<nat>, j: seq<nat>, it: seq<nat>)
    requires IsOrdering(n) && IsOrdering(j) && IsOrdering(it) && Solves(n, j, it)
    ensures n == [4, 3, 5, 2, 1]
  {
    assert n[0] in n && n[1] in n && n[2] in n && n[3] in n && n[4] in n;
    assert j[0] in j && j[1] in j && j[2] in j && j[3] in j && j[4] in j;
    assert it[0] in it && it[1] in it && it[2] in it && it[3] in it && it[4] in it;
  }

  /** Over the orderings of days 1 to 5, taken in any order, the names come out as
      Wilkes, Simon, Knuth, Hamming, Minsky. */
  lemma SolveAnswer(days: seq<nat>)
    requires IsOrdering(days)
    ensures Solve(days) == Some(["Wilkes", "Simon", "Knuth", "Hamming", "Minsky"])
  {
    AnswerSolves([4, 3, 5, 2, 1], [4, 3, 2, 5, 1], [3, 1, 4, 2, 5]);
    SolveSome(days, [4, 3, 5, 2, 1], [4, 3, 2, 5, 1], [3, 1, 4, 2, 5]);
    var i := SolveFirst(days);
    FirstIsAnswer(days, i);
    AnswerArrivals(Perms(days, |days|)[i]);
  }

  /** The days of the answer satisfy every clue. */
  lemma AnswerSolves(n: seq<nat>, j: seq<nat>, it: seq<nat>)
    requires n == [4, 3, 5, 2, 1] && j == [4, 3, 2, 5, 1] && it == [3, 1, 4, 2, 5]
    ensures IsOrdering(n) && IsOrdering(j) && IsOrdering(it) && Solves(n, j, it)
  {
    assert 2 in {2} * {it[3], it[2]};
    assert {j[0], it[1]} == {n[4], n[0]};
    assert {n[4], it[0]} == {1, j[1]};
  }

  /** Hamming 4, Knuth 3, Minsky 5, Simon 2, Wilkes 1 arrive as Wilkes, Simon, Knuth, Hamming,
      Minsky. */
  lemma AnswerArrivals(n: seq<nat>)
    requires n == [4, 3, 5, 2, 1]
    ensures Arrivals(n) == ["Wilkes", "Simon", "Knuth", "Hamming", "Minsky"]
  {
    assert IsOrdering(n);
    ArrivalsInOrder(n);
    var r := Arrivals(n);
    assert r[3] == Names[0] && r[2] == Names[1] && r[4] == Names[2] && r[1] == Names[3] && r[0] == Names[4];
  }

  /** The names ordering the answer comes from is the only one the clues allow. */
  lemma FirstIsAnswer(days: seq<nat>, i: nat)
    requires IsOrdering(days)
    requires var orderings := Perms(days, |days|); i < |orderings| && Completes(orderings, orderings[i])
    ensures Perms(days, |days|)[i] == [4, 3, 5, 2, 1]
  {
    var orderings := Perms(days, |days|);
    var m := orderings[i];
    var j, it :| j in orderings && it in orderings && Solves(m, j, it);
    OrderingsExact(days, m);
    OrderingsExact(days, j);
    OrderingsExact(days, it);
    OnlyNames(m, j, it);
  }

  /** `logic_puzzle()` returns ['Wilkes', 'Simon', 'Knuth', 'Hamming', 'Minsky']. */
  lemma PuzzleAnswer()
    ensures Puzzle() == Some(["Wilkes", "Simon", "Knuth", "Hamming", "Minsky"])
  {
    DaysOrdering();
    SolveAnswer(Days);
  }

  lemma DaysOrdering()
    ensures IsOrdering(Days)
  {
  }
}
