/** The zebra puzzle: five houses, each with a colour, a nationality, a drink, a smoke and a pet.
    Each quality group is given an ordering of the houses 1 to 5, and the clues filter them;
    the answer is the houses of the water drinker and of the zebra. The integer generators of
    the same lesson follow. */
module Zebra {
  import opened Common
  import opened Permutations
  import opened Orderings

  /** `imright(h1, h2)`: house h1 is immediately right of h2. */
  predicate ImRight(h1: int, h2: int) {
    h1 - h2 == 1
  }

  /** `nextto(h1, h2)`: the two houses differ by one. */
  predicate NextTo(h1: int, h2: int) {
    (if h1 - h2 < 0 then h2 - h1 else h1 - h2) == 1
  }

  /** Two houses are next to each other exactly when one is immediately right of the other;
      so the relation is symmetric. */
  lemma NextToRight(h1: int, h2: int)
    ensures NextTo(h1, h2) <==> ImRight(h1, h2) || ImRight(h2, h1)
    ensures NextTo(h1, h2) == NextTo(h2, h1)
  {
  }

  const Houses: seq<nat> := [1, 2, 3, 4, 5]

  const First: nat := 1

  const Middle: nat := 3

  /** (red, green, ivory, yellow, blue). */
  predicate ColorsFit(c: seq<nat>) {
    |c| == 5 && ImRight(c[1], c[2])
  }

  /** (Englishman, Spaniard, Ukranian, Japanese, Norwegian). */
  predicate NationsFit(c: seq<nat>, n: seq<nat>) {
    |c| == 5 && |n| == 5 && n[0] == c[0] && n[4] == First && NextTo(n[4], c[4])
  }

  /** (coffee, tea, milk, oj, WATER). */
  predicate DrinksFit(c: seq<nat>, n: seq<nat>, d: seq<nat>) {
    |c| == 5 && |n| == 5 && |d| == 5 && d[0] == c[1] && n[2] == d[1] && d[2] == Middle
  }

  /** (OldGold, Kools, Chesterfields, LuckyStrike, Parliaments). */
  predicate SmokesFit(c: seq<nat>, n: seq<nat>, d: seq<nat>, s: seq<nat>) {
    |c| == 5 && |n| == 5 && |d| == 5 && |s| == 5 && s[1] == c[3] && s[3] == d[3] && n[3] == s[4]
  }

  /** (dog, snails, fox, horse, ZEBRA). */
  predicate PetsFit(n: seq<nat>, s: seq<nat>, p: seq<nat>) {
    |n| == 5 && |s| == 5 && |p| == 5 && n[1] == p[0] && s[0] == p[1] && NextTo(s[2], p[2]) && NextTo(s[1], p[3])
  }

  /** Every clue holds. */
  predicate Solution(c: seq<nat>, n: seq<nat>, d: seq<nat>, s: seq<nat>, p: seq<nat>) {
    ColorsFit(c) && NationsFit(c, n) && DrinksFit(c, n, d) && SmokesFit(c, n, d, s) && PetsFit(n, s, p)
  }

  /** `(WATER, ZEBRA)`. */
  function Answer(d: seq<nat>, p: seq<nat>): (nat, nat)
    requires |d| == 5 && |p| == 5
  {
    (d[4], p[4])
  }

  // The nested loops of the generator, innermost first.

  function PetCandidate(n: seq<nat>, d: seq<nat>, s: seq<nat>): seq<nat> -> Option<(nat, nat)> {
    (p: seq<nat>) => if |d| == 5 && PetsFit(n, s, p) then Some(Answer(d, p)) else None
  }

  function SmokeCandidate(orderings: seq<seq<nat>>, c: seq<nat>, n: seq<nat>, d: seq<nat>): seq<nat> -> Option<(nat, nat)> {
    (s: seq<nat>) => if SmokesFit(c, n, d, s) then FindFirst(orderings, PetCandidate(n, d, s)) else None
  }

  function DrinkCandidate(orderings: seq<seq<nat>>, c: seq<nat>, n: seq<nat>): seq<nat> -> Option<(nat, nat)> {
    (d: seq<nat>) => if DrinksFit(c, n, d) then FindFirst(orderings, SmokeCandidate(orderings, c, n, d)) else None
  }

  function NationCandidate(orderings: seq<seq<nat>>, c: seq<nat>): seq<nat> -> Option<(nat, nat)> {
    (n: seq<nat>) => if NationsFit(c, n) then FindFirst(orderings, DrinkCandidate(orderings, c, n)) else None
  }

  function ColorCandidate(orderings: seq<seq<nat>>): seq<nat> -> Option<(nat, nat)> {
    (c: seq<nat>) => if ColorsFit(c) then FindFirst(orderings, NationCandidate(orderings, c)) else None
  }

  /** The generator of `zebra_puzzle` over the orderings of the given houses. */
  function Solve(houses: seq<nat>): Option<(nat, nat)> {
    var orderings := Perms(houses, |houses|);
    FindFirst(orderings, ColorCandidate(orderings))
  }

  /** `zebra_puzzle()`. */
  function ZebraPuzzle(): Option<(nat, nat)> {
    Solve(Houses)
  }

  /** The colour ordering c can be completed by orderings of the other groups. */
  ghost predicate Completes(orderings: seq<seq<nat>>, c: seq<nat>) {
    exists n, d, s, p :: n in orderings && d in orderings && s in orderings && p in orderings && Solution(c, n, d, s, p)
  }

  lemma SmokeLevel(orderings: seq<seq<nat>>, c: seq<nat>, n: seq<nat>, d: seq<nat>) returns (s: seq<nat>, p: seq<nat>)
    requires FindFirst(orderings, SmokeCandidate(orderings, c, n, d)).Some?
    ensures s in orderings && p in orderings && SmokesFit(c, n, d, s) && PetsFit(n, s, p)
    ensures FindFirst(orderings, SmokeCandidate(orderings, c, n, d)) == Some(Answer(d, p))
  {
    var a := FindFirstAt(orderings, SmokeCandidate(orderings, c, n, d));
    s := orderings[a];
    var b := FindFirstAt(orderings, PetCandidate(n, d, s));
    p := orderings[b];
  }

  lemma DrinkLevel(orderings: seq<seq<nat>>, c: seq<nat>, n: seq<nat>) returns (d: seq<nat>, s: seq<nat>, p: seq<nat>)
    requires FindFirst(orderings, DrinkCandidate(orderings, c, n)).Some?
    ensures d in orderings && s in orderings && p in orderings
    ensures DrinksFit(c, n, d) && SmokesFit(c, n, d, s) && PetsFit(n, s, p)
    ensures FindFirst(orderings, DrinkCandidate(orderings, c, n)) == Some(Answer(d, p))
  {
    var a := FindFirstAt(orderings, DrinkCandidate(orderings, c, n));
    d := orderings[a];
    s, p := SmokeLevel(orderings, c, n, d);
  }

  lemma NationLevel(orderings: seq<seq<nat>>, c: seq<nat>) returns (n: seq<nat>, d: seq<nat>, s: seq<nat>, p: seq<nat>)
    requires FindFirst(orderings, NationCandidate(orderings, c)).Some?
    ensures n in orderings && d in orderings && s in orderings && p in orderings
    ensures NationsFit(c, n) && DrinksFit(c, n, d) && SmokesFit(c, n, d, s) && PetsFit(n, s, p)
    ensures FindFirst(orderings, NationCandidate(orderings, c)) == Some(Answer(d, p))
  {
    var a := FindFirstAt(orderings, NationCandidate(orderings, c));
    n := orderings[a];
    d, s, p := DrinkLevel(orderings, c, n);
  }

  /** For a colour ordering, the nested loops find an answer exactly when the ordering can be
      completed, and the answer is then the houses of the water and the zebra of a
      completion. */
  lemma ColorLevel(orderings: seq<seq<nat>>, c: seq<nat>) returns (n: seq<nat>, d: seq<nat>, s: seq<nat>, p: seq<nat>)
    ensures ColorCandidate(orderings)(c).Some? <==> Completes(orderings, c)
    ensures ColorCandidate(orderings)(c).Some? ==>
      && n in orderings && d in orderings && s in orderings && p in orderings
      && Solution(c, n, d, s, p) && ColorCandidate(orderings)(c) == Some(Answer(d, p))
  {
    if ColorCandidate(orderings)(c).Some? {
      n, d, s, p := NationLevel(orderings, c);
    } else {
      n, d, s, p := [], [], [], [];
      if Completes(orderings, c) {
        var n', d', s', p' :| n' in orderings && d' in orderings && s' in orderings && p' in orderings && Solution(c, n', d', s', p');
        CompletionFound(orderings, c, n', d', s', p');
      }
    }
  }

  /** A completion makes every level of the nested loops find something. */
  lemma CompletionFound(orderings: seq<seq<nat>>, c: seq<nat>, n: seq<nat>, d: seq<nat>, s: seq<nat>, p: seq<nat>)
    requires n in orderings && d in orderings && s in orderings && p in orderings && Solution(c, n, d, s, p)
    ensures ColorCandidate(orderings)(c).Some?
  {
    var ip :| 0 <= ip < |orderings| && orderings[ip] == p;
    FindFirstSome(orderings, PetCandidate(n, d, s), ip);
    var iS :| 0 <= iS < |orderings| && orderings[iS] == s;
    FindFirstSome(orderings, SmokeCandidate(orderings, c, n, d), iS);
    var id :| 0 <= id < |orderings| && orderings[id] == d;
    FindFirstSome(orderings, DrinkCandidate(orderings, c, n), id);
    var iN :| 0 <= iN < |orderings| && orderings[iN] == n;
    FindFirstSome(orderings, NationCandidate(orderings, c), iN);
  }

  /** The answer is (WATER, ZEBRA) of a full assignment of orderings that satisfies every clue,
      whose colour ordering is the first, in permutation order, that any assignment completes. */
  lemma SolveFirst(houses: seq<nat>) returns (i: nat, n: seq<nat>, d: seq<nat>, s: seq<nat>, p: seq<nat>)
    requires Solve(houses).Some?
    ensures var orderings := Perms(houses, |houses|);
      && i < |orderings| && n in orderings && d in orderings && s in orderings && p in orderings
      && Solution(orderings[i], n, d, s, p) && Solve(houses) == Some(Answer(d, p))
      && forall k :: 0 <= k < i ==> !Completes(orderings, orderings[k])
  {
    var orderings := Perms(houses, |houses|);
    i := FindFirstAt(orderings, ColorCandidate(orderings));
    n, d, s, p := ColorLevel(orderings, orderings[i]);
    forall k | 0 <= k < i ensures !Completes(orderings, orderings[k]) {
      var _, _, _, _ := ColorLevel(orderings, orderings[k]);
    }
  }

  /** There is an answer as soon as some orderings satisfy every clue. */
  lemma SolveSome(houses: seq<nat>, c: seq<nat>, n: seq<nat>, d: seq<nat>, s: seq<nat>, p: seq<nat>)
    requires IsOrdering(houses) && Solution(c, n, d, s, p)
    requires IsOrdering(c) && IsOrdering(n) && IsOrdering(d) && IsOrdering(s) && IsOrdering(p)
    ensures Solve(houses).Some?
  {
    var orderings := Perms(houses, |houses|);
    OrderingsExact(houses, c);
    OrderingsExact(houses, n);
    OrderingsExact(houses, d);
    OrderingsExact(houses, s);
    OrderingsExact(houses, p);
    CompletionFound(orderings, c, n, d, s, p);
    var a :| 0 <= a < |orderings| && orderings[a] == c;
    FindFirstSome(orderings, ColorCandidate(orderings), a);
  }

  /** The clues fix the answer: the Norwegian in house 1 drinks water, the Japanese in house 5
      owns the zebra. */
  lemma OnlyAnswer(c: seq<nat>, n: seq<nat>, d: seq<nat>, s: seq<nat>, p: seq<nat>)
    requires IsOrdering(c) && IsOrdering(n) && IsOrdering(d) && IsOrdering(s) && IsOrdering(p)
    requires Solution(c, n, d, s, p)
    ensures d[4] == 1 && p[4] == 5
  {
    Bounded(c);
    Bounded(n);
    Bounded(d);
    Bounded(s);
    Bounded(p);
  }

  /** The five numbers of an ordering are different numbers from 1 to 5. */
  lemma Bounded(q: seq<nat>)
    requires IsOrdering(q)
    ensures forall k :: 0 <= k < 5 ==> 1 <= q[k] <= 5
    ensures q[0] != q[1] && q[0] != q[2] && q[0] != q[3] && q[0] != q[4] && q[1] != q[2]
    ensures q[1] != q[3] && q[1] != q[4] && q[2] != q[3] && q[2] != q[4] && q[3] != q[4]
  {
    assert forall k :: 0 <= k < 5 ==> q[k] in q;
  }

  /** Yellow Norwegian water-drinking Kools smoker with the fox in house 1; blue, Ukranian, tea,
      Chesterfields, horse in 2; red, Englishman, milk, Old Gold, snails in 3; ivory,
      Spaniard, orange juice, Lucky Strike, dog in 4; green, Japanese, coffee, Parliaments,
      zebra in 5. */
  lemma SolutionHolds(c: seq<nat>, n: seq<nat>, d: seq<nat>, s: seq<nat>, p: seq<nat>)
    requires c == [3, 5, 4, 1, 2] && n == [3, 4, 2, 5, 1] && d == [5, 2, 3, 4, 1]
    requires s == [3, 1, 2, 4, 5] && p == [4, 3, 1, 2, 5]
    ensures IsOrdering(c) && IsOrdering(n) && IsOrdering(d) && IsOrdering(s) && IsOrdering(p)
    ensures Solution(c, n, d, s, p)
  {
  }

  /** Over the orderings of houses 1 to 5, taken in any order, the answer is (1, 5). */
  lemma SolveAnswer(houses: seq<nat>)
    requires IsOrdering(houses)
    ensures Solve(houses) == Some((1, 5))
  {
    SolutionHolds([3, 5, 4, 1, 2], [3, 4, 2, 5, 1], [5, 2, 3, 4, 1], [3, 1, 2, 4, 5], [4, 3, 1, 2, 5]);
    SolveSome(houses, [3, 5, 4, 1, 2], [3, 4, 2, 5, 1], [5, 2, 3, 4, 1], [3, 1, 2, 4, 5], [4, 3, 1, 2, 5]);
    var i, n, d, s, p := SolveFirst(houses);
    var orderings := Perms(houses, |houses|);
    OrderingsExact(houses, orderings[i]);
    OrderingsExact(houses, n);
    OrderingsExact(houses, d);
    OrderingsExact(houses, s);
    OrderingsExact(houses, p);
    OnlyAnswer(orderings[i], n, d, s, p);
  }

  lemma HousesOrdering()
    ensures IsOrdering(Houses)
  {
  }

  /** `zebra_puzzle()` returns (1, 5): water in house 1, the zebra in house 5. */
  lemma ZebraAnswer()
    ensures ZebraPuzzle() == Some((1, 5))
  {
    HousesOrdering();
    SolveAnswer(Houses);
  }

  // ---------------------------------------------------------------- generators of integers

  /** `ints(start, end)` with an end: the loop yielding start, start + 1, ..., end. */
  method Ints(start: int, end: int) returns (out: seq<int>)
    ensures |out| == if end < start then 0 else end - start + 1
    ensures forall k :: 0 <= k < |out| ==> out[k] == start + k
  {
    out := [];
    var i := start;
    while i <= end
      invariant |out| == i - start && (end < start ==> i == start) && (start <= end ==> i <= end + 1)
      invariant forall k :: 0 <= k < |out| ==> out[k] == start + k
      decreases end - i
    {
      out := out + [i];
      i := i + 1;
    }
  }

  /** The k-th value (from 0) of the order 0, 1, -1, 2, -2, 3, -3, ... */
  function AllIntsAt(k: nat): int {
    if k == 0 then 0 else if k % 2 == 1 then (k + 1) / 2 else -(k / 2)
  }

  /** The order lists every integer ... */
  lemma AllIntsEvery(x: int) returns (k: nat)
    ensures AllIntsAt(k) == x
  {
    k := if x > 0 then 2 * x - 1 else -2 * x;
  }

  /** ... and each only once. */
  lemma AllIntsOnce(k1: nat, k2: nat)
    requires AllIntsAt(k1) == AllIntsAt(k2)
    ensures k1 == k2
  {
  }

  /** The first version of `all_ints`: yield 0, then +i and -i for i = 1, 2, ... The infinite
      generator is read up to its first count values. */
  method AllIntsPairs(count: nat) returns (out: seq<int>)
    ensures |out| == count && forall k :: 0 <= k < count ==> out[k] == AllIntsAt(k)
  {
    out := [];
    if count == 0 {
      return;
    }
    out := [0];
    var i := 1;
    while |out| < count
      invariant 1 <= |out| <= count && i >= 1
      invariant |out| == 2 * i - 1 || (|out| == count && |out| == 2 * i - 2)
      invariant forall k :: 0 <= k < |out| ==> out[k] == AllIntsAt(k)
      decreases count - |out|
    {
      out := out + [i];
      if |out| < count {
        out := out + [-i];
      }
      i := i + 1;
    }
  }

  /** One step of the second version: adding (k + 1) times the alternating sign moves from the
      k-th value to the next. */
  lemma AllIntsStep(k: nat, sign: int)
    requires sign == if k % 2 == 0 then 1 else -1
    ensures AllIntsAt(k + 1) == AllIntsAt(k) + (k + 1) * sign
  {
  }

  /** The second version of `all_ints`: i moves by to_add * to_multiply, to_add growing by one
      and to_multiply flipping sign at each step. It yields the same order as the first. */
  method AllIntsStepping(count: nat) returns (out: seq<int>)
    ensures |out| == count && forall k :: 0 <= k < count ==> out[k] == AllIntsAt(k)
  {
    out := [];
    var i, toAdd, toMultiply := 0, 1, 1;
    while |out| < count
      invariant |out| <= count && i == AllIntsAt(|out|)
      invariant toAdd == |out| + 1 && toMultiply == if |out| % 2 == 0 then 1 else -1
      invariant forall k :: 0 <= k < |out| ==> out[k] == AllIntsAt(k)
    {
      AllIntsStep(|out|, toMultiply);
      out := out + [i];
      i := i + toAdd * toMultiply;
      toAdd := toAdd + 1;
      toMultiply := toMultiply * -1;
    }
  }
}
