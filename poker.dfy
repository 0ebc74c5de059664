/** Poker hand evaluation: a card is a rank character and a suit character, a hand a list
    of cards, and `hand_rank` maps a hand to a value that Python compares as a tuple. */
module Poker {
  import opened Common

  datatype Card = Card(rank: char, suit: char)

  /** The string whose `index` gives a rank its number: '2' is 2, ..., 'A' is 14. */
  const RankChars: string := "--23456789TJQKA"

  /** `s.index(c)`: the first position of c. */
  function IndexOf(s: string, c: char): (i: nat)
    requires c in s
    ensures i < |s| && s[i] == c && forall j :: 0 <= j < i ==> s[j] != c
  {
    if s[0] == c then 0 else 1 + IndexOf(s[1..], c)
  }

  /** `index` raises for a rank character it does not find. */
  predicate ValidCards(hand: seq<Card>) {
    forall i :: 0 <= i < |hand| ==> IsRank(hand[i].rank)
  }

  /** c is in s at k or after, found one place at a time. */
  predicate InFrom(s: string, c: char, k: nat)
    decreases |s| - k
  {
    k < |s| && (s[k] == c || InFrom(s, c, k + 1))
  }

  predicate IsRank(c: char) {
    InFrom(RankChars, c, 0)
  }

  lemma {:induction false} InFromIn(s: string, c: char, k: nat)
    requires k <= |s|
    ensures InFrom(s, c, k) <==> c in s[k..]
    decreases |s| - k
  {
    if k < |s| {
      InFromIn(s, c, k + 1);
      assert s[k..] == [s[k]] + s[k + 1..];
    }
  }

  lemma IsRankIn(c: char)
    ensures IsRank(c) <==> c in RankChars
  {
    InFromIn(RankChars, c, 0);
    assert RankChars[0..] == RankChars;
  }

  function Rank(c: Card): nat
    requires IsRank(c.rank)
  {
    IsRankIn(c.rank);
    IndexOf(RankChars, c.rank)
  }

  /** `["--23456789TJQKA".index(r) for r, s in hand]`. */
  function Ranks(hand: seq<Card>): (r: seq<nat>)
    requires ValidCards(hand)
    ensures |r| == |hand| && forall i :: 0 <= i < |hand| ==> r[i] == Rank(hand[i])
  {
    seq(|hand|, i requires 0 <= i < |hand| => Rank(hand[i]))
  }

  // ---------------------------------------------------------------- sorting in descending order

  /** A total order, written as its "greater or equal". */
  ghost predicate TotalOrder<T(!new)>(ge: (T, T) -> bool) {
    && (forall a, b :: ge(a, b) || ge(b, a))
    && (forall a, b :: ge(a, b) && ge(b, a) ==> a == b)
    && (forall a, b, c :: ge(a, b) && ge(b, c) ==> ge(a, c))
  }

  predicate DescBy<T>(s: seq<T>, ge: (T, T) -> bool) {
    forall i, j :: 0 <= i < j < |s| ==> ge(s[i], s[j])
  }

  /** x goes before the first element it is no smaller than. */
  function InsertDesc<T>(x: T, s: seq<T>, ge: (T, T) -> bool): (r: seq<T>)
    ensures multiset(r) == multiset(s) + multiset{x}
  {
    if s == [] then [x]
    else if ge(x, s[0]) then [x] + s
    else
      assert s == [s[0]] + s[1..];
      [s[0]] + InsertDesc(x, s[1..], ge)
  }

  /** `sorted(s, reverse=True)`. */
  function SortDesc<T>(s: seq<T>, ge: (T, T) -> bool): (r: seq<T>)
    ensures multiset(r) == multiset(s)
  {
    if s == [] then []
    else
      assert s == [s[0]] + s[1..];
      InsertDesc(s[0], SortDesc(s[1..], ge), ge)
  }

  lemma {:induction false} InsertDescSorted<T(!new)>(x: T, s: seq<T>, ge: (T, T) -> bool)
    requires TotalOrder(ge) && DescBy(s, ge)
    ensures DescBy(InsertDesc(x, s, ge), ge)
  {
    if s != [] && !ge(x, s[0]) {
      InsertDescSorted(x, s[1..], ge);
      var tail := InsertDesc(x, s[1..], ge);
      var r := [s[0]] + tail;
      forall i, j | 0 <= i < j < |r| ensures ge(r[i], r[j]) {
        if i == 0 {
          assert r[j] in multiset(tail);
          if r[j] != x {
            assert r[j] in multiset(s[1..]);
            var k :| 0 <= k < |s[1..]| && s[1..][k] == r[j];
            assert s[k + 1] == r[j];
          }
        } else {
          assert r[i] == tail[i - 1] && r[j] == tail[j - 1];
        }
      }
    }
  }

  /** The sort's result is in descending order (its ensures gives the permutation). */
  lemma {:induction false} SortDescSorted<T(!new)>(s: seq<T>, ge: (T, T) -> bool)
    requires TotalOrder(ge)
    ensures DescBy(SortDesc(s, ge), ge)
  {
    if s != [] {
      SortDescSorted(s[1..], ge);
      InsertDescSorted(s[0], SortDesc(s[1..], ge), ge);
    }
  }

  /** Under a total order there is only one descending arrangement of a multiset, so the
      sort's result does not depend on the order it is given its input in. */
  lemma {:induction false} DescUnique<T(!new)>(a: seq<T>, b: seq<T>, ge: (T, T) -> bool)
    requires TotalOrder(ge) && DescBy(a, ge) && DescBy(b, ge) && multiset(a) == multiset(b)
    ensures a == b
  {
    if a != [] {
      assert |b| == |a| by {
        assert |multiset(a)| == |a| && |multiset(b)| == |b|;
      }
      DescHead(b, ge, a[0]);
      DescHead(a, ge, b[0]);
      assert a[0] == b[0];
      SplitHead(a);
      SplitHead(b);
      DescUnique(a[1..], b[1..], ge);
    }
  }

  /** The head of a descending list is no smaller than any of its members. */
  lemma DescHead<T(!new)>(s: seq<T>, ge: (T, T) -> bool, x: T)
    requires TotalOrder(ge) && DescBy(s, ge) && x in multiset(s)
    ensures ge(s[0], x)
  {
    var i :| 0 <= i < |s| && s[i] == x;
    if i == 0 {
      assert ge(x, x) || ge(x, x);
    }
  }

  lemma SplitHead<T>(s: seq<T>)
    requires s != []
    ensures multiset(s[1..]) == multiset(s) - multiset{s[0]}
  {
    assert s == [s[0]] + s[1..];
  }

  /** Under a total order, a list each of whose members is no smaller than the next is
      descending. */
  lemma {:induction false} DescByAdjacent<T(!new)>(s: seq<T>, ge: (T, T) -> bool)
    requires TotalOrder(ge) && forall i :: 0 <= i < |s| - 1 ==> ge(s[i], s[i + 1])
    ensures DescBy(s, ge)
    decreases |s|
  {
    if |s| > 1 {
      DescByAdjacent(s[1..], ge);
      forall i, j | 0 <= i < j < |s| ensures ge(s[i], s[j]) {
        if i > 0 {
          assert s[i] == s[1..][i - 1] && s[j] == s[1..][j - 1];
        } else if j > 1 {
          assert s[1] == s[1..][0] && s[j] == s[1..][j - 1];
        }
      }
    }
  }

  function NatGe(): (nat, nat) -> bool {
    (a: nat, b: nat) => a >= b
  }

  lemma NatGeTotal()
    ensures TotalOrder(NatGe())
  {
  }

  /** Numbers from high to low: each is at least the next. */
  predicate Desc(s: seq<nat>) {
    |s| < 2 || (s[0] >= s[1] && Desc(s[1..]))
  }

  lemma {:induction false} DescAdjacent(s: seq<nat>)
    requires forall i :: 0 <= i < |s| - 1 ==> s[i] >= s[i + 1]
    ensures Desc(s)
    decreases |s|
  {
    if |s| >= 2 {
      forall i | 0 <= i < |s[1..]| - 1 ensures s[1..][i] >= s[1..][i + 1] {
        assert s[i + 1] >= s[i + 2];
      }
      DescAdjacent(s[1..]);
    }
  }

  /** Any two numbers of a list from high to low are in order. */
  lemma {:induction false} DescAt(s: seq<nat>, i: nat, j: nat)
    requires Desc(s) && i <= j < |s|
    ensures s[i] >= s[j]
    decreases j
  {
    if i > 0 {
      DescAt(s[1..], i - 1, j - 1);
    } else if j > 0 {
      DescAt(s[1..], 0, j - 1);
    }
  }

  lemma DescToDescBy(s: seq<nat>)
    requires Desc(s)
    ensures DescBy(s, NatGe())
  {
    forall i, j | 0 <= i < j < |s| ensures NatGe()(s[i], s[j]) {
      DescAt(s, i, j);
    }
  }

  lemma DescByToDesc(s: seq<nat>)
    requires DescBy(s, NatGe())
    ensures Desc(s)
  {
    forall i | 0 <= i < |s| - 1 ensures s[i] >= s[i + 1] {
      assert NatGe()(s[i], s[i + 1]);
    }
    DescAdjacent(s);
  }

  // ---------------------------------------------------------------- card_ranks, straight, flush

  /** `card_ranks`: the ranks from high to low, except that the ace-low straight A5432 reads
      5, 4, 3, 2, 1. */
  function CardRanks(cards: seq<Card>): (r: seq<nat>)
    requires ValidCards(cards)
    ensures multiset(Ranks(cards)) == multiset{14, 5, 4, 3, 2} ==> r == [5, 4, 3, 2, 1]
    ensures multiset(Ranks(cards)) != multiset{14, 5, 4, 3, 2} ==>
      Desc(r) && multiset(r) == multiset(Ranks(cards))
  {
    var ranks := SortDesc(Ranks(cards), NatGe());
    SortedRanks(Ranks(cards));
    if ranks == [14, 5, 4, 3, 2] then [5, 4, 3, 2, 1] else ranks
  }

  /** The sorted ranks are A5432 exactly when the ranks are those five. */
  lemma SortedRanks(ranks: seq<nat>)
    ensures Desc(SortDesc(ranks, NatGe()))
    ensures SortDesc(ranks, NatGe()) == [14, 5, 4, 3, 2] <==> multiset(ranks) == multiset{14, 5, 4, 3, 2}
  {
    var sorted := SortDesc(ranks, NatGe());
    NatGeTotal();
    SortDescSorted(ranks, NatGe());
    DescByToDesc(sorted);
    if multiset(ranks) == multiset{14, 5, 4, 3, 2} {
      AceLowSorted(sorted);
    }
  }

  lemma AceLowSorted(sorted: seq<nat>)
    requires Desc(sorted) && multiset(sorted) == multiset{14, 5, 4, 3, 2}
    ensures sorted == [14, 5, 4, 3, 2]
  {
    var target: seq<nat> := [14, 5, 4, 3, 2];
    assert multiset(target) == multiset{14, 5, 4, 3, 2};
    DescAdjacent(target);
    DescToDescBy(target);
    DescToDescBy(sorted);
    NatGeTotal();
    DescUnique(sorted, target, NatGe());
  }

  function SeqMax(s: seq<nat>): (m: nat)
    requires s != []
    ensures m in s && forall x :: x in s ==> x <= m
  {
    if |s| == 1 then s[0]
    else
      var m := SeqMax(s[1..]);
      assert forall x :: x in s ==> x == s[0] || x in s[1..];
      if s[0] >= m then s[0] else m
  }

  function SeqMin(s: seq<nat>): (m: nat)
    requires s != []
    ensures m in s && forall x :: x in s ==> m <= x
  {
    if |s| == 1 then s[0]
    else
      var m := SeqMin(s[1..]);
      assert forall x :: x in s ==> x == s[0] || x in s[1..];
      if s[0] <= m then s[0] else m
  }

  function ToSet(s: seq<nat>): (r: set<nat>)
    ensures forall x :: x in r <==> x in s
  {
    set x | x in s
  }

  /** `straight`: the highest and lowest rank are four apart and there are five ranks. */
  function Straight(ranks: seq<nat>): bool
    requires ranks != []
  {
    SeqMax(ranks) - SeqMin(ranks) == 4 && |ToSet(ranks)| == 5
  }

  /** On five ranks from high to low, `straight` holds exactly when each is one below the
      one before. */
  lemma StraightRun(ranks: seq<nat>)
    requires |ranks| == 5 && Desc(ranks)
    ensures Straight(ranks) <==> forall i :: 0 <= i < 5 ==> ranks[i] + i == ranks[0]
  {
    DescFive(ranks);
    DescEnds(ranks);
    if forall i :: 0 <= i < 5 ==> ranks[i] + i == ranks[0] {
      RunSet(ranks);
    }
    if Straight(ranks) {
      StrictFive(ranks);
    }
  }

  lemma DescFive(ranks: seq<nat>)
    requires |ranks| == 5 && Desc(ranks)
    ensures ranks[0] >= ranks[1] >= ranks[2] >= ranks[3] >= ranks[4]
  {
    DescAt(ranks, 0, 1);
    DescAt(ranks, 1, 2);
    DescAt(ranks, 2, 3);
    DescAt(ranks, 3, 4);
  }

  lemma DescEnds(ranks: seq<nat>)
    requires |ranks| == 5 && ranks[0] >= ranks[1] >= ranks[2] >= ranks[3] >= ranks[4]
    ensures SeqMax(ranks) == ranks[0] && SeqMin(ranks) == ranks[4]
  {
    assert ranks[0] in ranks && ranks[4] in ranks;
    assert forall x :: x in ranks ==> ranks[4] <= x <= ranks[0];
  }

  lemma RunSet(ranks: seq<nat>)
    requires |ranks| == 5 && forall i :: 0 <= i < 5 ==> ranks[i] + i == ranks[0]
    ensures |ToSet(ranks)| == 5
  {
    var r := ranks;
    assert ToSet(ranks) == {r[0], r[1], r[2], r[3], r[4]};
    assert |{r[0], r[1], r[2], r[3]}| == 4 by {
      assert |{r[0], r[1], r[2]}| == 3 by {
        assert |{r[0], r[1]}| == 2;
      }
    }
  }

  /** Five ranks from high to low that make a straight fall by one at each step. */
  lemma StrictFive(ranks: seq<nat>)
    requires |ranks| == 5 && ranks[0] >= ranks[1] >= ranks[2] >= ranks[3] >= ranks[4]
    requires ranks[0] - ranks[4] == 4 && |ToSet(ranks)| == 5
    ensures forall i :: 0 <= i < 5 ==> ranks[i] + i == ranks[0]
  {
    if exists i :: 0 <= i < 4 && ranks[i] == ranks[i + 1] {
      var i :| 0 <= i < 4 && ranks[i] == ranks[i + 1];
      FewerPlaces(ranks, i);
    }
  }

  /** Five ranks with two equal neighbours take fewer than five values. */
  lemma FewerPlaces(ranks: seq<nat>, i: nat)
    requires |ranks| == 5 && i < 4 && ranks[i] == ranks[i + 1]
    ensures |ToSet(ranks)| < 5
  {
    var rest := ranks[..i + 1] + ranks[i + 2..];
    assert ToSet(ranks) == ToSet(rest) by {
      forall x ensures x in ranks <==> x in rest {
        if x in ranks {
          var k :| 0 <= k < 5 && ranks[k] == x;
          if k == i + 1 {
            assert rest[i] == x;
          } else if k <= i {
            assert rest[k] == x;
          } else {
            assert rest[k - 1] == x;
          }
        }
      }
    }
    SetOfSeqSize(rest);
  }

  lemma {:induction false} SetOfSeqSize(s: seq<nat>)
    ensures |ToSet(s)| <= |s|
  {
    if s != [] {
      SetOfSeqSize(s[1..]);
      assert ToSet(s) == ToSet(s[1..]) + {s[0]};
    }
  }

  function Suits(hand: seq<Card>): (r: set<char>)
    ensures forall c :: c in r <==> exists i :: 0 <= i < |hand| && hand[i].suit == c
  {
    set i | 0 <= i < |hand| :: hand[i].suit
  }

  /** `flush`: one suit among the cards. */
  function Flush(hand: seq<Card>): bool {
    |Suits(hand)| == 1
  }

  /** A flush is a non-empty hand whose cards all share the first card's suit. */
  lemma FlushSameSuit(hand: seq<Card>)
    ensures Flush(hand) <==> hand != [] && forall i :: 0 <= i < |hand| ==> hand[i].suit == hand[0].suit
  {
    if hand != [] {
      if forall i :: 0 <= i < |hand| ==> hand[i].suit == hand[0].suit {
        assert Suits(hand) == {hand[0].suit};
      } else {
        var i :| 0 <= i < |hand| && hand[i].suit != hand[0].suit;
        assert {hand[0].suit, hand[i].suit} <= Suits(hand);
        assert |{hand[0].suit, hand[i].suit}| == 2;
        SubsetSize({hand[0].suit, hand[i].suit}, Suits(hand));
      }
    } else {
      assert Suits(hand) == {};
    }
  }

  lemma SubsetSize<T>(a: set<T>, b: set<T>)
    requires a <= b
    ensures |a| <= |b|
  {
    assert b == a + (b - a);
  }

  // ---------------------------------------------------------------- kind and two_pair

  /** What the scan in `kind` returns: the first rank occurring exactly n times, or None. */
  function FirstKind(n: nat, ranks: seq<nat>, from: nat): (r: Option<nat>)
    requires from <= |ranks|
    decreases |ranks| - from
  {
    if from == |ranks| then None
    else if Count(ranks, ranks[from]) == n then Some(ranks[from])
    else FirstKind(n, ranks, from + 1)
  }

  /** The answer is the rank at the first position whose rank occurs n times, and None means
      no rank occurs n times. */
  lemma {:induction false} FirstKindSpec(n: nat, ranks: seq<nat>, from: nat)
    requires from <= |ranks|
    ensures FirstKind(n, ranks, from).Some? ==> exists i :: from <= i < |ranks| && ranks[i] == FirstKind(n, ranks, from).value && Count(ranks, ranks[i]) == n && forall j :: from <= j < i ==> Count(ranks, ranks[j]) != n
    ensures FirstKind(n, ranks, from).None? <==> forall j :: from <= j < |ranks| ==> Count(ranks, ranks[j]) != n
    decreases |ranks| - from
  {
    if from < |ranks| && Count(ranks, ranks[from]) != n {
      FirstKindSpec(n, ranks, from + 1);
    }
  }

  /** `kind(n, ranks)`. */
  method Kind(n: nat, ranks: seq<nat>) returns (r: Option<nat>)
    ensures r == FirstKind(n, ranks, 0)
  {
    var i := 0;
    while i < |ranks|
      invariant 0 <= i <= |ranks|
      invariant FirstKind(n, ranks, 0) == FirstKind(n, ranks, i)
    {
      if Count(ranks, ranks[i]) == n {
        return Some(ranks[i]);
      }
      i := i + 1;
    }
    return None;
  }

  function Reverse(s: seq<nat>): (r: seq<nat>)
    ensures |r| == |s| && forall i :: 0 <= i < |s| ==> r[i] == s[|s| - 1 - i]
  {
    if s == [] then [] else Reverse(s[1..]) + [s[0]]
  }

  /** `two_pair`: the first and the last rank that occurs twice, when they differ. */
  function TwoPair(ranks: seq<nat>): Option<(nat, nat)> {
    var high, low := FirstKind(2, ranks, 0), FirstKind(2, Reverse(ranks), 0);
    if high != low && high.Some? && low.Some? then Some((high.value, low.value)) else None
  }

  /** The first rank in `kind`'s scan and the last differ from None together, so `two_pair`
      never pairs a rank with None. */
  lemma TwoPairNeverHalf(ranks: seq<nat>)
    ensures FirstKind(2, ranks, 0).None? <==> FirstKind(2, Reverse(ranks), 0).None?
  {
    FirstKindSpec(2, ranks, 0);
    var rev := Reverse(ranks);
    FirstKindSpec(2, rev, 0);
    ReverseCounts(ranks);
    if FirstKind(2, ranks, 0).None? {
      forall j | 0 <= j < |rev| ensures Count(rev, rev[j]) != 2 {
        assert rev[j] == ranks[|ranks| - 1 - j];
      }
    } else {
      var i :| 0 <= i < |ranks| && Count(ranks, ranks[i]) == 2;
      assert rev[|ranks| - 1 - i] == ranks[i];
    }
  }

  lemma ReverseCounts(s: seq<nat>)
    ensures forall x: nat :: Count(Reverse(s), x) == Count(s, x)
  {
    forall x ensures Count(Reverse(s), x) == Count(s, x) {
      ReverseCountOf(s, x);
    }
  }

  lemma {:induction false} ReverseMultiset(s: seq<nat>)
    ensures multiset(Reverse(s)) == multiset(s)
  {
    if s != [] {
      ReverseMultiset(s[1..]);
      assert s == [s[0]] + s[1..];
    }
  }

  /** In ranks listed from high to low, `kind` finds the highest rank occurring n times. */
  lemma KindHighest(n: nat, ranks: seq<nat>)
    requires Desc(ranks) && FirstKind(n, ranks, 0).Some?
    ensures Count(ranks, FirstKind(n, ranks, 0).value) == n
    ensures forall x: nat :: x in ranks && Count(ranks, x) == n ==> x <= FirstKind(n, ranks, 0).value
  {
    FirstKindSpec(n, ranks, 0);
    var i :| 0 <= i < |ranks| && ranks[i] == FirstKind(n, ranks, 0).value && Count(ranks, ranks[i]) == n && forall j :: 0 <= j < i ==> Count(ranks, ranks[j]) != n;
    forall x: nat | x in ranks && Count(ranks, x) == n ensures x <= FirstKind(n, ranks, 0).value {
      var k :| 0 <= k < |ranks| && ranks[k] == x;
      assert i <= k;
      DescAt(ranks, i, k);
    }
  }

  /** Scanning the reversed list from high to low ranks finds the lowest rank occurring n times. */
  lemma KindLowest(n: nat, ranks: seq<nat>)
    requires Desc(ranks) && FirstKind(n, Reverse(ranks), 0).Some?
    ensures Count(ranks, FirstKind(n, Reverse(ranks), 0).value) == n
    ensures forall x: nat :: x in ranks && Count(ranks, x) == n ==> FirstKind(n, Reverse(ranks), 0).value <= x
  {
    var rev := Reverse(ranks);
    FirstKindSpec(n, rev, 0);
    var i :| 0 <= i < |rev| && rev[i] == FirstKind(n, rev, 0).value && Count(rev, rev[i]) == n && forall j :: 0 <= j < i ==> Count(rev, rev[j]) != n;
    ReverseCountOf(ranks, rev[i]);
    forall x: nat | x in ranks && Count(ranks, x) == n ensures FirstKind(n, Reverse(ranks), 0).value <= x {
      LowestBelow(n, ranks, i, x);
    }
  }

  lemma LowestBelow(n: nat, ranks: seq<nat>, i: nat, x: nat)
    requires Desc(ranks) && i < |ranks| && x in ranks && Count(ranks, x) == n
    requires forall j :: 0 <= j < i ==> Count(Reverse(ranks), Reverse(ranks)[j]) != n
    ensures Reverse(ranks)[i] <= x
  {
    var k :| 0 <= k < |ranks| && ranks[k] == x;
    ReverseCountOf(ranks, x);
    LowestWitness(n, ranks, i, k);
    DescAt(ranks, k, |ranks| - 1 - i);
  }

  lemma ReverseCountOf(s: seq<nat>, x: nat)
    ensures Count(Reverse(s), x) == Count(s, x)
  {
    ReverseMultiset(s);
    CountMultiset(Reverse(s), x);
    CountMultiset(s, x);
  }

  /** A rank occurring n times sits, in the reversed list, no earlier than the first one the
      scan meets. */
  lemma LowestWitness(n: nat, ranks: seq<nat>, i: nat, k: nat)
    requires i < |ranks| && k < |ranks|
    requires Count(Reverse(ranks), ranks[k]) == n
    requires forall j :: 0 <= j < i ==> Count(Reverse(ranks), Reverse(ranks)[j]) != n
    ensures k <= |ranks| - 1 - i
  {
    assert Reverse(ranks)[|ranks| - 1 - k] == ranks[k];
  }

  /** On ranks from high to low, `two_pair` answers exactly when two different ranks each occur
      twice, and then it gives the highest and the lowest such rank, highest first. */
  lemma TwoPairSpec(ranks: seq<nat>)
    requires Desc(ranks)
    ensures TwoPair(ranks).Some? <==> exists x: nat, y: nat :: x in ranks && y in ranks && x != y && Count(ranks, x) == 2 && Count(ranks, y) == 2
    ensures TwoPair(ranks).Some? ==>
      var (h, l) := TwoPair(ranks).value;
      && h > l && Count(ranks, h) == 2 && Count(ranks, l) == 2
      && forall x: nat :: x in ranks && Count(ranks, x) == 2 ==> l <= x <= h
  {
    TwoPairNeverHalf(ranks);
    if FirstKind(2, ranks, 0).Some? {
      TwoPairBounds(ranks);
    } else {
      FirstKindSpec(2, ranks, 0);
      forall x: nat | x in ranks ensures Count(ranks, x) != 2 {
        var k :| 0 <= k < |ranks| && ranks[k] == x;
      }
    }
  }

  /** When some rank occurs twice, the two scans find the highest and the lowest such rank. */
  lemma TwoPairBounds(ranks: seq<nat>)
    requires Desc(ranks) && FirstKind(2, ranks, 0).Some? && FirstKind(2, Reverse(ranks), 0).Some?
    ensures var h, l := FirstKind(2, ranks, 0).value, FirstKind(2, Reverse(ranks), 0).value;
      && h in ranks && l in ranks && Count(ranks, h) == 2 && Count(ranks, l) == 2
      && forall x: nat :: x in ranks && Count(ranks, x) == 2 ==> l <= x <= h
  {
    KindHighest(2, ranks);
    KindLowest(2, ranks);
    FirstKindSpec(2, ranks, 0);
    var rev := Reverse(ranks);
    FirstKindSpec(2, rev, 0);
    var i :| 0 <= i < |rev| && rev[i] == FirstKind(2, rev, 0).value;
    assert ranks[|ranks| - 1 - i] == rev[i];
  }

  // ---------------------------------------------------------------- group and hand_rank

  /** `[(items.count(x), x) for x in xs]`. */
  function Tally(xs: seq<nat>, items: seq<nat>): (r: seq<(nat, nat)>)
    ensures |r| == |xs| && forall i :: 0 <= i < |xs| ==> r[i] == (Count(items, xs[i]), xs[i])
  {
    if xs == [] then [] else [(Count(items, xs[0]), xs[0])] + Tally(xs[1..], items)
  }

  /** Python's order on (count, rank) pairs, as "greater or equal". */
  function PairGe(): ((nat, nat), (nat, nat)) -> bool {
    (a: (nat, nat), b: (nat, nat)) => a.0 > b.0 || (a.0 == b.0 && a.1 >= b.1)
  }

  lemma PairGeTotal()
    ensures TotalOrder(PairGe())
  {
  }

  predicate Distinct<T(==)>(s: seq<T>) {
    forall i, j :: 0 <= i < j < |s| ==> s[i] != s[j]
  }

  lemma {:induction false} DedupDistinct(s: seq<nat>)
    ensures Distinct(Dedup(s)) && forall x :: x in Dedup(s) <==> x in s
  {
    DedupSameElements(s);
    if |s| > 0 {
      DedupDistinct(s[..|s| - 1]);
      DedupSameElements(s[..|s| - 1]);
    }
  }

  /** `group`: one (count, rank) pair per distinct rank, highest count first and then highest
      rank first. The set `set(items)` is enumerated here in first-occurrence order; the sort
      makes the enumeration order immaterial (GroupAnyOrder). */
  function Group(items: seq<nat>): (g: seq<(nat, nat)>)
    ensures forall p :: p in g <==> p.1 in items && p.0 == Count(items, p.1)
    ensures DescBy(g, PairGe()) && Distinct(g)
  {
    var xs := Dedup(items);
    GroupFacts(xs, items);
    SortDesc(Tally(xs, items), PairGe())
  }

  lemma GroupFacts(xs: seq<nat>, items: seq<nat>)
    requires xs == Dedup(items)
    ensures var g := SortDesc(Tally(xs, items), PairGe());
      && (forall p :: p in g <==> p.1 in items && p.0 == Count(items, p.1))
      && DescBy(g, PairGe()) && Distinct(g)
  {
    DedupDistinct(items);
    var t := Tally(xs, items);
    var g := SortDesc(t, PairGe());
    PairGeTotal();
    SortDescSorted(t, PairGe());
    TallyDistinct(xs, items);
    forall p ensures p in g <==> p.1 in items && p.0 == Count(items, p.1) {
      assert p in g <==> p in multiset(t);
      if p.1 in items {
        var i :| 0 <= i < |xs| && xs[i] == p.1;
        assert t[i].1 == p.1;
      }
    }
    SameMultisetDistinct(t, g);
  }

  lemma TallyDistinct(xs: seq<nat>, items: seq<nat>)
    requires Distinct(xs)
    ensures Distinct(Tally(xs, items))
  {
    var t := Tally(xs, items);
    forall i, j | 0 <= i < j < |t| ensures t[i] != t[j] {
      assert t[i].1 == xs[i] && t[j].1 == xs[j];
    }
  }

  /** A rearrangement of a list without repeats has none. */
  lemma SameMultisetDistinct<T>(a: seq<T>, b: seq<T>)
    requires Distinct(a) && multiset(a) == multiset(b)
    ensures Distinct(b)
  {
    forall i, j | 0 <= i < j < |b| ensures b[i] != b[j] {
      if b[i] == b[j] {
        var x := b[i];
        assert b == b[..j] + [x] + b[j + 1..];
        assert x in multiset(b[..j]) by {
          assert b[..j][i] == x;
        }
        assert multiset(b)[x] >= 2;
        DistinctOnce(a, x);
      }
    }
  }

  lemma {:induction false} DistinctOnce<T>(a: seq<T>, x: T)
    requires Distinct(a)
    ensures multiset(a)[x] <= 1
  {
    if a != [] {
      assert a == [a[0]] + a[1..];
      assert Distinct(a[1..]) by {
        forall i, j | 0 <= i < j < |a[1..]| ensures a[1..][i] != a[1..][j] {
          assert a[1..][i] == a[i + 1] && a[1..][j] == a[j + 1];
        }
      }
      DistinctOnce(a[1..], x);
      if a[0] == x {
        assert x !in a[1..] by {
          forall k | 0 <= k < |a[1..]| ensures a[1..][k] != x {
            assert a[1..][k] == a[k + 1];
          }
        }
      }
    }
  }

  /** Two lists without repeats and with the same members are rearrangements of each other. */
  lemma DistinctSameMembers<T>(a: seq<T>, b: seq<T>)
    requires Distinct(a) && Distinct(b) && forall x :: x in a <==> x in b
    ensures multiset(a) == multiset(b)
  {
    forall x ensures multiset(a)[x] == multiset(b)[x] {
      DistinctOnce(a, x);
      DistinctOnce(b, x);
      assert x in a <==> x in multiset(a);
      assert x in b <==> x in multiset(b);
    }
  }

  /** Any enumeration of `set(items)` gives the same groups. */
  lemma GroupAnyOrder(xs: seq<nat>, items: seq<nat>)
    requires Distinct(xs) && forall x :: x in xs <==> x in items
    ensures SortDesc(Tally(xs, items), PairGe()) == Group(items)
  {
    var t := Tally(xs, items);
    var g := SortDesc(t, PairGe());
    PairGeTotal();
    SortDescSorted(t, PairGe());
    TallyDistinct(xs, items);
    SameMultisetDistinct(t, g);
    forall p ensures p in g <==> p in Group(items) {
      assert p in g <==> p in multiset(t);
      if p.1 in items {
        var i :| 0 <= i < |xs| && xs[i] == p.1;
        assert t[i].1 == p.1;
      }
    }
    DistinctSameMembers(g, Group(items));
    DescUnique(g, Group(items), PairGe());
  }

  /** The groups depend on the ranks only through how often each occurs. */
  lemma GroupOfMultiset(a: seq<nat>, b: seq<nat>)
    requires multiset(a) == multiset(b)
    ensures Group(a) == Group(b)
  {
    var ga, gb := Group(a), Group(b);
    forall p ensures p in ga <==> p in gb {
      assert p.1 in a <==> p.1 in multiset(a);
      assert p.1 in b <==> p.1 in multiset(b);
      CountMultiset(a, p.1);
      CountMultiset(b, p.1);
    }
    DistinctSameMembers(ga, gb);
    PairGeTotal();
    DescUnique(ga, gb, PairGe());
  }

  /** `unzip`: the counts and the ranks of the groups. */
  function Counts(g: seq<(nat, nat)>): (r: seq<nat>)
    ensures |r| == |g| && forall i :: 0 <= i < |g| ==> r[i] == g[i].0
  {
    if g == [] then [] else [g[0].0] + Counts(g[1..])
  }

  function GroupRanks(g: seq<(nat, nat)>): (r: seq<nat>)
    ensures |r| == |g| && forall i :: 0 <= i < |g| ==> r[i] == g[i].1
  {
    if g == [] then [] else [g[0].1] + GroupRanks(g[1..])
  }

  /** A hand's value: the category and the ranks, compared as Python compares tuples. */
  type HandValue = (nat, seq<nat>)

  /** The category of `hand_rank` (second version), from the count pattern and the straight and
      flush tests. */
  function Category(counts: seq<nat>, straight: bool, flush: bool): (c: nat)
    ensures c <= 9
  {
    if counts == [5] then 9
    else if straight && flush then 8
    else if counts == [4, 1] then 7
    else if counts == [3, 2] then 6
    else if flush then 5
    else if straight then 4
    else if counts == [3, 1, 1] then 3
    else if counts == [2, 2, 1] then 2
    else if counts == [2, 1, 1, 1] then 1
    else 0
  }

  /** The group ranks, with A5432 read as 5, 4, 3, 2, 1. */
  function LowAce(ranks: seq<nat>): seq<nat> {
    if ranks == [14, 5, 4, 3, 2] then [5, 4, 3, 2, 1] else ranks
  }

  /** `hand_rank` (second version). `max` of no ranks raises, so a hand holds a card. */
  function HandRank2(hand: seq<Card>): (v: HandValue)
    requires ValidCards(hand) && hand != []
  {
    Value2(HandShape(hand), Flush(hand))
  }

  /** The value the second version gives a shape and a flush test. */
  function Value2(shape: (seq<nat>, seq<nat>), flush: bool): HandValue
    requires shape.1 != []
  {
    (Category(shape.0, Straight(shape.1), flush), shape.1)
  }

  /** The count pattern and the ranks (A5432 read low) that both versions of `hand_rank`
      start from; there are as many counts as ranks. */
  function HandShape(hand: seq<Card>): (s: (seq<nat>, seq<nat>))
    requires ValidCards(hand) && hand != []
    ensures |s.0| == |s.1| && s.1 != []
  {
    var groups := Group(Ranks(hand));
    GroupNonEmpty(Ranks(hand));
    (Counts(groups), LowAce(GroupRanks(groups)))
  }

  /** Ranks to group give at least one group. */
  lemma GroupNonEmpty(items: seq<nat>)
    requires items != []
    ensures Group(items) != []
  {
    assert (Count(items, items[0]), items[0]) in Group(items);
  }

  /** The value of a hand does not depend on the order of its cards. */
  lemma HandRankOrderFree(h1: seq<Card>, h2: seq<Card>)
    requires ValidCards(h1) && h1 != [] && multiset(h1) == multiset(h2)
    ensures ValidCards(h2) && h2 != [] && HandRank2(h1) == HandRank2(h2)
  {
    SameCards(h1, h2);
    RanksMultiset(h1, h2);
    GroupOfMultiset(Ranks(h1), Ranks(h2));
    SameSuits(h1, h2);
    assert HandShape(h1) == HandShape(h2);
  }

  lemma SameCards(h1: seq<Card>, h2: seq<Card>)
    requires ValidCards(h1) && multiset(h1) == multiset(h2)
    ensures ValidCards(h2) && |h2| == |h1|
  {
    assert |h2| == |h1| by {
      assert |multiset(h1)| == |h1| && |multiset(h2)| == |h2|;
    }
    forall i | 0 <= i < |h2| ensures IsRank(h2[i].rank) {
      assert h2[i] in multiset(h1);
    }
  }

  lemma SameSuits(h1: seq<Card>, h2: seq<Card>)
    requires multiset(h1) == multiset(h2)
    ensures Suits(h1) == Suits(h2)
  {
    forall c ensures c in Suits(h1) <==> c in Suits(h2) {
      if c in Suits(h1) {
        var i :| 0 <= i < |h1| && h1[i].suit == c;
        assert h1[i] in multiset(h2);
      }
      if c in Suits(h2) {
        var i :| 0 <= i < |h2| && h2[i].suit == c;
        assert h2[i] in multiset(h1);
      }
    }
  }

  lemma {:induction false} RanksMultiset(h1: seq<Card>, h2: seq<Card>)
    requires ValidCards(h1) && ValidCards(h2) && multiset(h1) == multiset(h2)
    ensures multiset(Ranks(h1)) == multiset(Ranks(h2))
    decreases |h1|
  {
    if h1 != [] {
      assert h1[0] in multiset(h2);
      var k :| 0 <= k < |h2| && h2[k] == h1[0];
      var rest2 := h2[..k] + h2[k + 1..];
      RanksRemove(h2, k);
      MultisetRemove(h1, h2, k);
      RanksTail(h1);
      RanksMultiset(h1[1..], rest2);
      MultisetCons(multiset(Ranks(h1)), multiset(Ranks(h2)), multiset(Ranks(h1[1..])), multiset(Ranks(rest2)), Rank(h1[0]));
    }
  }

  lemma RanksTail(h: seq<Card>)
    requires ValidCards(h) && h != []
    ensures ValidCards(h[1..]) && multiset(Ranks(h)) == multiset(Ranks(h[1..])) + multiset{Rank(h[0])}
  {
    RanksRemove(h, 0);
    assert h[..0] + h[1..] == h[1..];
  }

  lemma MultisetCons(m1: multiset<nat>, m2: multiset<nat>, t1: multiset<nat>, t2: multiset<nat>, x: nat)
    requires m1 == t1 + multiset{x} && m2 == t2 + multiset{x} && t1 == t2
    ensures m1 == m2
  {
  }

  lemma MultisetRemove<T>(a: seq<T>, b: seq<T>, k: nat)
    requires a != [] && k < |b| && b[k] == a[0] && multiset(a) == multiset(b)
    ensures multiset(a[1..]) == multiset(b[..k] + b[k + 1..])
  {
    assert a == [a[0]] + a[1..];
    assert b == b[..k] + [b[k]] + b[k + 1..];
    assert multiset(a[1..]) == multiset(a) - multiset{a[0]};
    assert multiset(b[..k] + b[k + 1..]) == multiset(b) - multiset{b[k]};
  }

  /** Taking the card at k out of a hand takes its rank out of the ranks. */
  lemma RanksRemove(h: seq<Card>, k: nat)
    requires ValidCards(h) && k < |h|
    ensures ValidCards(h[..k] + h[k + 1..])
    ensures multiset(Ranks(h)) == multiset(Ranks(h[..k] + h[k + 1..])) + multiset{Rank(h[k])}
  {
    var rest := h[..k] + h[k + 1..];
    forall i | 0 <= i < |rest| ensures rest[i] == h[if i < k then i else i + 1] {
    }
    var r := Ranks(h);
    var r2 := Ranks(rest);
    assert r2 == r[..k] + r[k + 1..];
    SeqRemove(r, k);
  }

  lemma SeqRemove<T>(s: seq<T>, k: nat)
    requires k < |s|
    ensures multiset(s) == multiset(s[..k] + s[k + 1..]) + multiset{s[k]}
  {
    assert s == s[..k] + [s[k]] + s[k + 1..];
  }

  lemma RanksConcat(a: seq<Card>, b: seq<Card>)
    requires ValidCards(a) && ValidCards(b)
    ensures ValidCards(a + b) && Ranks(a + b) == Ranks(a) + Ranks(b)
  {
    assert ValidCards(a + b) by {
      forall i | 0 <= i < |a + b| ensures IsRank((a + b)[i].rank) {
        if i >= |a| {
          assert (a + b)[i] == b[i - |a|];
        }
      }
    }
  }

  // ---------------------------------------------------------------- hand_rank, third version

  /** `count_rankings[counts]`; a missing pattern raises KeyError (None). */
  function CountRanking(counts: seq<nat>): Option<nat> {
    if counts == [5] then Some(10)
    else if counts == [4, 1] then Some(7)
    else if counts == [3, 2] then Some(6)
    else if counts == [3, 1, 1] then Some(3)
    else if counts == [2, 2, 1] then Some(2)
    else if counts == [2, 1, 1, 1] then Some(1)
    else if counts == [1, 1, 1, 1, 1] then Some(0)
    else None
  }

  function BoolInt(b: bool): nat {
    if b then 1 else 0
  }

  /** `hand_rank` (third version): `max(count_rankings[counts], 4*straight + 5*flush)`. */
  function HandRank3(hand: seq<Card>): Option<HandValue>
    requires ValidCards(hand) && hand != []
  {
    Value3(HandShape(hand), Flush(hand))
  }

  /** The value the third version gives a shape and a flush test. */
  function Value3(shape: (seq<nat>, seq<nat>), flush: bool): Option<HandValue>
    requires shape.1 != []
  {
    var c := CountRanking(shape.0);
    var s := 4 * BoolInt(Straight(shape.1)) + 5 * BoolInt(flush);
    if c.None? then None else Some((if c.value >= s then c.value else s, shape.1))
  }

  /** The categories of the third version, against the second's: five of a kind 10 for 9 and a
      straight flush 9 for 8, the rest alike. */
  function Promote(category: nat): nat {
    if category == 9 then 10 else if category == 8 then 9 else category
  }

  /** Where the third version answers, it gives the same ranks and the second version's category
      relabelled by Promote. */
  lemma HandRank3Relabels(hand: seq<Card>)
    requires ValidCards(hand) && hand != []
    ensures HandRank3(hand).Some? ==>
      HandRank3(hand).value == (Promote(HandRank2(hand).0), HandRank2(hand).1)
  {
    ValuesRelabel(HandShape(hand), Flush(hand));
  }

  lemma ValuesRelabel(shape: (seq<nat>, seq<nat>), flush: bool)
    requires |shape.0| == |shape.1| && shape.1 != []
    ensures Value3(shape, flush).Some? ==>
      Value3(shape, flush).value == (Promote(Value2(shape, flush).0), Value2(shape, flush).1)
  {
    if Straight(shape.1) {
      SetOfSeqSize(shape.1);
    }
    RelabelCases(shape.0, Straight(shape.1), flush);
  }

  /** The case analysis behind HandRank3Relabels: a straight has five ranks, so its count
      pattern, when the table knows it, is five ones. */
  lemma RelabelCases(counts: seq<nat>, straight: bool, flush: bool)
    requires straight ==> |counts| >= 5
    ensures var c := CountRanking(counts);
      var shape := 4 * BoolInt(straight) + 5 * BoolInt(flush);
      c.Some? ==> (if c.value >= shape then c.value else shape) == Promote(Category(counts, straight, flush))
  {
  }

  /** Promote keeps the categories in order, so both versions rank any two hands alike. */
  lemma RankingsAgree(h1: seq<Card>, h2: seq<Card>)
    requires ValidCards(h1) && h1 != [] && ValidCards(h2) && h2 != []
    requires HandRank3(h1).Some? && HandRank3(h2).Some?
    ensures HandLess(HandRank2(h1), HandRank2(h2)) <==> HandLess(HandRank3(h1).value, HandRank3(h2).value)
  {
    HandRank3Relabels(h1);
    HandRank3Relabels(h2);
    PromoteKeepsOrder(HandRank2(h1), HandRank2(h2));
  }

  lemma PromoteKeepsOrder(a: HandValue, b: HandValue)
    requires a.0 <= 9 && b.0 <= 9
    ensures HandLess(a, b) <==> HandLess((Promote(a.0), a.1), (Promote(b.0), b.1))
  {
  }

  // ---------------------------------------------------------------- comparing values, allmax, poker

  /** Python's `<` on tuples of integers: the first difference decides, and a proper prefix is
      smaller. */
  function SeqLess(a: seq<nat>, b: seq<nat>): bool {
    if a == [] then b != []
    else if b == [] then false
    else a[0] < b[0] || (a[0] == b[0] && SeqLess(a[1..], b[1..]))
  }

  function HandLess(a: HandValue, b: HandValue): bool {
    a.0 < b.0 || (a.0 == b.0 && SeqLess(a.1, b.1))
  }

  /** A strict total order. */
  ghost predicate StrictTotal<K(!new)>(less: (K, K) -> bool) {
    && (forall a :: !less(a, a))
    && (forall a, b, c :: less(a, b) && less(b, c) ==> less(a, c))
    && (forall a, b :: a != b ==> less(a, b) || less(b, a))
  }

  lemma {:induction false} SeqLessIrreflexive(a: seq<nat>)
    ensures !SeqLess(a, a)
  {
    if a != [] {
      SeqLessIrreflexive(a[1..]);
    }
  }

  lemma {:induction false} SeqLessTransitive(a: seq<nat>, b: seq<nat>, c: seq<nat>)
    requires SeqLess(a, b) && SeqLess(b, c)
    ensures SeqLess(a, c)
  {
    if a != [] && b != [] && c != [] && a[0] == b[0] && b[0] == c[0] {
      SeqLessTransitive(a[1..], b[1..], c[1..]);
    }
  }

  lemma {:induction false} SeqLessTotal(a: seq<nat>, b: seq<nat>)
    requires a != b
    ensures SeqLess(a, b) || SeqLess(b, a)
  {
    if a != [] && b != [] && a[0] == b[0] {
      assert a == [a[0]] + a[1..] && b == [b[0]] + b[1..];
      SeqLessTotal(a[1..], b[1..]);
    }
  }

  function HandLessFn(): (HandValue, HandValue) -> bool {
    (a: HandValue, b: HandValue) => HandLess(a, b)
  }

  /** Python's comparison of hand values is a strict total order. */
  lemma HandLessTotal()
    ensures StrictTotal(HandLessFn())
  {
    forall a: HandValue ensures !HandLess(a, a) {
      SeqLessIrreflexive(a.1);
    }
    forall a: HandValue, b: HandValue, c: HandValue | HandLess(a, b) && HandLess(b, c) ensures HandLess(a, c) {
      if a.0 == b.0 && b.0 == c.0 {
        SeqLessTransitive(a.1, b.1, c.1);
      }
    }
    forall a: HandValue, b: HandValue | a != b ensures HandLess(a, b) || HandLess(b, a) {
      if a.0 == b.0 {
        SeqLessTotal(a.1, b.1);
      }
    }
  }

  /** The items whose key is m, in input order. */
  function KeepKey<T(!new), K(==)>(items: seq<T>, key: T --> K, m: K): (r: seq<T>)
    requires forall x :: x in items ==> key.requires(x)
    ensures forall x :: x in r <==> x in items && key(x) == m
  {
    if items == [] then []
    else (if key(items[0]) == m then [items[0]] else []) + KeepKey(items[1..], key, m)
  }

  /** The largest key, the first of equals kept, as the scan in `allmax` finds it. */
  function MaxKey<T, K>(items: seq<T>, key: T --> K, less: (K, K) -> bool): (m: K)
    requires items != [] && forall x :: x in items ==> key.requires(x)
  {
    if |items| == 1 then key(items[0])
    else
      var m := MaxKey(items[..|items| - 1], key, less);
      if less(m, key(items[|items| - 1])) then key(items[|items| - 1]) else m
  }

  /** Under a strict total order the scan's key is the key of an item and no item's key is
      larger. */
  lemma {:induction false} MaxKeySpec<T(!new), K(!new)>(items: seq<T>, key: T --> K, less: (K, K) -> bool)
    requires items != [] && (forall x :: x in items ==> key.requires(x)) && StrictTotal(less)
    ensures exists x :: x in items && key(x) == MaxKey(items, key, less)
    ensures forall x :: x in items ==> !less(MaxKey(items, key, less), key(x))
  {
    if |items| > 1 {
      var init := items[..|items| - 1];
      var last := items[|items| - 1];
      assert forall x :: x in init ==> x in items;
      MaxKeySpec(init, key, less);
      var m := MaxKey(init, key, less);
      assert forall x :: x in items ==> x in init || x == last;
      var y :| y in init && key(y) == m;
      if less(m, key(last)) {
        forall x | x in items ensures !less(key(last), key(x)) {
          if x in init {
            assert !less(m, key(x));
          }
        }
      } else {
        assert y in items;
        forall x | x in items ensures !less(m, key(x)) {
          if x == last {
            assert !less(m, key(last));
          }
        }
      }
    } else {
      assert items[0] in items;
      assert forall x :: x in items ==> x == items[0];
    }
  }

  /** `allmax`: every item whose key is the largest, in input order; [] for no items. */
  method AllMax<T(==,!new), K(==,!new)>(items: seq<T>, key: T --> K, less: (K, K) -> bool) returns (result: seq<T>)
    requires (forall x :: x in items ==> key.requires(x)) && StrictTotal(less)
    ensures items == [] ==> result == []
    ensures forall x :: x in result ==> x in items
    ensures items != [] ==> result == KeepKey(items, key, MaxKey(items, key, less))
    ensures items != [] ==> result != []
    ensures items != [] ==> forall x :: x in items ==> !less(key(result[0]), key(x)) && (key(x) == key(result[0]) <==> x in result)
    ensures items != [] ==> result == KeepKey(items, key, key(result[0]))
  {
    result := [];
    var maxval: Option<K> := None;
    for i := 0 to |items|
      invariant i == 0 ==> result == [] && maxval == None
      invariant i > 0 ==> maxval == Some(MaxKey(items[..i], key, less)) && result == KeepKey(items[..i], key, maxval.value) && result != []
    {
      var x := items[i];
      var xval := key(x);
      if i == 0 {
        AllMaxFirst(items, key, less);
      } else {
        AllMaxStep(items, i, key, less);
      }
      if result == [] || less(maxval.value, xval) {
        result, maxval := [x], Some(xval);
      } else if xval == maxval.value {
        result := result + [x];
      }
    }
    assert items[..|items|] == items;
    if items != [] {
      KeepMaxSpec(items, key, less);
    }
  }

  lemma AllMaxFirst<T(!new), K(!new)>(items: seq<T>, key: T --> K, less: (K, K) -> bool)
    requires items != [] && forall y :: y in items ==> key.requires(y)
    ensures forall y :: y in items[..1] ==> key.requires(y)
    ensures MaxKey(items[..1], key, less) == key(items[0])
    ensures KeepKey(items[..1], key, key(items[0])) == [items[0]]
  {
    assert items[..1] == [items[0]];
  }

  /** One step of the scan: a larger key starts the list afresh, an equal key extends it, a
      smaller key leaves it. */
  lemma AllMaxStep<T(!new), K(!new)>(items: seq<T>, i: nat, key: T --> K, less: (K, K) -> bool)
    requires 0 < i < |items| && (forall y :: y in items ==> key.requires(y)) && StrictTotal(less)
    ensures forall y :: y in items[..i + 1] ==> key.requires(y)
    ensures var m := MaxKey(items[..i], key, less); var x := items[i];
      && MaxKey(items[..i + 1], key, less) == (if less(m, key(x)) then key(x) else m)
      && (less(m, key(x)) ==> KeepKey(items[..i + 1], key, key(x)) == [x])
      && (!less(m, key(x)) ==>
            KeepKey(items[..i + 1], key, m) == KeepKey(items[..i], key, m) + (if key(x) == m then [x] else []))
  {
    var pre, x := items[..i], items[i];
    assert forall y :: y in items[..i + 1] ==> y in items;
    assert items[..i + 1] == pre + [x];
    MaxKeySnoc(pre, x, key, less);
    var m := MaxKey(pre, key, less);
    if less(m, key(x)) {
      MaxKeySpec(pre, key, less);
      assert forall y :: y in pre ==> key(y) != key(x);
      KeepKeySnoc(pre, x, key, key(x));
      KeepKeyNone(pre, key, key(x));
    } else {
      KeepKeySnoc(pre, x, key, m);
    }
  }

  /** The list `allmax` keeps is not empty; its first key is the largest, and it holds exactly
      the items with that key. */
  lemma KeepMaxSpec<T(!new), K(!new)>(items: seq<T>, key: T --> K, less: (K, K) -> bool)
    requires items != [] && (forall x :: x in items ==> key.requires(x)) && StrictTotal(less)
    ensures var r := KeepKey(items, key, MaxKey(items, key, less));
      && r != [] && key(r[0]) == MaxKey(items, key, less)
      && forall x :: x in items ==> !less(key(r[0]), key(x)) && (key(x) == key(r[0]) <==> x in r)
  {
    MaxKeySpec(items, key, less);
    var r := KeepKey(items, key, MaxKey(items, key, less));
    var y :| y in items && key(y) == MaxKey(items, key, less);
    assert y in r;
    assert r[0] in r;
  }

  lemma MaxKeySnoc<T, K>(items: seq<T>, x: T, key: T --> K, less: (K, K) -> bool)
    requires items != [] && forall y :: y in items + [x] ==> key.requires(y)
    ensures forall y :: y in items ==> key.requires(y)
    ensures var m := MaxKey(items, key, less);
      MaxKey(items + [x], key, less) == if less(m, key(x)) then key(x) else m
  {
    assert forall y :: y in items ==> y in items + [x];
    assert (items + [x])[..|items|] == items;
  }

  lemma {:induction false} KeepKeySnoc<T(!new), K>(items: seq<T>, x: T, key: T --> K, m: K)
    requires forall y :: y in items + [x] ==> key.requires(y)
    ensures KeepKey(items + [x], key, m) == KeepKey(items, key, m) + (if key(x) == m then [x] else [])
  {
    if items != [] {
      assert (items + [x])[1..] == items[1..] + [x];
      KeepKeySnoc(items[1..], x, key, m);
    }
  }

  lemma {:induction false} KeepKeyNone<T(!new), K>(items: seq<T>, key: T --> K, m: K)
    requires (forall y :: y in items ==> key.requires(y)) && forall y :: y in items ==> key(y) != m
    ensures KeepKey(items, key, m) == []
  {
    if items != [] {
      KeepKeyNone(items[1..], key, m);
    }
  }

  /** `poker`: the hands of the highest value. */
  method Poker(hands: seq<seq<Card>>) returns (winners: seq<seq<Card>>)
    requires forall h :: h in hands ==> ValidCards(h) && h != []
    ensures hands == [] ==> winners == []
    ensures forall h :: h in winners ==> h in hands
    ensures hands != [] ==> winners != []
    ensures hands != [] ==> forall h :: h in hands ==> !HandLess(HandRank2(winners[0]), HandRank2(h))
    ensures hands != [] ==> winners == KeepKey(hands, HandKey(), HandRank2(winners[0]))
  {
    HandLessTotal();
    winners := AllMax(hands, HandKey(), HandLessFn());
  }

  function HandKey(): seq<Card> --> HandValue {
    (h: seq<Card>) requires ValidCards(h) && h != [] => HandRank2(h)
  }

  // ---------------------------------------------------------------- wild cards

  const AllRanks: string := "23456789TJQKA"

  /** `[r+s for r in ranks for s in suits]`. */
  function CardsOf(ranks: string, suits: string): (r: seq<Card>)
    ensures |r| == |ranks| * |suits|
    ensures forall c :: c in r <==> c.rank in ranks && c.suit in suits
  {
    if ranks == [] then []
    else
      var row := seq(|suits|, k requires 0 <= k < |suits| => Card(ranks[0], suits[k]));
      assert forall c: Card :: c in row <==> c.rank == ranks[0] && c.suit in suits by {
        forall c: Card | c.rank == ranks[0] && c.suit in suits ensures c in row {
          var k :| 0 <= k < |suits| && suits[k] == c.suit;
          assert row[k] == c;
        }
      }
      var rest := CardsOf(ranks[1..], suits);
      assert forall c: Card :: c.rank in ranks <==> c.rank == ranks[0] || c.rank in ranks[1..];
      row + rest
  }

  /** `replacements`: a black joker "?B" stands for any black card, a red joker "?R" for any red
      card, and any other card for itself. */
  function Replacements(card: Card): (r: seq<Card>)
    ensures card == Card('?', 'B') ==> |r| == 26 && forall c :: c in r <==> c.rank in AllRanks && c.suit in "SC"
    ensures card == Card('?', 'R') ==> |r| == 26 && forall c :: c in r <==> c.rank in AllRanks && c.suit in "DH"
    ensures card != Card('?', 'B') && card != Card('?', 'R') ==> r == [card]
  {
    if card == Card('?', 'B') then CardsOf(AllRanks, "SC")
    else if card == Card('?', 'R') then CardsOf(AllRanks, "DH")
    else [card]
  }

  // ---------------------------------------------------------------- shuffle

  /** `swap`: deck[i] and deck[j] change places and nothing else changes. */
  method Swap<T>(deck: array<T>, i: nat, j: nat)
    requires i < deck.Length && j < deck.Length
    modifies deck
    ensures deck[..] == old(deck[..])[i := old(deck[j])][j := old(deck[i])]
    ensures multiset(deck[..]) == multiset(old(deck[..]))
  {
    deck[i], deck[j] := deck[j], deck[i];
  }

  /** The deck after the swaps of Knuth's Algorithm P, with `randrange(i, N)` given as picks[i]. */
  function Shuffled<T>(s: seq<T>, picks: seq<nat>, i: nat): (r: seq<T>)
    requires i <= |picks| && forall k :: 0 <= k < |picks| ==> k <= picks[k] < |s|
    ensures |r| == |s| && multiset(r) == multiset(s)
    decreases |picks| - i
  {
    if i == |picks| then s
    else
      assert i <= picks[i] < |s|;
      var t := s[i := s[picks[i]]][picks[i] := s[i]];
      SwapMultiset(s, i, picks[i]);
      Shuffled(t, picks, i + 1)
  }

  lemma SwapMultiset<T>(s: seq<T>, i: nat, j: nat)
    requires i < |s| && j < |s|
    ensures multiset(s[i := s[j]][j := s[i]]) == multiset(s)
  {
    var t := s[i := s[j]];
    assert multiset(t) == multiset(s) - multiset{s[i]} + multiset{s[j]};
    if i != j {
      assert t[j] == s[j];
      assert multiset(t[j := s[i]]) == multiset(t) - multiset{s[j]} + multiset{s[i]};
    }
  }

  /** `shuffle`: for each position but the last, swap it with a picked position at or after it;
      the deck ends up a rearrangement of itself. */
  method Shuffle<T>(deck: array<T>, picks: seq<nat>)
    requires |picks| == (if deck.Length == 0 then 0 else deck.Length - 1)
    requires forall k :: 0 <= k < |picks| ==> k <= picks[k] < deck.Length
    modifies deck
    ensures deck[..] == Shuffled(old(deck[..]), picks, 0)
    ensures multiset(deck[..]) == multiset(old(deck[..]))
  {
    ghost var start := deck[..];
    var i := 0;
    while i < |picks|
      invariant 0 <= i <= |picks| && |deck[..]| == |start|
      invariant Shuffled(deck[..], picks, i) == Shuffled(start, picks, 0)
    {
      ghost var before := deck[..];
      ghost var after := before[i := before[picks[i]]][picks[i] := before[i]];
      ShuffledStep(before, picks, i);
      Swap(deck, i, picks[i]);
      assert deck[..] == after;
      i := i + 1;
    }
    assert Shuffled(deck[..], picks, i) == deck[..];
  }

  /** One swap of the algorithm, then the rest. */
  lemma ShuffledStep<T>(s: seq<T>, picks: seq<nat>, i: nat)
    requires i < |picks| && i < |s| && forall k :: 0 <= k < |picks| ==> k <= picks[k] < |s|
    ensures Shuffled(s, picks, i) == Shuffled(s[i := s[picks[i]]][picks[i] := s[i]], picks, i + 1)
  {
  }
}
