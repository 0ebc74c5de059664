/** The assertions of the poker exercise's `test` function, on its three hands. Each hand is a
    parameter pinned to its literal value, and each fact about a literal list is proved in a
    lemma of its own, so that the general lemmas of the poker module do the work. */
module PokerTests {
  import opened Common
  import opened Poker

  /** "6C 7C 8C 9C TC", a straight flush. */
  function SF(): seq<Card> {
    [Card('6', 'C'), Card('7', 'C'), Card('8', 'C'), Card('9', 'C'), Card('T', 'C')]
  }

  /** "9D 9H 9S 9C 7D", four of a kind. */
  function FK(): seq<Card> {
    [Card('9', 'D'), Card('9', 'H'), Card('9', 'S'), Card('9', 'C'), Card('7', 'D')]
  }

  /** "TD TC TH 7C 7D", a full house. */
  function FH(): seq<Card> {
    [Card('T', 'D'), Card('T', 'C'), Card('T', 'H'), Card('7', 'C'), Card('7', 'D')]
  }

  // ---------------------------------------------------------------- ranks of a hand

  /** Each rank character past the two placeholders occurs once in the rank string. */
  lemma RankAt(k: nat)
    requires 2 <= k < |RankChars|
    ensures IndexOf(RankChars, RankChars[k]) == k
  {
    assert forall j :: 0 <= j < |RankChars| && j != k ==> RankChars[j] != RankChars[k];
  }

  /** A hand whose rank characters stand at the given places of the rank string. */
  lemma RanksOfHand(hand: seq<Card>, rs: seq<nat>)
    requires |hand| == |rs| && forall i :: 0 <= i < |rs| ==> 2 <= rs[i] < |RankChars| && hand[i].rank == RankChars[rs[i]]
    ensures ValidCards(hand) && Ranks(hand) == rs
  {
    forall i | 0 <= i < |hand| ensures IsRank(hand[i].rank) && Rank(hand[i]) == rs[i] {
      IsRankIn(hand[i].rank);
      RankAt(rs[i]);
    }
    assert Ranks(hand) == rs;
  }

  /** `card_ranks` of a hand without an ace is its ranks from high to low. */
  lemma CardRanksOfHand(hand: seq<Card>, rs: seq<nat>, expected: seq<nat>)
    requires ValidCards(hand) && Ranks(hand) == rs
    requires Desc(expected) && multiset(rs) == multiset(expected) && 14 !in rs
    ensures CardRanks(hand) == expected
  {
    assert multiset(rs)[14] == 0;
    NatGeTotal();
    DescToDescBy(CardRanks(hand));
    DescToDescBy(expected);
    DescUnique(CardRanks(hand), expected, NatGe());
  }

  // ---------------------------------------------------------------- card_ranks

  lemma SFRanks(rs: seq<nat>, ex: seq<nat>)
    requires rs == [6, 7, 8, 9, 10] && ex == [10, 9, 8, 7, 6]
    ensures Desc(ex) && multiset(rs) == multiset(ex) && 14 !in rs
  {
    SFDesc(ex);
    SFUp(rs);
    SFDown(ex);
  }

  lemma SFUp(rs: seq<nat>)
    requires rs == [6, 7, 8, 9, 10]
    ensures multiset(rs) == multiset{6, 7, 8, 9, 10}
  {
  }

  lemma SFDown(ex: seq<nat>)
    requires ex == [10, 9, 8, 7, 6]
    ensures multiset(ex) == multiset{6, 7, 8, 9, 10}
  {
  }

  lemma SFDesc(ex: seq<nat>)
    requires ex == [10, 9, 8, 7, 6]
    ensures Desc(ex)
  {
    DescAdjacent(ex);
  }

  lemma FKRanks(rs: seq<nat>)
    requires rs == [9, 9, 9, 9, 7]
    ensures Desc(rs) && 14 !in rs
  {
    DescAdjacent(rs);
  }

  lemma FHRanks(rs: seq<nat>)
    requires rs == [10, 10, 10, 7, 7]
    ensures Desc(rs) && 14 !in rs
  {
    DescAdjacent(rs);
  }

  lemma CardRanksSF(sf: seq<Card>)
    requires sf == SF()
    ensures ValidCards(sf) && Ranks(sf) == [6, 7, 8, 9, 10] && CardRanks(sf) == [10, 9, 8, 7, 6]
  {
    var rs, ex := [6, 7, 8, 9, 10], [10, 9, 8, 7, 6];
    RanksOfHand(sf, rs);
    SFRanks(rs, ex);
    CardRanksOfHand(sf, rs, ex);
  }

  lemma CardRanksFK(fk: seq<Card>)
    requires fk == FK()
    ensures ValidCards(fk) && Ranks(fk) == [9, 9, 9, 9, 7] && CardRanks(fk) == [9, 9, 9, 9, 7]
  {
    var rs := [9, 9, 9, 9, 7];
    RanksOfHand(fk, rs);
    FKRanks(rs);
    CardRanksOfHand(fk, rs, rs);
  }

  lemma CardRanksFH(fh: seq<Card>)
    requires fh == FH()
    ensures ValidCards(fh) && Ranks(fh) == [10, 10, 10, 7, 7] && CardRanks(fh) == [10, 10, 10, 7, 7]
  {
    var rs := [10, 10, 10, 7, 7];
    RanksOfHand(fh, rs);
    FHRanks(rs);
    CardRanksOfHand(fh, rs, rs);
  }

  /** The `card_ranks` assertions of the tests. */
  lemma CardRanksTests(sf: seq<Card>, fk: seq<Card>, fh: seq<Card>)
    requires sf == SF() && fk == FK() && fh == FH()
    ensures ValidCards(sf) && CardRanks(sf) == [10, 9, 8, 7, 6]
    ensures ValidCards(fk) && CardRanks(fk) == [9, 9, 9, 9, 7]
    ensures ValidCards(fh) && CardRanks(fh) == [10, 10, 10, 7, 7]
  {
    CardRanksSF(sf);
    CardRanksFK(fk);
    CardRanksFH(fh);
  }

  // ---------------------------------------------------------------- kind and straight

  lemma KindsOfFK(r: seq<nat>)
    requires r == [9, 9, 9, 9, 7]
    ensures FirstKind(4, r, 0) == Some(9) && FirstKind(3, r, 0) == None
    ensures FirstKind(2, r, 0) == None && FirstKind(1, r, 0) == Some(7)
  {
    CountMultiset(r, 9);
    CountMultiset(r, 7);
    assert Count(r, 9) == 4 && Count(r, 7) == 1;
    assert forall j :: 0 <= j < |r| ==> Count(r, r[j]) == if j < 4 then 4 else 1;
    FirstKindSpec(3, r, 0);
    FirstKindSpec(2, r, 0);
    assert FirstKind(1, r, 3) == FirstKind(1, r, 4) == Some(7);
    assert FirstKind(1, r, 1) == FirstKind(1, r, 2) == FirstKind(1, r, 3);
  }

  /** The `kind` assertions of the tests, on the ranks of the four of a kind. */
  method KindTests(fk: seq<Card>) returns (four: Option<nat>, three: Option<nat>, two: Option<nat>, one: Option<nat>)
    requires fk == FK()
    ensures four == Some(9) && three == None && two == None && one == Some(7)
  {
    CardRanksFK(fk);
    var fkranks := CardRanks(fk);
    KindsOfFK(fkranks);
    four := Kind(4, fkranks);
    three := Kind(3, fkranks);
    two := Kind(2, fkranks);
    one := Kind(1, fkranks);
  }

  /** The `straight` assertions of the tests. */
  lemma StraightTests(a: seq<nat>, b: seq<nat>)
    requires a == [9, 8, 7, 6, 5] && b == [9, 8, 8, 6, 5]
    ensures Straight(a) && !Straight(b)
  {
    StraightRunOf(a);
    NotStraightRunOf(b);
  }

  lemma StraightRunOf(a: seq<nat>)
    requires a == [9, 8, 7, 6, 5]
    ensures Straight(a)
  {
    DescAdjacent(a);
    StraightRun(a);
  }

  lemma NotStraightRunOf(b: seq<nat>)
    requires b == [9, 8, 8, 6, 5]
    ensures !Straight(b)
  {
    DescAdjacent(b);
    StraightRun(b);
    assert b[2] + 2 != b[0];
  }

  // ---------------------------------------------------------------- hand_rank

  /** The groups of a list of ranks, from a list that has the properties that determine
      them. */
  lemma GroupIs(items: seq<nat>, g: seq<(nat, nat)>)
    requires DescBy(g, PairGe()) && Distinct(g)
    requires forall p :: p in g <==> p.1 in items && p.0 == Count(items, p.1)
    ensures Group(items) == g
  {
    DistinctSameMembers(g, Group(items));
    PairGeTotal();
    DescUnique(g, Group(items), PairGe());
  }

  /** A list of groups, each ahead of the next. */
  lemma GroupsDesc(g: seq<(nat, nat)>)
    requires forall i :: 0 <= i < |g| - 1 ==> PairGe()(g[i], g[i + 1])
    ensures DescBy(g, PairGe())
  {
    PairGeTotal();
    DescByAdjacent(g, PairGe());
  }

  lemma GroupSF(rs: seq<nat>, g: seq<(nat, nat)>)
    requires rs == [6, 7, 8, 9, 10] && g == [(1, 10), (1, 9), (1, 8), (1, 7), (1, 6)]
    ensures Group(rs) == g
  {
    GroupsDesc(g);
    assert Distinct(g);
    MembersSF(rs, g);
    GroupIs(rs, g);
  }

  lemma MembersSF(rs: seq<nat>, g: seq<(nat, nat)>)
    requires rs == [6, 7, 8, 9, 10] && g == [(1, 10), (1, 9), (1, 8), (1, 7), (1, 6)]
    ensures forall p :: p in g <==> p.1 in rs && p.0 == Count(rs, p.1)
  {
    forall x: nat | x in rs ensures Count(rs, x) == 1 {
      CountMultiset(rs, x);
    }
    forall p: (nat, nat) ensures p in g <==> p.1 in rs && p.0 == Count(rs, p.1) {
      assert p.1 in rs <==> p.1 in {6, 7, 8, 9, 10};
    }
  }

  lemma GroupFK(rs: seq<nat>, g: seq<(nat, nat)>)
    requires rs == [9, 9, 9, 9, 7] && g == [(4, 9), (1, 7)]
    ensures Group(rs) == g
  {
    GroupsDesc(g);
    MembersFK(rs, g);
    GroupIs(rs, g);
  }

  lemma MembersFK(rs: seq<nat>, g: seq<(nat, nat)>)
    requires rs == [9, 9, 9, 9, 7] && g == [(4, 9), (1, 7)]
    ensures forall p :: p in g <==> p.1 in rs && p.0 == Count(rs, p.1)
  {
    CountMultiset(rs, 9);
    CountMultiset(rs, 7);
    assert Count(rs, 9) == 4 && Count(rs, 7) == 1;
    forall p: (nat, nat) ensures p in g <==> p.1 in rs && p.0 == Count(rs, p.1) {
      assert p.1 in rs <==> p.1 in {9, 7};
    }
  }

  lemma GroupFH(rs: seq<nat>, g: seq<(nat, nat)>)
    requires rs == [10, 10, 10, 7, 7] && g == [(3, 10), (2, 7)]
    ensures Group(rs) == g
  {
    GroupsDesc(g);
    MembersFH(rs, g);
    GroupIs(rs, g);
  }

  lemma MembersFH(rs: seq<nat>, g: seq<(nat, nat)>)
    requires rs == [10, 10, 10, 7, 7] && g == [(3, 10), (2, 7)]
    ensures forall p :: p in g <==> p.1 in rs && p.0 == Count(rs, p.1)
  {
    CountMultiset(rs, 10);
    CountMultiset(rs, 7);
    assert Count(rs, 10) == 3 && Count(rs, 7) == 2;
    forall p: (nat, nat) ensures p in g <==> p.1 in rs && p.0 == Count(rs, p.1) {
      assert p.1 in rs <==> p.1 in {10, 7};
    }
  }

  /** `hand_rank` read off the groups of a hand. */
  lemma HandRankOfGroups(hand: seq<Card>, g: seq<(nat, nat)>)
    requires ValidCards(hand) && hand != [] && Group(Ranks(hand)) == g
    ensures g != [] && HandRank2(hand) == (Category(Counts(g), Straight(LowAce(GroupRanks(g))), Flush(hand)), LowAce(GroupRanks(g)))
  {
    GroupNonEmpty(Ranks(hand));
    assert HandShape(hand) == (Counts(g), LowAce(GroupRanks(g)));
  }

  lemma FlushSF(sf: seq<Card>)
    requires sf == SF()
    ensures Flush(sf)
  {
    FlushSameSuit(sf);
  }

  lemma NoFlushFH(fh: seq<Card>)
    requires fh == FH()
    ensures !Flush(fh)
  {
    FlushSameSuit(fh);
    assert fh[2].suit != fh[0].suit;
  }

  lemma GroupsOfSF(g: seq<(nat, nat)>)
    requires g == [(1, 10), (1, 9), (1, 8), (1, 7), (1, 6)]
    ensures Counts(g) == [1, 1, 1, 1, 1] && LowAce(GroupRanks(g)) == [10, 9, 8, 7, 6]
  {
    CountsSF(g);
    RanksSF(g);
  }

  lemma CountsSF(g: seq<(nat, nat)>)
    requires g == [(1, 10), (1, 9), (1, 8), (1, 7), (1, 6)]
    ensures Counts(g) == [1, 1, 1, 1, 1]
  {
  }

  lemma RanksSF(g: seq<(nat, nat)>)
    requires g == [(1, 10), (1, 9), (1, 8), (1, 7), (1, 6)]
    ensures GroupRanks(g) == [10, 9, 8, 7, 6]
  {
  }

  lemma GroupsOfFK(g: seq<(nat, nat)>)
    requires g == [(4, 9), (1, 7)]
    ensures Counts(g) == [4, 1] && LowAce(GroupRanks(g)) == [9, 7] && !Straight([9, 7])
  {
    assert SeqMax([9, 7]) == 9 && SeqMin([9, 7]) == 7;
  }

  lemma GroupsOfFH(g: seq<(nat, nat)>)
    requires g == [(3, 10), (2, 7)]
    ensures Counts(g) == [3, 2] && LowAce(GroupRanks(g)) == [10, 7] && !Straight([10, 7])
  {
    assert SeqMax([10, 7]) == 10 && SeqMin([10, 7]) == 7;
  }

  lemma HandRankSF(sf: seq<Card>)
    requires sf == SF()
    ensures ValidCards(sf) && sf != [] && HandRank2(sf) == (8, [10, 9, 8, 7, 6])
  {
    CardRanksSF(sf);
    FlushSF(sf);
    ValueSF(sf);
  }

  /** The value of a flush whose ranks are those of the straight flush. */
  lemma ValueSF(hand: seq<Card>)
    requires ValidCards(hand) && hand != [] && Ranks(hand) == [6, 7, 8, 9, 10] && Flush(hand)
    ensures HandRank2(hand) == (8, [10, 9, 8, 7, 6])
  {
    assert Category([1, 1, 1, 1, 1], true, true) == 8;
    var g := [(1, 10), (1, 9), (1, 8), (1, 7), (1, 6)];
    GroupSF(Ranks(hand), g);
    HandRankOfGroups(hand, g);
    GroupsOfSF(g);
    StraightRunOf6([10, 9, 8, 7, 6]);
  }

  lemma StraightRunOf6(a: seq<nat>)
    requires a == [10, 9, 8, 7, 6]
    ensures Straight(a)
  {
    DescAdjacent(a);
    StraightRun(a);
  }

  lemma HandRankFK(fk: seq<Card>)
    requires fk == FK()
    ensures ValidCards(fk) && fk != [] && HandRank2(fk) == (7, [9, 7])
  {
    CardRanksFK(fk);
    ValueFK(fk);
  }

  /** The value of a hand whose ranks are those of the four of a kind. */
  lemma ValueFK(hand: seq<Card>)
    requires ValidCards(hand) && hand != [] && Ranks(hand) == [9, 9, 9, 9, 7]
    ensures HandRank2(hand) == (7, [9, 7])
  {
    assert Category([4, 1], false, Flush(hand)) == 7;
    var g := [(4, 9), (1, 7)];
    GroupFK(Ranks(hand), g);
    HandRankOfGroups(hand, g);
    GroupsOfFK(g);
  }

  lemma HandRankFH(fh: seq<Card>)
    requires fh == FH()
    ensures ValidCards(fh) && fh != [] && HandRank2(fh) == (6, [10, 7])
  {
    CardRanksFH(fh);
    NoFlushFH(fh);
    ValueFH(fh);
  }

  /** The value of a hand that is no flush, whose ranks are those of the full house. */
  lemma ValueFH(hand: seq<Card>)
    requires ValidCards(hand) && hand != [] && Ranks(hand) == [10, 10, 10, 7, 7] && !Flush(hand)
    ensures HandRank2(hand) == (6, [10, 7])
  {
    assert Category([3, 2], false, false) == 6;
    var g := [(3, 10), (2, 7)];
    GroupFH(Ranks(hand), g);
    HandRankOfGroups(hand, g);
    GroupsOfFH(g);
  }

  /** The `hand_rank` assertions of the tests, on the second version of `hand_rank`. */
  lemma HandRankTests(sf: seq<Card>, fk: seq<Card>, fh: seq<Card>)
    requires sf == SF() && fk == FK() && fh == FH()
    ensures ValidCards(sf) && sf != [] && HandRank2(sf) == (8, [10, 9, 8, 7, 6])
    ensures ValidCards(fk) && fk != [] && HandRank2(fk) == (7, [9, 7])
    ensures ValidCards(fh) && fh != [] && HandRank2(fh) == (6, [10, 7])
  {
    HandRankSF(sf);
    HandRankFK(fk);
    HandRankFH(fh);
  }

  // ---------------------------------------------------------------- poker

  /** When the first hand beats every other, it is the first winner. */
  lemma FirstIsTop(hands: seq<seq<Card>>, w: seq<seq<Card>>)
    requires (forall h :: h in hands ==> ValidCards(h) && h != []) && hands != []
    requires forall h :: h in hands[1..] ==> HandLess(HandRank2(h), HandRank2(hands[0]))
    requires w != [] && w[0] in hands
    requires !HandLess(HandRank2(w[0]), HandRank2(hands[0]))
    ensures w[0] == hands[0]
  {
  }

  /** A hand that loses to another has a different value. */
  lemma LosersDiffer(hands: seq<seq<Card>>)
    requires (forall h :: h in hands ==> ValidCards(h) && h != []) && hands != []
    requires forall h :: h in hands[1..] ==> HandLess(HandRank2(h), HandRank2(hands[0]))
    ensures forall h :: h in hands[1..] ==> HandRank2(h) != HandRank2(hands[0])
  {
    SeqLessIrreflexive(HandRank2(hands[0]).1);
  }

  /** The items with key m are the first item alone. */
  lemma KeepFirst(items: seq<seq<Card>>, m: HandValue)
    requires forall h :: h in items ==> ValidCards(h) && h != []
    requires items != [] && HandRank2(items[0]) == m
    requires forall h :: h in items[1..] ==> HandRank2(h) != m
    ensures KeepKey(items, HandKey(), m) == [items[0]]
  {
    KeepKeyNone(items[1..], HandKey(), m);
  }

  /** The items all of whose keys are m are all kept. */
  lemma {:induction false} KeepAll<T(!new), K>(items: seq<T>, key: T --> K, m: K)
    requires forall h :: h in items ==> key.requires(h) && key(h) == m
    ensures KeepKey(items, key, m) == items
  {
    if items != [] {
      assert forall h :: h in items[1..] ==> h in items;
      KeepAll(items[1..], key, m);
    }
  }

  /** Hands with the values of the three test hands. */
  predicate TestValued(sf: seq<Card>, fk: seq<Card>, fh: seq<Card>) {
    && ValidCards(sf) && sf != [] && ValidCards(fk) && fk != [] && ValidCards(fh) && fh != []
    && HandRank2(sf) == (8, [10, 9, 8, 7, 6]) && HandRank2(fk) == (7, [9, 7]) && HandRank2(fh) == (6, [10, 7])
  }

  /** `poker` of hands that the first beats, each of the others, is the first alone. */
  method PokerTop(hands: seq<seq<Card>>) returns (w: seq<seq<Card>>)
    requires (forall h :: h in hands ==> ValidCards(h) && h != []) && hands != []
    requires forall h :: h in hands[1..] ==> HandLess(HandRank2(h), HandRank2(hands[0]))
    ensures w == [hands[0]]
  {
    w := Poker.Poker(hands);
    assert w[0] in w && hands[0] in hands;
    FirstIsTop(hands, w);
    LosersDiffer(hands);
    KeepFirst(hands, HandRank2(hands[0]));
  }

  /** `poker` of hands that are all the same is all of them. */
  method PokerSame(hands: seq<seq<Card>>, h: seq<Card>) returns (w: seq<seq<Card>>)
    requires ValidCards(h) && h != [] && hands != [] && forall x :: x in hands ==> x == h
    ensures w == hands
  {
    w := Poker.Poker(hands);
    assert w[0] in w;
    KeepAll(hands, HandKey(), HandRank2(h));
  }

  lemma ValidThree(a: seq<Card>, b: seq<Card>, c: seq<Card>)
    requires ValidCards(a) && a != [] && ValidCards(b) && b != [] && ValidCards(c) && c != []
    ensures forall h :: h in [a, b, c] ==> ValidCards(h) && h != []
  {
  }

  /** The first of three hands beats the other two. */
  lemma TopOfThree(a: seq<Card>, b: seq<Card>, c: seq<Card>)
    requires ValidCards(a) && a != [] && ValidCards(b) && b != [] && ValidCards(c) && c != []
    requires HandLess(HandRank2(b), HandRank2(a)) && HandLess(HandRank2(c), HandRank2(a))
    ensures forall h :: h in [a, b, c][1..] ==> ValidCards(h) && h != [] && HandLess(HandRank2(h), HandRank2(a))
  {
    RestOfThree(a, b, c);
    forall h | h in [a, b, c][1..] ensures ValidCards(h) && h != [] && HandLess(HandRank2(h), HandRank2(a)) {
      if h == b {
      } else {
        assert h == c;
      }
    }
  }

  lemma RestOfThree<T>(a: T, b: T, c: T)
    ensures forall h :: h in [a, b, c][1..] <==> h == b || h == c
  {
    assert [a, b, c][1..] == [b, c];
  }

  lemma ValidTwo(a: seq<Card>, b: seq<Card>)
    requires ValidCards(a) && a != [] && ValidCards(b) && b != []
    ensures forall h :: h in [a, b] ==> ValidCards(h) && h != []
  {
  }

  /** The first of two hands beats the other. */
  lemma TopOfTwo(a: seq<Card>, b: seq<Card>)
    requires ValidCards(a) && a != [] && ValidCards(b) && b != []
    requires HandLess(HandRank2(b), HandRank2(a))
    ensures forall h :: h in [a, b][1..] ==> ValidCards(h) && h != [] && HandLess(HandRank2(h), HandRank2(a))
  {
    assert [a, b][1..] == [b];
  }

  /** One hand followed by 99 copies of another. */
  lemma ValidMany(many: seq<seq<Card>>, a: seq<Card>, b: seq<Card>)
    requires ValidCards(a) && a != [] && ValidCards(b) && b != [] && many == [a] + seq(99, _ => b)
    ensures forall h :: h in many ==> ValidCards(h) && h != []
  {
    assert forall h :: h in many ==> h == a || h in many[1..];
    assert many[1..] == seq(99, _ => b);
  }

  /** A hand beats each of 99 copies of another. */
  lemma TopOfMany(many: seq<seq<Card>>, a: seq<Card>, b: seq<Card>)
    requires ValidCards(a) && a != [] && ValidCards(b) && b != [] && many == [a] + seq(99, _ => b)
    requires HandLess(HandRank2(b), HandRank2(a))
    ensures forall h :: h in many[1..] ==> HandLess(HandRank2(h), HandRank2(a))
  {
    assert many[1..] == seq(99, _ => b);
  }

  /** `poker([sf, fk, fh]) == [sf]`. */
  method PokerTest1(sf: seq<Card>, fk: seq<Card>, fh: seq<Card>) returns (w: seq<seq<Card>>)
    requires TestValued(sf, fk, fh)
    ensures w == [sf]
  {
    ValidThree(sf, fk, fh);
    TopOfThree(sf, fk, fh);
    w := PokerTop([sf, fk, fh]);
  }

  /** `poker([fk, fh]) == [fk]`. */
  method PokerTest2(sf: seq<Card>, fk: seq<Card>, fh: seq<Card>) returns (w: seq<seq<Card>>)
    requires TestValued(sf, fk, fh)
    ensures w == [fk]
  {
    ValidTwo(fk, fh);
    TopOfTwo(fk, fh);
    w := PokerTop([fk, fh]);
  }

  lemma ValidSF(sf: seq<Card>)
    requires sf == SF()
    ensures ValidCards(sf) && sf != []
  {
    RanksOfHand(sf, [6, 7, 8, 9, 10]);
  }

  lemma ValidFH(fh: seq<Card>)
    requires fh == FH()
    ensures ValidCards(fh) && fh != []
  {
    RanksOfHand(fh, [10, 10, 10, 7, 7]);
  }

  /** `poker([fh, fh]) == [fh, fh]`. */
  method PokerTest3(fh: seq<Card>) returns (w: seq<seq<Card>>)
    requires fh == FH()
    ensures w == [fh, fh]
  {
    ValidFH(fh);
    w := PokerSame([fh, fh], fh);
  }

  /** `poker([sf]) == [sf]`. */
  method PokerTest4(sf: seq<Card>) returns (w: seq<seq<Card>>)
    requires sf == SF()
    ensures w == [sf]
  {
    ValidSF(sf);
    w := PokerSame([sf], sf);
  }

  /** `poker([sf] + 99*[fh]) == [sf]`. */
  method PokerTest5(sf: seq<Card>, fk: seq<Card>, fh: seq<Card>) returns (w: seq<seq<Card>>)
    requires TestValued(sf, fk, fh)
    ensures w == [sf]
  {
    var many := [sf] + seq(99, _ => fh);
    ValidMany(many, sf, fh);
    TopOfMany(many, sf, fh);
    w := PokerTop(many);
  }

  /** The `poker` assertions of the tests. */
  method PokerTests(sf: seq<Card>, fk: seq<Card>, fh: seq<Card>)
    returns (w1: seq<seq<Card>>, w2: seq<seq<Card>>, w3: seq<seq<Card>>, w4: seq<seq<Card>>, w5: seq<seq<Card>>)
    requires sf == SF() && fk == FK() && fh == FH()
    ensures w1 == [sf] && w2 == [fk] && w3 == [fh, fh] && w4 == [sf] && w5 == [sf]
  {
    HandRankTests(sf, fk, fh);
    w1 := PokerTest1(sf, fk, fh);
    w2 := PokerTest2(sf, fk, fh);
    w3 := PokerTest3(fh);
    w4 := PokerTest4(sf);
    w5 := PokerTest5(sf, fk, fh);
  }
}
