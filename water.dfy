/** The water-pouring puzzle: two glasses of capacities X and Y, a state is the pair of fill
    levels, and the goal is a level that either glass may hold. */
module WaterPouring {
  import opened Common
  import opened Paths
  import opened ShortestPath

  type Levels = (nat, nat)

  /** The six entries of the `successors` dict literal, in the order written. */
  function Moves(x: nat, y: nat, cx: nat, cy: nat): seq<(Levels, string)>
    requires x <= cx && y <= cy
  {
    [ ((if y + x <= cy then (0, y + x) else (x - (cy - y), y + (cy - y))), "X->Y"),
      ((if x + y <= cx then (x + y, 0) else (x + (cx - x), y - (cx - x))), "X<-Y"),
      ((cx, y), "fill X"),
      ((x, cy), "fill Y"),
      ((0, y), "empty X"),
      ((x, 0), "empty Y") ]
  }

  /** `successors(x, y, X, Y)`: the dict the literal builds, kept as its list of items. */
  function Successors(x: nat, y: nat, cx: nat, cy: nat): seq<(Levels, string)>
    requires x <= cx && y <= cy
  {
    DictFromPairs(Moves(x, y, cx, cy))
  }

  function Min(a: int, b: int): int {
    if a <= b then a else b
  }

  /** Pouring X into Y moves min(x, Y - y); pouring Y into X moves min(y, X - x); both keep
      the total; filling or emptying sets one glass and leaves the other as it was. */
  lemma MovesEffect(x: nat, y: nat, cx: nat, cy: nat)
    requires x <= cx && y <= cy
    ensures var ms := Moves(x, y, cx, cy);
      && |ms| == 6
      && ms[0].0 == (x - Min(x, cy - y), y + Min(x, cy - y))
      && ms[1].0 == (x + Min(y, cx - x), y - Min(y, cx - x))
      && ms[0].0.0 + ms[0].0.1 == x + y && ms[1].0.0 + ms[1].0.1 == x + y
      && ms[2].0 == (cx, y) && ms[3].0 == (x, cy) && ms[4].0 == (0, y) && ms[5].0 == (x, 0)
  {
  }

  /** Every successor keeps both levels within their glasses. */
  lemma SuccessorsInRange(x: nat, y: nat, cx: nat, cy: nat)
    requires x <= cx && y <= cy
    ensures forall e :: e in Successors(x, y, cx, cy) ==> e.0.0 <= cx && e.0.1 <= cy
  {
    var ms := Moves(x, y, cx, cy);
    DictFromPairsItems(ms);
    forall e | e in Successors(x, y, cx, cy) ensures e.0.0 <= cx && e.0.1 <= cy {
      assert e.0 in Keys(ms);
    }
  }

  /** Each reachable state appears once, recorded with the last of the moves that reach it,
      and every move's state is reachable. */
  lemma SuccessorsLastWins(x: nat, y: nat, cx: nat, cy: nat)
    requires x <= cx && y <= cy
    ensures var ms := Moves(x, y, cx, cy); var r := Successors(x, y, cx, cy);
      && DistinctKeys(r)
      && (forall e :: e in r ==> e.0 in Keys(ms) && e.1 == LastValue(ms, e.0))
      && (forall i :: 0 <= i < |ms| ==> ms[i].0 in Keys(r))
  {
    var ms := Moves(x, y, cx, cy);
    DictFromPairsSpec(ms);
    DictFromPairsItems(ms);
    forall i | 0 <= i < |ms| ensures ms[i].0 in Keys(Successors(x, y, cx, cy)) {
      assert ms[i].0 == Keys(ms)[i];
    }
  }

  /** From two empty glasses of 4 and 9, pouring either way and emptying either glass all
      leave (0, 0), which the dict records as "empty Y", the last of them. */
  lemma SuccessorsFromEmpty()
    ensures Successors(0, 0, 4, 9) == [((0, 0), "empty Y"), ((4, 0), "fill X"), ((0, 9), "fill Y")]
  {
    var ms := Moves(0, 0, 4, 9);
    var p5: seq<(Levels, string)> := [((0, 0), "X->Y"), ((0, 0), "X<-Y"), ((4, 0), "fill X"), ((0, 9), "fill Y"), ((0, 0), "empty X")];
    assert ms == p5 + [((0, 0), "empty Y")];
    SuccessorsFromEmptyPrefix();
    DictFromPairsSnoc(p5, (0, 0), "empty Y");
    var d5: seq<(Levels, string)> := [((0, 0), "empty X"), ((4, 0), "fill X"), ((0, 9), "fill Y")];
    assert Keys(d5) == [(0, 0), (4, 0), (0, 9)];
    assert IndexOfKey(d5, (0, 0)) == 0;
    assert DictSet(d5, (0, 0), "empty Y") == d5[0 := ((0, 0), "empty Y")];
    assert DictFromPairs(ms) == DictSet(d5, (0, 0), "empty Y");
    assert d5[0 := ((0, 0), "empty Y")] == [((0, 0), "empty Y"), ((4, 0), "fill X"), ((0, 9), "fill Y")];
  }

  lemma SuccessorsFromEmptyPrefix()
    ensures var p: seq<(Levels, string)> :=
        [((0, 0), "X->Y"), ((0, 0), "X<-Y"), ((4, 0), "fill X"), ((0, 9), "fill Y"), ((0, 0), "empty X")];
      DictFromPairs(p) == [((0, 0), "empty X"), ((4, 0), "fill X"), ((0, 9), "fill Y")]
  {
    var e1: (Levels, string), e2: (Levels, string), e3: (Levels, string), e4: (Levels, string), e5: (Levels, string) :=
      ((0, 0), "X->Y"), ((0, 0), "X<-Y"), ((4, 0), "fill X"), ((0, 9), "fill Y"), ((0, 0), "empty X");
    FivePairs(e1, e2, e3, e4, e5);
  }

  /** Five pairs whose first, second and last share a key which the other two lack keep
      the last value of the shared key in the first slot. */
  lemma FivePairs<K, V>(e1: (K, V), e2: (K, V), e3: (K, V), e4: (K, V), e5: (K, V))
    requires e2.0 == e1.0 && e5.0 == e1.0 && e3.0 != e1.0 && e4.0 != e1.0 && e4.0 != e3.0
    ensures DictFromPairs([e1, e2, e3, e4, e5]) == [e5, e3, e4]
  {
    FourPairs(e1, e2, e3, e4);
    PairsHead([e1, e2, e3, e4], [e2, e3, e4], e5);
    assert [e1, e2, e3, e4] + [e5] == [e1, e2, e3, e4, e5] && [e2, e3, e4][0 := e5] == [e5, e3, e4];
  }

  lemma FourPairs<K, V>(e1: (K, V), e2: (K, V), e3: (K, V), e4: (K, V))
    requires e2.0 == e1.0 && e3.0 != e1.0 && e4.0 != e1.0 && e4.0 != e3.0
    ensures DictFromPairs([e1, e2, e3, e4]) == [e2, e3, e4]
  {
    ThreePairs(e1, e2, e3);
    PairsNew([e1, e2, e3], [e2, e3], e4);
    assert [e1, e2, e3] + [e4] == [e1, e2, e3, e4] && [e2, e3] + [e4] == [e2, e3, e4];
  }

  lemma ThreePairs<K, V>(e1: (K, V), e2: (K, V), e3: (K, V))
    requires e2.0 == e1.0 && e3.0 != e1.0
    ensures DictFromPairs([e1, e2, e3]) == [e2, e3]
  {
    PairsNew([], [], e1);
    assert [] + [e1] == [e1];
    PairsHead([e1], [e1], e2);
    assert [e1] + [e2] == [e1, e2] && [e1][0 := e2] == [e2];
    PairsNew([e1, e2], [e2], e3);
    assert [e1, e2] + [e3] == [e1, e2, e3] && [e2] + [e3] == [e2, e3];
  }

  /** Appending a pair with a new key to pairs whose dict is known appends it to the dict. */
  lemma PairsNew<K, V>(ps: seq<(K, V)>, d: seq<(K, V)>, e: (K, V))
    requires DictFromPairs(ps) == d && forall i :: 0 <= i < |d| ==> d[i].0 != e.0
    ensures DictFromPairs(ps + [e]) == d + [e]
  {
    DictFromPairsSnoc(ps, e.0, e.1);
    DictSetNew(d, e.0, e.1);
  }

  /** Appending a pair with the key of the dict's first entry replaces that entry. */
  lemma PairsHead<K, V>(ps: seq<(K, V)>, d: seq<(K, V)>, e: (K, V))
    requires DictFromPairs(ps) == d && |d| > 0 && d[0].0 == e.0
    ensures DictFromPairs(ps + [e]) == d[0 := e]
  {
    DictFromPairsSnoc(ps, e.0, e.1);
    DictSetHead(d, e.0, e.1);
  }

  /** The successor function the search is given; a state outside the glasses, which the
      search never reaches from a start inside them, has no successors here. */
  function Step(cx: nat, cy: nat): Levels -> seq<(Levels, string)> {
    (s: Levels) => if s.0 <= cx && s.1 <= cy then Successors(s.0, s.1, cx, cy) else []
  }

  predicate HasLevel(goal: int, s: Levels) {
    s.0 == goal || s.1 == goal
  }

  /** The states with both levels within their glasses. */
  ghost function Grid(cx: nat, cy: nat): set<Levels> {
    set x: nat, y: nat | x <= cx && y <= cy :: (x, y)
  }

  lemma GridClosed(cx: nat, cy: nat)
    ensures Closed(Grid(cx, cy), Step(cx, cy))
  {
    forall s, k | s in Grid(cx, cy) && 0 <= k < |Step(cx, cy)(s)|
      ensures Step(cx, cy)(s)[k].0 in Grid(cx, cy)
    {
      SuccessorsInRange(s.0, s.1, cx, cy);
      var e := Step(cx, cy)(s)[k];
      assert e in Successors(s.0, s.1, cx, cy);
      assert e.0 == (e.0.0, e.0.1);
    }
  }

  /** `pour_problem(X, Y, goal, start)`: the breadth-first search over fill levels. The
      result is `[start]` when the goal is already in a glass, otherwise a shortest sequence of
      pours ending with the goal in a glass, or `Fail`, the empty list, when none exists. */
  method PourProblem(cx: nat, cy: nat, goal: int, start: Levels) returns (path: Path<Levels, string>)
    requires HasLevel(goal, start) || (start.0 <= cx && start.1 <= cy)
    ensures HasLevel(goal, start) ==> path == [St(start)]
    ensures path != [] ==> ValidPath(path, start, Step(cx, cy)) && HasLevel(goal, LastState(path))
    ensures path != [] ==>
      forall q :: ValidPath(q, start, Step(cx, cy)) && HasLevel(goal, LastState(q)) ==> Steps(path) <= Steps(q)
    ensures path == [] ==> forall q :: ValidPath(q, start, Step(cx, cy)) ==> !HasLevel(goal, LastState(q))
  {
    if HasLevel(goal, start) {
      return [St(start)];
    }
    GridClosed(cx, cy);
    assert start == (start.0, start.1);
    path := ShortestPathSearch(start, Step(cx, cy), s => HasLevel(goal, s), Grid(cx, cy));
  }
}
