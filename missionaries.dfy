/** Missionaries and cannibals: a state (M1, C1, B1, M2, C2, B2) counts missionaries,
    cannibals and boats on the start side (1) and the other side (2). */
module Missionaries {
  import opened Common
  import opened Paths
  import opened ShortestPath

  datatype State = State(m1: int, c1: int, b1: int, m2: int, c2: int, b2: int)

  /** The cannibals outnumber the missionaries on a bank (the guard of the
      missionaries-and-cannibals file, with no non-zero test). */
  predicate Dining(s: State) {
    s.c1 > s.m1 || s.c2 > s.m2
  }

  /** The guard of the shortest-path file: `C1 > M1 > 0 or C2 > M2 > 0`, so cannibals only
      dine where there is at least one missionary. */
  predicate DiningWithMissionary(s: State) {
    (s.c1 > s.m1 && s.m1 > 0) || (s.c2 > s.m2 && s.m2 > 0)
  }

  /** The boat loads (m, c) the comprehensions range over: m in range(3), c in range(2 - m + 1),
      not both zero, in iteration order. */
  function Loads(): seq<(nat, nat)> {
    [(0, 1), (0, 2), (1, 0), (1, 1), (2, 0)]
  }

  function Repeat(ch: char, n: nat): (r: string)
    ensures |r| == n && forall i :: 0 <= i < n ==> r[i] == ch
  {
    if n == 0 then [] else [ch] + Repeat(ch, n - 1)
  }

  /** The crossing from side 1 (the boat is there) carrying m missionaries and c cannibals. */
  function Forward(s: State, m: nat, c: nat): (State, string) {
    (State(s.m1 - m, s.c1 - c, 0, s.m2 + m, s.c2 + c, 1), Repeat('M', m) + Repeat('C', c) + "->")
  }

  /** The crossing back from side 2. */
  function Backward(s: State, m: nat, c: nat): (State, string) {
    (State(s.m1 + m, s.c1 + c, 1, s.m2 - m, s.c2 - c, 0), "<-" + Repeat('M', m) + Repeat('C', c))
  }

  /** The pairs the comprehension generates for the given loads, in order. */
  function Crossings(s: State, loads: seq<(nat, nat)>): (r: seq<(State, string)>)
    ensures |r| <= |loads|
  {
    if |loads| == 0 then []
    else
      var m, c := loads[0].0, loads[0].1;
      (if Fits(s, m, c) then [Cross(s, m, c)] else []) + Crossings(s, loads[1..])
  }

  /** The load is available on the side where the boat is (`B1` true, or not). */
  predicate Fits(s: State, m: nat, c: nat) {
    if s.b1 != 0 then s.m1 - m >= 0 && s.c1 - c >= 0 else s.m2 - m >= 0 && s.c2 - c >= 0
  }

  /** The crossing in the boat's direction. */
  function Cross(s: State, m: nat, c: nat): (State, string) {
    if s.b1 != 0 then Forward(s, m, c) else Backward(s, m, c)
  }

  /** The two dict comprehensions (the boat on side 1, or not), as the dicts they build. */
  function Moves(s: State): seq<(State, string)> {
    DictFromPairs(Crossings(s, Loads()))
  }

  /** `csuccessors` of the missionaries-and-cannibals file. */
  function Successors(s: State): seq<(State, string)> {
    if Dining(s) then [] else Moves(s)
  }

  /** `csuccessors` of the shortest-path file. */
  function SuccessorsWithMissionary(s: State): seq<(State, string)> {
    if DiningWithMissionary(s) then [] else Moves(s)
  }

  /** The loads are exactly the ways to put one or two people in the boat. */
  lemma LoadsSpec(m: nat, c: nat)
    ensures (m, c) in Loads() <==> 1 <= m + c <= 2
  {
  }

  /** A crossing is one of the loads applied in the boat's direction, it empties no count
      below zero on the side people leave, and the boat goes across. */
  predicate ValidMove(s: State, t: State, a: string) {
    exists i :: 0 <= i < |Loads()| && CrossingOf(s, Loads()[i], t, a)
  }

  predicate CrossingOf(s: State, load: (nat, nat), t: State, a: string) {
    Fits(s, load.0, load.1) && (t, a) == Cross(s, load.0, load.1)
  }

  lemma {:induction false} CrossingsSpec(s: State, loads: seq<(nat, nat)>)
    ensures forall e :: e in Crossings(s, loads) ==> exists i :: 0 <= i < |loads| && CrossingOf(s, loads[i], e.0, e.1)
  {
    if |loads| > 0 {
      CrossingsSpec(s, loads[1..]);
      forall e | e in Crossings(s, loads) ensures exists i :: 0 <= i < |loads| && CrossingOf(s, loads[i], e.0, e.1) {
        if e in Crossings(s, loads[1..]) {
          var i :| 0 <= i < |loads[1..]| && CrossingOf(s, loads[1..][i], e.0, e.1);
          assert CrossingOf(s, loads[i + 1], e.0, e.1);
        } else {
          assert CrossingOf(s, loads[0], e.0, e.1);
        }
      }
    }
  }

  /** Every entry of the successor dict is a legal crossing of one or two people. */
  lemma MovesAreCrossings(s: State)
    ensures forall e :: e in Moves(s) ==> ValidMove(s, e.0, e.1)
  {
    CrossingsSpec(s, Loads());
    DictFromPairsItems(Crossings(s, Loads()));
    forall e | e in Moves(s) ensures ValidMove(s, e.0, e.1) {
      var ps := Crossings(s, Loads());
      LastValueIn(ps, e.0);
    }
  }

  /** A crossing moves one or two people, flips both boat bits, keeps the totals of missionaries
      and of cannibals, and leaves no count negative when none was. */
  lemma ValidMoveEffect(s: State, t: State, a: string)
    requires ValidMove(s, t, a)
    ensures var moved := if s.b1 != 0 then (s.m1 - t.m1) + (s.c1 - t.c1) else (t.m1 - s.m1) + (t.c1 - s.c1);
      1 <= moved <= 2
    ensures t.b1 == (if s.b1 != 0 then 0 else 1) && t.b2 == 1 - t.b1
    ensures t.m1 + t.m2 == s.m1 + s.m2 && t.c1 + t.c2 == s.c1 + s.c2
    ensures s.m1 >= 0 && s.c1 >= 0 && s.m2 >= 0 && s.c2 >= 0 ==>
      t.m1 >= 0 && t.c1 >= 0 && t.m2 >= 0 && t.c2 >= 0
  {
    var i :| 0 <= i < |Loads()| && CrossingOf(s, Loads()[i], t, a);
    LoadsSpec(Loads()[i].0, Loads()[i].1);
  }

  /** Different loads lead to different states. */
  lemma CrossingInjective(s: State, l1: (nat, nat), l2: (nat, nat), t: State, a1: string, a2: string)
    requires CrossingOf(s, l1, t, a1) && CrossingOf(s, l2, t, a2)
    ensures l1 == l2
  {
  }

  lemma {:induction false} CrossingsDistinct(s: State, loads: seq<(nat, nat)>)
    requires forall k, l :: 0 <= k < l < |loads| ==> loads[k] != loads[l]
    ensures DistinctKeys(Crossings(s, loads))
  {
    if |loads| > 0 {
      var l0 := loads[0];
      var rest := Crossings(s, loads[1..]);
      CrossingsDistinct(s, loads[1..]);
      CrossingsSpec(s, loads[1..]);
      if Fits(s, l0.0, l0.1) {
        var h := Cross(s, l0.0, l0.1);
        assert Crossings(s, loads) == [h] + rest;
        forall j | 0 <= j < |rest| ensures rest[j].0 != h.0 {
          assert rest[j] in rest;
          var k :| 0 <= k < |loads[1..]| && CrossingOf(s, loads[1..][k], rest[j].0, rest[j].1);
          if rest[j].0 == h.0 {
            CrossingInjective(s, l0, loads[k + 1], h.0, h.1, rest[j].1);
          }
        }
        DistinctCons(h, rest);
      }
    }
  }

  /** Each load gives a different new state, so the dict holds every crossing, in order. */
  lemma MovesInOrder(s: State)
    ensures Moves(s) == Crossings(s, Loads())
  {
    CrossingsDistinct(s, Loads());
    DictFromDistinctPairs(Crossings(s, Loads()));
  }

  /** The first assertion of the source's `test`: from (2, 2, 1, 0, 0, 0) the five loads that fit
      all cross. The source compares dicts, so the comparison is of the mappings (whose display
      order does not matter; it is written here in the order the comprehension generates). */
  lemma SuccessorsTest1(s: State)
    requires s == State(2, 2, 1, 0, 0, 0)
    ensures AsMap(Successors(s)) == map[
      State(2, 1, 0, 0, 1, 1) := "C->", State(2, 0, 0, 0, 2, 1) := "CC->", State(1, 2, 0, 1, 0, 1) := "M->",
      State(1, 1, 0, 1, 1, 1) := "MC->", State(0, 2, 0, 2, 0, 1) := "MM->"]
  {
    FirstTestList(s);
    assert Successors(s) == [(State(2, 1, 0, 0, 1, 1), "C->"), (State(2, 0, 0, 0, 2, 1), "CC->"), (State(1, 2, 0, 1, 0, 1), "M->"), (State(1, 1, 0, 1, 1, 1), "MC->"), (State(0, 2, 0, 2, 0, 1), "MM->")];
    AsMapFive((State(2, 1, 0, 0, 1, 1), "C->"), (State(2, 0, 0, 0, 2, 1), "CC->"), (State(1, 2, 0, 1, 0, 1), "M->"), (State(1, 1, 0, 1, 1, 1), "MC->"), (State(0, 2, 0, 2, 0, 1), "MM->"));
  }

  /** The second assertion: from (1, 1, 0, 4, 3, 1) the boat comes back with each load. */
  lemma SuccessorsTest2(s: State)
    requires s == State(1, 1, 0, 4, 3, 1)
    ensures AsMap(Successors(s)) == map[
      State(1, 2, 1, 4, 2, 0) := "<-C", State(1, 3, 1, 4, 1, 0) := "<-CC", State(2, 1, 1, 3, 3, 0) := "<-M",
      State(2, 2, 1, 3, 2, 0) := "<-MC", State(3, 1, 1, 2, 3, 0) := "<-MM"]
  {
    SecondTestList(s);
    assert Successors(s) == [(State(1, 2, 1, 4, 2, 0), "<-C"), (State(1, 3, 1, 4, 1, 0), "<-CC"), (State(2, 1, 1, 3, 3, 0), "<-M"), (State(2, 2, 1, 3, 2, 0), "<-MC"), (State(3, 1, 1, 2, 3, 0), "<-MM")];
    AsMapFive((State(1, 2, 1, 4, 2, 0), "<-C"), (State(1, 3, 1, 4, 1, 0), "<-CC"), (State(2, 1, 1, 3, 3, 0), "<-M"), (State(2, 2, 1, 3, 2, 0), "<-MC"), (State(3, 1, 1, 2, 3, 0), "<-MM"));
  }

  lemma FirstTestList(s: State)
    requires s == State(2, 2, 1, 0, 0, 0)
    ensures Successors(s) == [(State(2, 1, 0, 0, 1, 1), "C->"), (State(2, 0, 0, 0, 2, 1), "CC->"),
      (State(1, 2, 0, 1, 0, 1), "M->"), (State(1, 1, 0, 1, 1, 1), "MC->"), (State(0, 2, 0, 2, 0, 1), "MM->")]
  {
    AllLoadsCross(s);
  }

  lemma SecondTestList(s: State)
    requires s == State(1, 1, 0, 4, 3, 1)
    ensures Successors(s) == [(State(1, 2, 1, 4, 2, 0), "<-C"), (State(1, 3, 1, 4, 1, 0), "<-CC"),
      (State(2, 1, 1, 3, 3, 0), "<-M"), (State(2, 2, 1, 3, 2, 0), "<-MC"), (State(3, 1, 1, 2, 3, 0), "<-MM")]
  {
    AllLoadsCrossBack(s);
  }

  /** With the boat on the start side, two of each there, and no one dining, every load crosses. */
  lemma AllLoadsCross(s: State)
    requires !Dining(s) && s.b1 != 0 && s.m1 >= 2 && s.c1 >= 2
    ensures Successors(s) == [(State(s.m1, s.c1 - 1, 0, s.m2, s.c2 + 1, 1), "C->"),
      (State(s.m1, s.c1 - 2, 0, s.m2, s.c2 + 2, 1), "CC->"), (State(s.m1 - 1, s.c1, 0, s.m2 + 1, s.c2, 1), "M->"),
      (State(s.m1 - 1, s.c1 - 1, 0, s.m2 + 1, s.c2 + 1, 1), "MC->"), (State(s.m1 - 2, s.c1, 0, s.m2 + 2, s.c2, 1), "MM->")]
  {
    MovesInOrder(s);
    assert Repeat('M', 0) == "" && Repeat('M', 1) == "M" && Repeat('M', 2) == "MM";
    assert Repeat('C', 0) == "" && Repeat('C', 1) == "C" && Repeat('C', 2) == "CC";
    assert "" + "C" + "->" == "C->" && "" + "CC" + "->" == "CC->" && "M" + "" + "->" == "M->";
    assert "M" + "C" + "->" == "MC->" && "MM" + "" + "->" == "MM->";
    CrossingsOfLoads(s);
  }

  /** With the boat on the other side, two of each there, and no one dining, every load crosses back. */
  lemma AllLoadsCrossBack(s: State)
    requires !Dining(s) && s.b1 == 0 && s.m2 >= 2 && s.c2 >= 2
    ensures Successors(s) == [(State(s.m1, s.c1 + 1, 1, s.m2, s.c2 - 1, 0), "<-C"),
      (State(s.m1, s.c1 + 2, 1, s.m2, s.c2 - 2, 0), "<-CC"), (State(s.m1 + 1, s.c1, 1, s.m2 - 1, s.c2, 0), "<-M"),
      (State(s.m1 + 1, s.c1 + 1, 1, s.m2 - 1, s.c2 - 1, 0), "<-MC"), (State(s.m1 + 2, s.c1, 1, s.m2 - 2, s.c2, 0), "<-MM")]
  {
    MovesInOrder(s);
    assert Repeat('M', 0) == "" && Repeat('M', 1) == "M" && Repeat('M', 2) == "MM";
    assert Repeat('C', 0) == "" && Repeat('C', 1) == "C" && Repeat('C', 2) == "CC";
    assert "<-" + "" + "C" == "<-C" && "<-" + "" + "CC" == "<-CC" && "<-" + "M" + "" == "<-M";
    assert "<-" + "M" + "C" == "<-MC" && "<-" + "MM" + "" == "<-MM";
    CrossingsOfLoads(s);
  }

  /** When every load fits on the boat's side, the comprehension yields one crossing per load. */
  lemma CrossingsOfLoads(s: State)
    requires if s.b1 != 0 then s.m1 >= 2 && s.c1 >= 2 else s.m2 >= 2 && s.c2 >= 2
    ensures Crossings(s, Loads()) == [Cross(s, 0, 1), Cross(s, 0, 2), Cross(s, 1, 0), Cross(s, 1, 1), Cross(s, 2, 0)]
  {
    var l1: (nat, nat), l2: (nat, nat), l3: (nat, nat), l4: (nat, nat), l5: (nat, nat) := (0, 1), (0, 2), (1, 0), (1, 1), (2, 0);
    var ls := [l1, l2, l3, l4, l5];
    assert ls == Loads();
    assert Crossings(s, [l5]) == [Cross(s, 2, 0)] by { var nil: seq<(nat, nat)> := []; assert [l5][1..] == nil; }
    assert Crossings(s, [l4, l5]) == [Cross(s, 1, 1), Cross(s, 2, 0)] by { assert [l4, l5][1..] == [l5]; }
    assert Crossings(s, [l3, l4, l5]) == [Cross(s, 1, 0), Cross(s, 1, 1), Cross(s, 2, 0)] by {
      assert [l3, l4, l5][1..] == [l4, l5];
    }
    assert Crossings(s, [l2, l3, l4, l5]) == [Cross(s, 0, 2), Cross(s, 1, 0), Cross(s, 1, 1), Cross(s, 2, 0)] by {
      assert [l2, l3, l4, l5][1..] == [l3, l4, l5];
    }
    assert ls[1..] == [l2, l3, l4, l5];
  }

  /** The third assertion: where the cannibals can dine there are no successors, under either guard. */
  lemma SuccessorsTest3()
    ensures Successors(State(1, 4, 1, 2, 2, 0)) == []
    ensures SuccessorsWithMissionary(State(1, 4, 1, 2, 2, 0)) == []
  {
  }

  /** Where no cannibal outnumbers a missionary, a boat with someone beside it always has a
      crossing; so the empty dict is returned exactly in the dining states. */
  lemma SuccessorsEmptyIff(s: State)
    requires s.m1 >= 0 && s.c1 >= 0 && s.m2 >= 0 && s.c2 >= 0
    requires if s.b1 != 0 then s.m1 + s.c1 >= 1 else s.m2 + s.c2 >= 1
    ensures Successors(s) == [] <==> Dining(s)
    ensures SuccessorsWithMissionary(s) == [] <==> DiningWithMissionary(s)
  {
    if !Dining(s) || !DiningWithMissionary(s) {
      MovesInOrder(s);
      assert Crossings(s, Loads()) != [] by {
        var l := if s.b1 != 0 then (if s.c1 >= 1 then (0, 1) else (1, 0)) else (if s.c2 >= 1 then (0, 1) else (1, 0));
        CrossingsComplete(s, Loads(), l);
      }
    }
  }

  /** Every load that fits on the boat's side gives an entry. */
  lemma {:induction false} CrossingsComplete(s: State, loads: seq<(nat, nat)>, l: (nat, nat))
    requires l in loads
    requires Fits(s, l.0, l.1)
    ensures Cross(s, l.0, l.1) in Crossings(s, loads)
  {
    if loads[0] != l {
      CrossingsComplete(s, loads[1..], l);
    }
  }

  /** `(0, 0, 0) + start[:3]`: everybody and the boat on the other side. */
  function DefaultGoal(start: State): (g: State)
    ensures g.m1 == 0 && g.c1 == 0 && g.b1 == 0
    ensures g.m2 == start.m1 && g.c2 == start.c1 && g.b2 == start.b1
  {
    State(0, 0, 0, start.m1, start.c1, start.b1)
  }

  function Min(a: int, b: int): int {
    if a <= b then a else b
  }

  /** A finite set of states that holds the start and is closed under crossings: the totals
      stay those of the start, no count falls below the least count of the start (or 0), and the
      boat bits are 0 and 1 or 1 and 0. */
  ghost function Box(start: State): set<State> {
    var lo, tm, tc := Floor(start), start.m1 + start.m2, start.c1 + start.c2;
    {start} + set m1: int, c1: int, b1: int | lo <= m1 <= tm - lo && lo <= c1 <= tc - lo && 0 <= b1 <= 1
      :: WithTotals(start, m1, c1, b1)
  }

  /** The least count of the start, or 0. */
  function Floor(start: State): int {
    Min(0, Min(Min(start.m1, start.m2), Min(start.c1, start.c2)))
  }

  /** The state with m1, c1 and b1 on the start side and the rest of the start's people, and the
      other boat bit, on the other side. */
  function WithTotals(start: State, m1: int, c1: int, b1: int): State {
    State(m1, c1, b1, start.m1 + start.m2 - m1, start.c1 + start.c2 - c1, 1 - b1)
  }

  /** Counts no lower than the floor and the start's totals. */
  predicate Bounded(start: State, s: State) {
    && s.m1 >= Floor(start) && s.m2 >= Floor(start) && s.c1 >= Floor(start) && s.c2 >= Floor(start)
    && s.m1 + s.m2 == start.m1 + start.m2 && s.c1 + s.c2 == start.c1 + start.c2
  }

  lemma BoxBounded(start: State, s: State)
    requires s in Box(start)
    ensures Bounded(start, s)
  {
  }

  lemma BoundedInBox(start: State, t: State)
    requires Bounded(start, t) && 0 <= t.b1 <= 1 && t.b2 == 1 - t.b1
    ensures t in Box(start)
  {
    assert t == WithTotals(start, t.m1, t.c1, t.b1);
  }

  lemma MovesStayInBox(start: State, s: State, e: (State, string))
    requires s in Box(start) && e in Moves(s)
    ensures e.0 in Box(start)
  {
    MovesAreCrossings(s);
    BoxBounded(start, s);
    var i :| 0 <= i < |Loads()| && CrossingOf(s, Loads()[i], e.0, e.1);
    assert Bounded(start, e.0);
    BoundedInBox(start, e.0);
  }

  lemma BoxClosed(start: State)
    ensures start in Box(start)
    ensures Closed(Box(start), Successors) && Closed(Box(start), SuccessorsWithMissionary)
  {
    forall s, k | s in Box(start) && 0 <= k < |Successors(s)| ensures Successors(s)[k].0 in Box(start) {
      MovesStayInBox(start, s, Successors(s)[k]);
    }
    forall s, k | s in Box(start) && 0 <= k < |SuccessorsWithMissionary(s)|
      ensures SuccessorsWithMissionary(s)[k].0 in Box(start)
    {
      MovesStayInBox(start, s, SuccessorsWithMissionary(s)[k]);
    }
  }

  /** What `mc_problem` returns: a path, or the empty dict `{}` on failure. */
  datatype Answer = Found(path: Path<State, string>) | EmptyDict

  /** `mc_problem(start, goal)`: breadth-first search from start to the goal, by default
      everybody on the other side. The generated states are printed in the source. */
  method McProblem(start: State, goal: Option<State>) returns (r: Answer)
    ensures var g := if goal.None? then DefaultGoal(start) else goal.value;
      && (start == g ==> r == Found([St(start)]))
      && (r.Found? ==> ValidPath(r.path, start, Successors) && LastState(r.path) == g)
      && (r.Found? ==> forall q :: ValidPath(q, start, Successors) && LastState(q) == g ==> Steps(r.path) <= Steps(q))
      && (r.EmptyDict? ==> forall q :: ValidPath(q, start, Successors) ==> LastState(q) != g)
  {
    var g := if goal.None? then DefaultGoal(start) else goal.value;
    if start == g {
      return Found([St(start)]);
    }
    BoxClosed(start);
    var p := ShortestPathSearch(start, Successors, s => s == g, Box(start));
    if p == [] {
      r := EmptyDict;
    } else {
      r := Found(p);
    }
  }

  /** `goal_fn`: nobody and no boat left on the start side. */
  predicate AllAcross(s: State) {
    s.m1 == 0 && s.c1 == 0 && s.b1 == 0
  }

  /** `mc_problem2(start)` with no goal: `shortest_path_search` with the shortest-path file's
      `csuccessors`; `[]` when no state with nobody on the start side is reachable. */
  method McProblem2(start: State) returns (path: Path<State, string>)
    ensures AllAcross(start) ==> path == [St(start)]
    ensures path != [] ==> ValidPath(path, start, SuccessorsWithMissionary) && AllAcross(LastState(path))
    ensures path != [] ==>
      forall q :: ValidPath(q, start, SuccessorsWithMissionary) && AllAcross(LastState(q)) ==> Steps(path) <= Steps(q)
    ensures path == [] ==> forall q :: ValidPath(q, start, SuccessorsWithMissionary) ==> !AllAcross(LastState(q))
  {
    BoxClosed(start);
    path := ShortestPathSearch(start, SuccessorsWithMissionary, AllAcross, Box(start));
  }
}
