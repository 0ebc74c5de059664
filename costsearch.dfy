/** The uniform-cost search of `lowest_cost_search`: the frontier is popped from the front,
    a popped state is tested for the goal and then marked explored, and each unexplored
    successor goes through `add_to_frontier`. With `resort` the frontier is kept sorted by path
    cost, which makes the answer a cheapest one; without it (the bridge file's faster variant)
    the answer is still a valid goal path, and the search is still complete. */
module CostSearch {
  import opened Paths
  import opened CostPaths
  import opened Sorting
  import opened Frontiers

  ghost predicate CostGoalPath<S, A>(p: CostPath<S, A>, start: S, succ: S -> seq<(S, A)>, isGoal: S -> bool, cost: A -> nat) {
    ValidCostPath(p, start, succ, cost) && isGoal(LastState(p))
  }

  /** No valid cost path to u costs less than d. */
  ghost predicate Optimal<S(!new), A(!new)>(start: S, succ: S -> seq<(S, A)>, cost: A -> nat, u: S, d: nat) {
    forall q :: ValidCostPath(q, start, succ, cost) && LastState(q) == u ==> d <= PathCost(q)
  }

  /** Explored states are known to `dist`, inside the universe; before the first pop the
      frontier is `[[start]]` and nothing is explored, afterwards the start is explored. */
  ghost predicate Bookkeeping<S, A>(start: S, universe: set<S>, explored: set<S>, frontier: seq<CostPath<S, A>>,
      dist: map<S, nat>) {
    && start in universe && explored <= universe && dist.Keys == explored
    && (start in explored || (explored == {} && frontier == [[St(start)]]))
  }

  /** Frontier paths are valid, end outside the explored set and inside the universe, end in
      different states, and are sorted by cost when the search re-sorts. */
  ghost predicate FrontierOk<S, A>(start: S, succ: S -> seq<(S, A)>, cost: A -> nat, universe: set<S>, resort: bool,
      explored: set<S>, frontier: seq<CostPath<S, A>>) {
    && AllWellFormed(frontier)
    && (forall i :: 0 <= i < |frontier| ==>
          ValidCostPath(frontier[i], start, succ, cost) && LastState(frontier[i]) in universe
          && LastState(frontier[i]) !in explored)
    && DistinctEnds(frontier)
    && (resort ==> SortedBy(frontier, PathCost))
  }

  /** No explored state is a goal; with a sorted frontier, `dist` holds each explored state's
      least cost. */
  ghost predicate ExploredOk<S(!new), A(!new)>(start: S, succ: S -> seq<(S, A)>, isGoal: S -> bool, cost: A -> nat, resort: bool,
      explored: set<S>, dist: map<S, nat>) {
    forall u :: u in explored ==> u in dist && !isGoal(u) && (resort ==> Optimal(start, succ, cost, u, dist[u]))
  }

  /** Every step from an explored state u to an unexplored state t is matched by a frontier path
      to t that costs no more than `dist[u]` plus the step; for the `busy` state only its first
      j successors are matched yet. */
  ghost predicate Fringe<S, A>(succ: S -> seq<(S, A)>, cost: A -> nat, explored: set<S>, frontier: seq<CostPath<S, A>>,
      dist: map<S, nat>, busy: set<S>, j: nat)
    requires AllWellFormed(frontier)
  {
    forall u, k :: u in explored && 0 <= k < |succ(u)| && (u !in busy || k < j) && succ(u)[k].0 !in explored ==>
      u in dist && Reaches(frontier, succ(u)[k].0, dist[u] + cost(succ(u)[k].1))
  }

  ghost predicate SearchInv<S(!new), A(!new)>(start: S, succ: S -> seq<(S, A)>, isGoal: S -> bool, cost: A -> nat,
      universe: set<S>, resort: bool, explored: set<S>, frontier: seq<CostPath<S, A>>, dist: map<S, nat>) {
    && Bookkeeping(start, universe, explored, frontier, dist)
    && FrontierOk(start, succ, cost, universe, resort, explored, frontier)
    && ExploredOk(start, succ, isGoal, cost, resort, explored, dist)
    && Fringe(succ, cost, explored, frontier, dist, {}, 0)
  }

  /** A path from an explored start to an unexplored state leaves the explored set somewhere. */
  lemma {:induction false} Exit<S, A>(q: CostPath<S, A>, explored: set<S>, n: nat) returns (i: nat)
    requires WellFormed(q) && n <= Steps(q)
    requires StateAt(q, 0) in explored && StateAt(q, n) !in explored
    ensures 0 < i <= n && StateAt(q, i - 1) in explored && StateAt(q, i) !in explored
  {
    if StateAt(q, n - 1) in explored {
      i := n;
    } else {
      i := Exit(q, explored, n - 1);
    }
  }

  /** A valid path to an unexplored state crosses the fringe, so the frontier holds a path
      to the state where it crosses; with a sorted frontier that path costs no more than q. */
  lemma Crossing<S(!new), A(!new)>(start: S, succ: S -> seq<(S, A)>, cost: A -> nat, resort: bool,
      explored: set<S>, frontier: seq<CostPath<S, A>>, dist: map<S, nat>, q: CostPath<S, A>) returns (j: nat)
    requires start in explored && AllWellFormed(frontier)
    requires forall u :: u in explored ==> u in dist && (resort ==> Optimal(start, succ, cost, u, dist[u]))
    requires Fringe(succ, cost, explored, frontier, dist, {}, 0)
    requires ValidCostPath(q, start, succ, cost) && LastState(q) !in explored
    ensures j < |frontier| && (resort ==> PathCost(frontier[j]) <= PathCost(q))
  {
    var i := Exit(q, explored, Steps(q));
    var u, t, a := StateAt(q, i - 1), StateAt(q, i), ActionAt(q, i - 1).0;
    assert CostStep(q, succ, cost, i - 1);
    var m :| 0 <= m < |succ(u)| && succ(u)[m] == (t, a);
    assert Reaches(frontier, t, dist[u] + cost(a));
    j :| 0 <= j < |frontier| && LastState(frontier[j]) == t && PathCost(frontier[j]) <= dist[u] + cost(a);
    if resort {
      CostPrefix(q, start, succ, cost, i - 1);
      TotalMonotone(q, start, succ, cost, i, Steps(q));
      PathCostIsLastTotal(q);
    }
  }

  /** With the frontier empty and the start explored, every reachable state is explored, so
      no goal is reachable. */
  lemma NoGoalLeft<S(!new), A(!new)>(start: S, succ: S -> seq<(S, A)>, isGoal: S -> bool, cost: A -> nat,
      universe: set<S>, resort: bool, explored: set<S>, dist: map<S, nat>)
    requires SearchInv(start, succ, isGoal, cost, universe, resort, explored, [], dist)
    ensures forall q :: ValidCostPath(q, start, succ, cost) ==> !isGoal(LastState(q))
  {
    forall q | ValidCostPath(q, start, succ, cost) ensures LastState(q) in explored {
      if LastState(q) !in explored {
        var j := Crossing(start, succ, cost, resort, explored, [], dist, q);
        assert false;
      }
    }
  }

  lemma SearchInit<S(!new), A(!new)>(start: S, succ: S -> seq<(S, A)>, isGoal: S -> bool, cost: A -> nat,
      universe: set<S>, resort: bool)
    requires start in universe
    ensures SearchInv(start, succ, isGoal, cost, universe, resort, {}, [[St(start)]], map[])
  {
    assert ValidCostPath([St(start)], start, succ, cost);
  }

  /** The head path of the frontier is valid, ends in an unexplored state of the universe, and,
      with a sorted frontier, costs no more than any valid path to an unexplored state. */
  lemma SearchPop<S(!new), A(!new)>(start: S, succ: S -> seq<(S, A)>, isGoal: S -> bool, cost: A -> nat,
      universe: set<S>, resort: bool, explored: set<S>, frontier: seq<CostPath<S, A>>, dist: map<S, nat>)
    requires SearchInv(start, succ, isGoal, cost, universe, resort, explored, frontier, dist) && frontier != []
    ensures var p := frontier[0];
      && ValidCostPath(p, start, succ, cost) && LastState(p) in universe && LastState(p) !in explored
      && (isGoal(start) ==> p == [St(start)])
      && (resort ==> forall q :: ValidCostPath(q, start, succ, cost) && LastState(q) !in explored ==> PathCost(p) <= PathCost(q))
  {
    var p := frontier[0];
    if resort {
      forall q | ValidCostPath(q, start, succ, cost) && LastState(q) !in explored ensures PathCost(p) <= PathCost(q) {
        if start in explored {
          var j := Crossing(start, succ, cost, resort, explored, frontier, dist, q);
        } else {
          assert p == [St(start)];
        }
      }
    }
  }

  /** A goal popped from a sorted frontier ends a cheapest goal path. */
  lemma GoalPop<S(!new), A(!new)>(start: S, succ: S -> seq<(S, A)>, isGoal: S -> bool, cost: A -> nat,
      universe: set<S>, explored: set<S>, frontier: seq<CostPath<S, A>>, dist: map<S, nat>)
    requires SearchInv(start, succ, isGoal, cost, universe, true, explored, frontier, dist) && frontier != []
    ensures forall q :: CostGoalPath(q, start, succ, isGoal, cost) ==> PathCost(frontier[0]) <= PathCost(q)
  {
    SearchPop(start, succ, isGoal, cost, universe, true, explored, frontier, dist);
  }

  /** The invariant of the inner loop while the successors of p's last state are generated. */
  ghost predicate ExpandInv<S(!new), A(!new)>(start: S, succ: S -> seq<(S, A)>, isGoal: S -> bool, cost: A -> nat,
      universe: set<S>, resort: bool, p: CostPath<S, A>, j: nat,
      explored: set<S>, frontier: seq<CostPath<S, A>>, dist: map<S, nat>) {
    && ValidCostPath(p, start, succ, cost)
    && LastState(p) in explored && LastState(p) in dist && dist[LastState(p)] == PathCost(p)
    && start in explored
    && Bookkeeping(start, universe, explored, frontier, dist)
    && FrontierOk(start, succ, cost, universe, resort, explored, frontier)
    && ExploredOk(start, succ, isGoal, cost, resort, explored, dist)
    && Fringe(succ, cost, explored, frontier, dist, {LastState(p)}, j)
    && j <= |succ(LastState(p))|
  }

  lemma PopFrontier<S, A>(start: S, succ: S -> seq<(S, A)>, cost: A -> nat, universe: set<S>, resort: bool,
      explored: set<S>, frontier: seq<CostPath<S, A>>)
    requires FrontierOk(start, succ, cost, universe, resort, explored, frontier) && frontier != []
    ensures FrontierOk(start, succ, cost, universe, resort, explored + {LastState(frontier[0])}, frontier[1..])
  {
    var f := frontier[1..];
    forall i | 0 <= i < |f| ensures LastState(f[i]) != LastState(frontier[0]) {
      assert f[i] == frontier[i + 1];
    }
  }

  lemma PopFringe<S, A>(succ: S -> seq<(S, A)>, cost: A -> nat, explored: set<S>, frontier: seq<CostPath<S, A>>,
      dist: map<S, nat>, d: nat)
    requires AllWellFormed(frontier) && frontier != []
    requires Fringe(succ, cost, explored, frontier, dist, {}, 0)
    requires LastState(frontier[0]) !in explored
    ensures var v := LastState(frontier[0]);
      Fringe(succ, cost, explored + {v}, frontier[1..], dist[v := d], {v}, 0)
  {
    var v := LastState(frontier[0]);
    var f := frontier[1..];
    forall u, k | u in explored + {v} && 0 <= k < |succ(u)| && (u !in {v} || k < 0) && succ(u)[k].0 !in explored + {v}
      ensures u in dist[v := d] && Reaches(f, succ(u)[k].0, dist[v := d][u] + cost(succ(u)[k].1))
    {
      var t := succ(u)[k].0;
      var c := dist[u] + cost(succ(u)[k].1);
      var j :| 0 <= j < |frontier| && LastState(frontier[j]) == t && PathCost(frontier[j]) <= c;
      assert f[j - 1] == frontier[j];
    }
  }

  /** Popping a non-goal path p and marking its end v explored at cost `path_cost(p)` sets up
      the inner loop. */
  lemma SearchExplore<S(!new), A(!new)>(start: S, succ: S -> seq<(S, A)>, isGoal: S -> bool, cost: A -> nat,
      universe: set<S>, resort: bool, explored: set<S>, frontier: seq<CostPath<S, A>>, dist: map<S, nat>)
    requires SearchInv(start, succ, isGoal, cost, universe, resort, explored, frontier, dist) && frontier != []
    requires !isGoal(LastState(frontier[0]))
    ensures var p := frontier[0]; var v := LastState(p);
      ExpandInv(start, succ, isGoal, cost, universe, resort, p, 0, explored + {v}, frontier[1..], dist[v := PathCost(p)])
  {
    var p := frontier[0];
    var v := LastState(p);
    SearchPop(start, succ, isGoal, cost, universe, resort, explored, frontier, dist);
    PopFrontier(start, succ, cost, universe, resort, explored, frontier);
    PopFringe(succ, cost, explored, frontier, dist, PathCost(p));
    assert start in explored + {v};
    assert ExploredOk(start, succ, isGoal, cost, resort, explored + {v}, dist[v := PathCost(p)]);
  }

  /** What both versions of `add_to_frontier` do, as far as the search needs it. */
  lemma AddKeeps<S(!new), A(!new)>(start: S, succ: S -> seq<(S, A)>, cost: A -> nat, universe: set<S>, resort: bool,
      explored: set<S>, frontier: seq<CostPath<S, A>>, dist: map<S, nat>, v: S, j: nat,
      p2: CostPath<S, A>, r: seq<CostPath<S, A>>)
    requires FrontierOk(start, succ, cost, universe, resort, explored, frontier)
    requires Fringe(succ, cost, explored, frontier, dist, {v}, j)
    requires v in explored && v in dist && j < |succ(v)|
    requires ValidCostPath(p2, start, succ, cost) && LastState(p2) in universe && LastState(p2) !in explored
    requires LastState(p2) == succ(v)[j].0 && PathCost(p2) == dist[v] + cost(succ(v)[j].1)
    requires AllWellFormed(r) && DistinctEnds(r) && (resort ==> SortedBy(r, PathCost))
    requires forall x :: x in r ==> x in frontier || x == p2
    requires forall k :: 0 <= k < |frontier| && LastState(frontier[k]) != LastState(p2) ==> frontier[k] in r
    requires (forall k :: 0 <= k < |frontier| && LastState(frontier[k]) == LastState(p2) ==> PathCost(p2) <= PathCost(frontier[k])) ==> p2 in r
    requires (exists k :: 0 <= k < |frontier| && LastState(frontier[k]) == LastState(p2) && PathCost(frontier[k]) < PathCost(p2)) ==> r == frontier
    ensures FrontierOk(start, succ, cost, universe, resort, explored, r)
    ensures Fringe(succ, cost, explored, r, dist, {v}, j + 1)
  {
    AddedReaches(frontier, p2, r);
    forall i | 0 <= i < |r|
      ensures ValidCostPath(r[i], start, succ, cost) && LastState(r[i]) in universe && LastState(r[i]) !in explored
    {
      assert r[i] in r;
      if r[i] != p2 {
        var m :| 0 <= m < |frontier| && frontier[m] == r[i];
      }
    }
  }

  /** One call of `add_to_frontier` whose result r meets what both versions promise moves the
      inner loop on by one successor. */
  lemma AddStep<S(!new), A(!new)>(start: S, succ: S -> seq<(S, A)>, isGoal: S -> bool, cost: A -> nat,
      universe: set<S>, resort: bool, p: CostPath<S, A>, j: nat,
      explored: set<S>, frontier: seq<CostPath<S, A>>, dist: map<S, nat>, p2: CostPath<S, A>, r: seq<CostPath<S, A>>)
    requires ExpandInv(start, succ, isGoal, cost, universe, resort, p, j, explored, frontier, dist)
    requires j < |succ(LastState(p))|
    requires ValidCostPath(p2, start, succ, cost) && LastState(p2) in universe && LastState(p2) !in explored
    requires LastState(p2) == succ(LastState(p))[j].0 && PathCost(p2) == PathCost(p) + cost(succ(LastState(p))[j].1)
    requires AllWellFormed(r) && DistinctEnds(r) && (resort ==> SortedBy(r, PathCost))
    requires forall x :: x in r ==> x in frontier || x == p2
    requires forall k :: 0 <= k < |frontier| && LastState(frontier[k]) != LastState(p2) ==> frontier[k] in r
    requires (forall k :: 0 <= k < |frontier| && LastState(frontier[k]) == LastState(p2) ==> PathCost(p2) <= PathCost(frontier[k])) ==> p2 in r
    requires (exists k :: 0 <= k < |frontier| && LastState(frontier[k]) == LastState(p2) && PathCost(frontier[k]) < PathCost(p2)) ==> r == frontier
    ensures ExpandInv(start, succ, isGoal, cost, universe, resort, p, j + 1, explored, r, dist)
  {
    AddKeeps(start, succ, cost, universe, resort, explored, frontier, dist, LastState(p), j, p2, r);
  }

  /** The new path p + [(a, path_cost(p) + cost(a)), t] for the j-th successor (t, a). */
  lemma NewPath<S(!new), A(!new)>(start: S, succ: S -> seq<(S, A)>, isGoal: S -> bool, cost: A -> nat,
      universe: set<S>, resort: bool, p: CostPath<S, A>, j: nat,
      explored: set<S>, frontier: seq<CostPath<S, A>>, dist: map<S, nat>)
    requires Closed(universe, succ)
    requires ExpandInv(start, succ, isGoal, cost, universe, resort, p, j, explored, frontier, dist)
    requires j < |succ(LastState(p))|
    ensures var e := succ(LastState(p))[j];
      var p2 := Extended(p, e.1, e.0, cost);
      && ValidCostPath(p2, start, succ, cost) && LastState(p2) == e.0 && e.0 in universe
      && PathCost(p2) == PathCost(p) + cost(e.1)
  {
    var e := succ(LastState(p))[j];
    assert e in succ(LastState(p));
    CostExtend(p, start, succ, cost, e.1, e.0);
  }

  /** Handing p + [(a, total), t] to the sorted `add_to_frontier` for an unexplored successor t. */
  lemma ExpandAdd<S(!new), A(!new)>(start: S, succ: S -> seq<(S, A)>, isGoal: S -> bool, cost: A -> nat,
      universe: set<S>, p: CostPath<S, A>, j: nat,
      explored: set<S>, frontier: seq<CostPath<S, A>>, dist: map<S, nat>)
    requires Closed(universe, succ)
    requires ExpandInv(start, succ, isGoal, cost, universe, true, p, j, explored, frontier, dist)
    requires j < |succ(LastState(p))| && succ(LastState(p))[j].0 !in explored
    ensures var e := succ(LastState(p))[j];
      var p2 := Extended(p, e.1, e.0, cost);
      && WellFormed(p2)
      && ExpandInv(start, succ, isGoal, cost, universe, true, p, j + 1, explored, Added(frontier, p2), dist)
  {
    var e := succ(LastState(p))[j];
    var p2 := Extended(p, e.1, e.0, cost);
    NewPath(start, succ, isGoal, cost, universe, true, p, j, explored, frontier, dist);
    AddedSpec(frontier, p2);
    AddStep(start, succ, isGoal, cost, universe, true, p, j, explored, frontier, dist, p2, Added(frontier, p2));
  }

  /** The same with the bridge file's `add_to_frontier`, which does not re-sort. */
  lemma ExpandAddUnsorted<S(!new), A(!new)>(start: S, succ: S -> seq<(S, A)>, isGoal: S -> bool, cost: A -> nat,
      universe: set<S>, p: CostPath<S, A>, j: nat,
      explored: set<S>, frontier: seq<CostPath<S, A>>, dist: map<S, nat>)
    requires Closed(universe, succ)
    requires ExpandInv(start, succ, isGoal, cost, universe, false, p, j, explored, frontier, dist)
    requires j < |succ(LastState(p))| && succ(LastState(p))[j].0 !in explored
    ensures var e := succ(LastState(p))[j];
      var p2 := Extended(p, e.1, e.0, cost);
      && WellFormed(p2)
      && ExpandInv(start, succ, isGoal, cost, universe, false, p, j + 1, explored, AddedUnsorted(frontier, p2), dist)
  {
    var e := succ(LastState(p))[j];
    var p2 := Extended(p, e.1, e.0, cost);
    NewPath(start, succ, isGoal, cost, universe, false, p, j, explored, frontier, dist);
    AddedUnsortedSpec(frontier, p2);
    AddStep(start, succ, isGoal, cost, universe, false, p, j, explored, frontier, dist, p2, AddedUnsorted(frontier, p2));
  }

  lemma ExpandSkip<S(!new), A(!new)>(start: S, succ: S -> seq<(S, A)>, isGoal: S -> bool, cost: A -> nat,
      universe: set<S>, resort: bool, p: CostPath<S, A>, j: nat,
      explored: set<S>, frontier: seq<CostPath<S, A>>, dist: map<S, nat>)
    requires ExpandInv(start, succ, isGoal, cost, universe, resort, p, j, explored, frontier, dist)
    requires j < |succ(LastState(p))| && succ(LastState(p))[j].0 in explored
    ensures ExpandInv(start, succ, isGoal, cost, universe, resort, p, j + 1, explored, frontier, dist)
  {
  }

  lemma ExpandDone<S(!new), A(!new)>(start: S, succ: S -> seq<(S, A)>, isGoal: S -> bool, cost: A -> nat,
      universe: set<S>, resort: bool, p: CostPath<S, A>,
      explored: set<S>, frontier: seq<CostPath<S, A>>, dist: map<S, nat>)
    requires WellFormed(p)
    requires ExpandInv(start, succ, isGoal, cost, universe, resort, p, |succ(LastState(p))|, explored, frontier, dist)
    ensures SearchInv(start, succ, isGoal, cost, universe, resort, explored, frontier, dist)
  {
  }

  /** The inner loop: `for (state, action) in successors(state1).items()`, handing each
      unexplored successor, with its total cost, to `add_to_frontier`. */
  method Expand<S(==, !new), A(!new)>(start: S, successors: S -> seq<(S, A)>, isGoal: S -> bool, cost: A -> nat,
      ghost universe: set<S>, resort: bool, p: CostPath<S, A>, explored: set<S>, frontier: Frontier<S, A>,
      ghost dist: map<S, nat>)
    requires Closed(universe, successors)
    requires ExpandInv(start, successors, isGoal, cost, universe, resort, p, 0, explored, frontier.paths, dist)
    modifies frontier
    ensures SearchInv(start, successors, isGoal, cost, universe, resort, explored, frontier.paths, dist)
  {
    var pcost := PathCost(p);
    var succs := successors(LastState(p));
    for j := 0 to |succs|
      invariant ExpandInv(start, successors, isGoal, cost, universe, resort, p, j, explored, frontier.paths, dist)
    {
      var t, a := succs[j].0, succs[j].1;
      if t !in explored {
        var totalCost := pcost + cost(a);
        var path2 := p + [Act((a, totalCost)), St(t)];
        assert path2 == Extended(p, a, t, cost);
        if resort {
          ExpandAdd(start, successors, isGoal, cost, universe, p, j, explored, frontier.paths, dist);
          frontier.AddToFrontier(path2);
        } else {
          ExpandAddUnsorted(start, successors, isGoal, cost, universe, p, j, explored, frontier.paths, dist);
          frontier.AddToFrontierUnsorted(path2);
        }
      } else {
        ExpandSkip(start, successors, isGoal, cost, universe, resort, p, j, explored, frontier.paths, dist);
      }
    }
    ExpandDone(start, successors, isGoal, cost, universe, resort, p, explored, frontier.paths, dist);
  }

  /** The search loop shared by `lowest_cost_search` (resort) and `bridge_problem2` (no
      resort). The ghost `universe` holds the start and every successor of its members; it only
      bounds the search. `[]` is `Fail`. */
  method CostSearchLoop<S(==, !new), A(!new)>(start: S, successors: S -> seq<(S, A)>, isGoal: S -> bool, cost: A -> nat,
      resort: bool, ghost universe: set<S>) returns (path: CostPath<S, A>)
    requires start in universe && Closed(universe, successors)
    ensures isGoal(start) ==> path == [St(start)]
    ensures path != [] ==> CostGoalPath(path, start, successors, isGoal, cost)
    ensures resort && path != [] ==>
      forall q :: CostGoalPath(q, start, successors, isGoal, cost) ==> PathCost(path) <= PathCost(q)
    ensures path == [] ==> forall q :: ValidCostPath(q, start, successors, cost) ==> !isGoal(LastState(q))
  {
    var explored: set<S> := {};
    var frontier := new Frontier(start);
    ghost var dist: map<S, nat> := map[];
    SearchInit(start, successors, isGoal, cost, universe, resort);
    while frontier.paths != []
      invariant SearchInv(start, successors, isGoal, cost, universe, resort, explored, frontier.paths, dist)
      decreases universe - explored
    {
      ghost var f := frontier.paths;
      SearchPop(start, successors, isGoal, cost, universe, resort, explored, f, dist);
      var p := frontier.Pop();
      var state1 := LastState(p);
      if isGoal(state1) {
        if resort {
          GoalPop(start, successors, isGoal, cost, universe, explored, f, dist);
        }
        return p;
      }
      SearchExplore(start, successors, isGoal, cost, universe, resort, explored, f, dist);
      explored := explored + {state1};
      dist := dist[state1 := PathCost(p)];
      Expand(start, successors, isGoal, cost, universe, resort, p, explored, frontier, dist);
    }
    NoGoalLeft(start, successors, isGoal, cost, universe, resort, explored, dist);
    return [];
  }

  /** `lowest_cost_search(start, successors, is_goal, action_cost)`: `[start]` when the start is
      a goal, otherwise a cheapest path to a goal, whose last action carries its total cost, or
      `Fail`, the empty list, when no goal is reachable. */
  method LowestCostSearch<S(==, !new), A(!new)>(start: S, successors: S -> seq<(S, A)>, isGoal: S -> bool,
      actionCost: A -> nat, ghost universe: set<S>) returns (path: CostPath<S, A>)
    requires start in universe && Closed(universe, successors)
    ensures isGoal(start) ==> path == [St(start)]
    ensures path != [] ==> CostGoalPath(path, start, successors, isGoal, actionCost)
    ensures path != [] ==>
      forall q :: CostGoalPath(q, start, successors, isGoal, actionCost) ==> PathCost(path) <= PathCost(q)
    ensures path == [] ==> forall q :: ValidCostPath(q, start, successors, actionCost) ==> !isGoal(LastState(q))
  {
    if isGoal(start) {
      assert ValidCostPath([St(start)], start, successors, actionCost);
      return [St(start)];
    }
    path := CostSearchLoop(start, successors, isGoal, actionCost, true, universe);
  }
}
