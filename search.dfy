/** Breadth-first `shortest_path_search`: a FIFO frontier of paths and an explored set,
    states marked explored when generated and tested for the goal when generated. */
module ShortestPath {
  import opened Paths

  /** What a search of the state space promises about a non-empty answer. */
  ghost predicate GoalPath<S, A>(p: Path<S, A>, start: S, succ: S -> seq<(S, A)>, isGoal: S -> bool) {
    ValidPath(p, start, succ) && isGoal(LastState(p))
  }

  /** Every expanded state's successors are explored, at depth at most one more. */
  ghost predicate Expanded<S(!new), A>(succ: S -> seq<(S, A)>, expanded: set<S>, explored: set<S>, depth: map<S, nat>) {
    && (forall s :: s in expanded ==> s in depth)
    && forall s, k :: s in expanded && 0 <= k < |succ(s)| ==>
         succ(s)[k].0 in explored && succ(s)[k].0 in depth && depth[succ(s)[k].0] <= depth[s] + 1
  }

  /** Walking a valid path from `start` through expanded states stays inside `depth`, with depths
      bounded by the position; the walk stops at the first state that is not expanded. */
  lemma {:induction false} Walk<S(!new), A>(q: Path<S, A>, start: S, succ: S -> seq<(S, A)>,
      expanded: set<S>, explored: set<S>, depth: map<S, nat>) returns (i: nat)
    requires ValidPath(q, start, succ)
    requires start in depth && depth[start] == 0
    requires Expanded(succ, expanded, explored, depth)
    ensures i <= Steps(q) && StateAt(q, i) in depth && depth[StateAt(q, i)] <= i
    ensures i < Steps(q) ==> StateAt(q, i) !in expanded
  {
    if Steps(q) == 0 {
      i := 0;
    } else {
      var q' := q[..|q| - 2];
      Prefix(q, start, succ);
      var i' := Walk(q', start, succ, expanded, explored, depth);
      assert StateAt(q, i') == StateAt(q', i');
      if i' < Steps(q') || StateAt(q', i') !in expanded {
        i := i';
      } else {
        var u := LastState(q');
        var m :| 0 <= m < |succ(u)| && succ(u)[m] == (LastState(q), ActionAt(q, Steps(q) - 1));
        i := Steps(q);
      }
    }
  }

  /** When every explored state is outside the goal and every explored, unexpanded state lies
      at depth at least d, no goal is reachable in d steps or fewer. */
  lemma NoShortGoal<S(!new), A>(start: S, succ: S -> seq<(S, A)>, isGoal: S -> bool,
      expanded: set<S>, explored: set<S>, depth: map<S, nat>, d: nat)
    requires start in depth && depth[start] == 0
    requires Expanded(succ, expanded, explored, depth)
    requires forall u :: u in depth ==> !isGoal(u)
    requires forall u :: u in depth && u !in expanded ==> depth[u] >= d
    ensures forall q :: GoalPath(q, start, succ, isGoal) ==> Steps(q) > d
  {
    forall q | GoalPath(q, start, succ, isGoal) ensures Steps(q) > d {
      var i := Walk(q, start, succ, expanded, explored, depth);
    }
  }

  /** When every explored state is expanded and none is a goal, no goal is reachable. */
  lemma NoGoal<S(!new), A>(start: S, succ: S -> seq<(S, A)>, isGoal: S -> bool,
      expanded: set<S>, explored: set<S>, depth: map<S, nat>)
    requires start in depth && depth[start] == 0
    requires Expanded(succ, expanded, explored, depth)
    requires forall u :: u in depth ==> !isGoal(u) && u in expanded
    ensures forall q :: ValidPath(q, start, succ) ==> !isGoal(LastState(q))
  {
    forall q | ValidPath(q, start, succ) ensures !isGoal(LastState(q)) {
      var i := Walk(q, start, succ, expanded, explored, depth);
    }
  }

  /** The explored set and the depth map agree, inside the universe. */
  ghost predicate Bookkeeping<S>(start: S, universe: set<S>, explored: set<S>, depth: map<S, nat>) {
    depth.Keys == explored + {start} && depth[start] == 0 && start in universe && explored <= universe
  }

  /** Frontier paths are valid, end in known states, and have `level` or `level + 1` actions,
      shorter ones first. */
  ghost predicate FrontierOk<S, A>(start: S, succ: S -> seq<(S, A)>, frontier: seq<Path<S, A>>,
      depth: map<S, nat>, level: nat) {
    && (forall i :: 0 <= i < |frontier| ==> ValidPath(frontier[i], start, succ) && LastState(frontier[i]) in depth)
    && (forall i :: 0 <= i < |frontier| ==> level <= Steps(frontier[i]) <= level + 1)
    && (forall i, j :: 0 <= i < j < |frontier| ==> Steps(frontier[i]) <= Steps(frontier[j]))
  }

  /** No explored state is a goal; depths are at most `level + 1`, and at most `level` once expanded. */
  ghost predicate DepthOk<S>(isGoal: S -> bool, depth: map<S, nat>, expanded: set<S>, level: nat) {
    && (forall u :: u in depth ==> !isGoal(u) && depth[u] <= level + 1)
    && (forall u :: u in expanded ==> u in depth && depth[u] <= level)
  }

  /** Every explored state that is neither expanded nor `busy` waits at the end of a frontier path
      whose length is its depth. */
  ghost predicate Pending<S, A>(start: S, frontier: seq<Path<S, A>>, expanded: set<S>, busy: set<S>,
      depth: map<S, nat>) {
    && (forall i :: 0 <= i < |frontier| ==> WellFormed(frontier[i]))
    && (start in expanded + busy || (expanded == {} && busy == {} && frontier == [[St(start)]]))
    && (forall u :: u in depth && u !in expanded + busy ==> u in Ends(frontier))
    && (forall i :: 0 <= i < |frontier| && LastState(frontier[i]) in depth && LastState(frontier[i]) !in expanded + busy ==>
          Steps(frontier[i]) == depth[LastState(frontier[i])])
  }

  /** The loop invariant of the search. `busy` holds the state whose successors are being
      generated (empty between two pops); `level` is the number of actions of the last popped path. */
  ghost predicate SearchInv<S(!new), A>(start: S, succ: S -> seq<(S, A)>, isGoal: S -> bool, universe: set<S>,
      explored: set<S>, frontier: seq<Path<S, A>>, expanded: set<S>, busy: set<S>, depth: map<S, nat>, level: nat) {
    && Bookkeeping(start, universe, explored, depth)
    && FrontierOk(start, succ, frontier, depth, level)
    && DepthOk(isGoal, depth, expanded, level)
    && Expanded(succ, expanded, explored, depth)
    && Pending(start, frontier, expanded, busy, depth)
  }

  lemma SearchInit<S(!new), A>(start: S, succ: S -> seq<(S, A)>, isGoal: S -> bool, universe: set<S>)
    requires start in universe && !isGoal(start)
    ensures SearchInv(start, succ, isGoal, universe, {}, [[St(start)]], {}, {}, map[start := 0], 0)
  {
    assert ValidPath([St(start)], start, succ);
    assert Ends<S, A>([[St(start)]]) == [start];
  }

  lemma PopFrontier<S, A>(start: S, succ: S -> seq<(S, A)>, frontier: seq<Path<S, A>>, depth: map<S, nat>, level: nat)
    requires FrontierOk(start, succ, frontier, depth, level) && frontier != []
    ensures level <= Steps(frontier[0]) <= level + 1
    ensures FrontierOk(start, succ, frontier[1..], depth, Steps(frontier[0]))
  {
  }

  lemma PopPending<S, A>(start: S, succ: S -> seq<(S, A)>, frontier: seq<Path<S, A>>, expanded: set<S>,
      depth: map<S, nat>, level: nat)
    requires FrontierOk(start, succ, frontier, depth, level) && frontier != []
    requires Pending(start, frontier, expanded, {}, depth)
    ensures var e := LastState(frontier[0]);
      && Pending(start, frontier[1..], expanded, {e}, depth)
      && (e !in expanded ==> depth[e] == Steps(frontier[0]))
      && forall u :: u in depth && u !in expanded ==> depth[u] >= Steps(frontier[0])
  {
    var p := frontier[0];
    assert Ends(frontier) == [LastState(p)] + Ends(frontier[1..]);
    forall u | u in depth && u !in expanded ensures depth[u] >= Steps(p) {
      var i :| 0 <= i < |frontier| && Ends(frontier)[i] == u;
    }
  }

  /** Popping the head path p: the invariant holds with p's last state busy and `level` raised to
      p's length, and no goal lies closer than one step beyond p. */
  lemma SearchPop<S(!new), A>(start: S, succ: S -> seq<(S, A)>, isGoal: S -> bool, universe: set<S>,
      explored: set<S>, frontier: seq<Path<S, A>>, expanded: set<S>, depth: map<S, nat>, level: nat)
    requires SearchInv(start, succ, isGoal, universe, explored, frontier, expanded, {}, depth, level)
    requires frontier != []
    ensures var p := frontier[0];
      && ValidPath(p, start, succ) && LastState(p) in depth
      && SearchInv(start, succ, isGoal, universe, explored, frontier[1..], expanded, {LastState(p)}, depth, Steps(p))
      && (LastState(p) !in expanded ==> depth[LastState(p)] == Steps(p))
      && forall q :: GoalPath(q, start, succ, isGoal) ==> Steps(q) > Steps(p)
  {
    PopFrontier(start, succ, frontier, depth, level);
    PopPending(start, succ, frontier, expanded, depth, level);
    NoShortGoal(start, succ, isGoal, expanded, explored, depth, Steps(frontier[0]));
  }

  lemma AddFrontier<S, A>(start: S, succ: S -> seq<(S, A)>, frontier: seq<Path<S, A>>, depth: map<S, nat>,
      p: Path<S, A>, a: A, t: S)
    requires ValidPath(p, start, succ) && (t, a) in succ(LastState(p))
    requires FrontierOk(start, succ, frontier, depth, Steps(p))
    ensures var depth' := if t in depth then depth else depth[t := Steps(p) + 1];
      FrontierOk(start, succ, frontier + [p + [Act(a), St(t)]], depth', Steps(p))
  {
    Extend(p, start, succ, a, t);
  }

  lemma AddPending<S, A>(start: S, succ: S -> seq<(S, A)>, frontier: seq<Path<S, A>>, expanded: set<S>,
      depth: map<S, nat>, p: Path<S, A>, a: A, t: S)
    requires ValidPath(p, start, succ) && (t, a) in succ(LastState(p))
    requires Pending(start, frontier, expanded, {LastState(p)}, depth)
    requires forall i :: 0 <= i < |frontier| ==> LastState(frontier[i]) in depth
    requires t in depth ==> t == start
    ensures var depth' := if t in depth then depth else depth[t := Steps(p) + 1];
      Pending(start, frontier + [p + [Act(a), St(t)]], expanded, {LastState(p)}, depth')
  {
    var p2 := p + [Act(a), St(t)];
    Extend(p, start, succ, a, t);
    assert Ends(frontier + [p2]) == Ends(frontier) + [t];
  }

  /** Appending p + [a, t] for a newly explored, non-goal successor t of p's last state. */
  lemma SearchAdd<S(!new), A>(start: S, succ: S -> seq<(S, A)>, isGoal: S -> bool, universe: set<S>,
      explored: set<S>, frontier: seq<Path<S, A>>, expanded: set<S>, depth: map<S, nat>,
      p: Path<S, A>, a: A, t: S)
    requires ValidPath(p, start, succ) && LastState(p) in depth
    requires SearchInv(start, succ, isGoal, universe, explored, frontier, expanded, {LastState(p)}, depth, Steps(p))
    requires (t, a) in succ(LastState(p)) && Closed(universe, succ)
    requires t !in explored && !isGoal(t)
    ensures var depth' := if t in depth then depth else depth[t := Steps(p) + 1];
      && SearchInv(start, succ, isGoal, universe, explored + {t}, frontier + [p + [Act(a), St(t)]],
           expanded, {LastState(p)}, depth', Steps(p))
      && forall u :: u in depth ==> u in depth' && depth'[u] == depth[u]
  {
    var depth' := if t in depth then depth else depth[t := Steps(p) + 1];
    var m :| 0 <= m < |succ(LastState(p))| && succ(LastState(p))[m] == (t, a);
    assert t in universe;
    assert Bookkeeping(start, universe, explored + {t}, depth');
    AddFrontier(start, succ, frontier, depth, p, a, t);
    assert DepthOk(isGoal, depth', expanded, Steps(p));
    assert Expanded(succ, expanded, explored + {t}, depth');
    AddPending(start, succ, frontier, expanded, depth, p, a, t);
  }

  /** Once every successor of the busy state e is explored, e is expanded. */
  lemma SearchFinish<S(!new), A>(start: S, succ: S -> seq<(S, A)>, isGoal: S -> bool, universe: set<S>,
      explored: set<S>, frontier: seq<Path<S, A>>, expanded: set<S>, depth: map<S, nat>, p: Path<S, A>)
    requires ValidPath(p, start, succ)
    requires SearchInv(start, succ, isGoal, universe, explored, frontier, expanded, {LastState(p)}, depth, Steps(p))
    requires LastState(p) in depth
    requires LastState(p) !in expanded ==> depth[LastState(p)] == Steps(p)
    requires forall k :: 0 <= k < |succ(LastState(p))| ==> succ(LastState(p))[k].0 in explored
    ensures SearchInv(start, succ, isGoal, universe, explored, frontier, expanded + {LastState(p)}, {}, depth, Steps(p))
  {
    assert DepthOk(isGoal, depth, expanded + {LastState(p)}, Steps(p));
    assert Expanded(succ, expanded + {LastState(p)}, explored, depth);
  }

  /** The invariant of the inner loop after the first j successors of p's last state. */
  ghost predicate ExpandInv<S(!new), A>(start: S, succ: S -> seq<(S, A)>, isGoal: S -> bool, universe: set<S>,
      p: Path<S, A>, j: nat, explored0: set<S>, frontier0: seq<Path<S, A>>, depth0: map<S, nat>,
      expanded: set<S>, explored: set<S>, frontier: seq<Path<S, A>>, depth: map<S, nat>)
    requires ValidPath(p, start, succ)
  {
    && SearchInv(start, succ, isGoal, universe, explored, frontier, expanded, {LastState(p)}, depth, Steps(p))
    && explored0 <= explored && (explored == explored0 ==> frontier == frontier0)
    && LastState(p) in depth0 && LastState(p) in depth && depth[LastState(p)] == depth0[LastState(p)]
    && j <= |succ(LastState(p))|
    && forall k :: 0 <= k < j ==> succ(LastState(p))[k].0 in explored
  }

  lemma ExpandSkip<S(!new), A>(start: S, succ: S -> seq<(S, A)>, isGoal: S -> bool, universe: set<S>,
      p: Path<S, A>, j: nat, explored0: set<S>, frontier0: seq<Path<S, A>>, depth0: map<S, nat>,
      expanded: set<S>, explored: set<S>, frontier: seq<Path<S, A>>, depth: map<S, nat>)
    requires ValidPath(p, start, succ)
    requires ExpandInv(start, succ, isGoal, universe, p, j, explored0, frontier0, depth0, expanded, explored, frontier, depth)
    requires j < |succ(LastState(p))| && succ(LastState(p))[j].0 in explored
    ensures ExpandInv(start, succ, isGoal, universe, p, j + 1, explored0, frontier0, depth0, expanded, explored, frontier, depth)
  {
  }

  lemma ExpandAdd<S(!new), A>(start: S, succ: S -> seq<(S, A)>, isGoal: S -> bool, universe: set<S>,
      p: Path<S, A>, j: nat, explored0: set<S>, frontier0: seq<Path<S, A>>, depth0: map<S, nat>,
      expanded: set<S>, explored: set<S>, frontier: seq<Path<S, A>>, depth: map<S, nat>)
    requires ValidPath(p, start, succ) && Closed(universe, succ)
    requires ExpandInv(start, succ, isGoal, universe, p, j, explored0, frontier0, depth0, expanded, explored, frontier, depth)
    requires j < |succ(LastState(p))|
    requires succ(LastState(p))[j].0 !in explored && !isGoal(succ(LastState(p))[j].0)
    ensures var (t, a) := succ(LastState(p))[j];
      ExpandInv(start, succ, isGoal, universe, p, j + 1, explored0, frontier0, depth0, expanded,
        explored + {t}, frontier + [p + [Act(a), St(t)]], if t in depth then depth else depth[t := Steps(p) + 1])
  {
    var (t, a) := succ(LastState(p))[j];
    SearchAdd(start, succ, isGoal, universe, explored, frontier, expanded, depth, p, a, t);
  }

  /** The inner loop of `shortest_path_search`: generates the successors of p's last state in
      dict order, marks each new one explored, and returns `p + [action, state]` as soon as that
      state is a goal (`found`), else appends it to the frontier. `found` is [] when no goal came up. */
  method Expand<S(!new), A>(start: S, successors: S -> seq<(S, A)>, isGoal: S -> bool, ghost universe: set<S>,
      p: Path<S, A>, explored0: set<S>, frontier0: seq<Path<S, A>>, ghost expanded: set<S>, ghost depth0: map<S, nat>)
    returns (found: Path<S, A>, explored: set<S>, frontier: seq<Path<S, A>>, ghost depth: map<S, nat>)
    requires Closed(universe, successors) && ValidPath(p, start, successors)
    requires SearchInv(start, successors, isGoal, universe, explored0, frontier0, expanded, {LastState(p)}, depth0, Steps(p))
    requires LastState(p) in depth0 && (LastState(p) !in expanded ==> depth0[LastState(p)] == Steps(p))
    requires forall q :: GoalPath(q, start, successors, isGoal) ==> Steps(q) > Steps(p)
    ensures found != [] ==> GoalPath(found, start, successors, isGoal)
    ensures found != [] ==> forall q :: GoalPath(q, start, successors, isGoal) ==> Steps(found) <= Steps(q)
    ensures found == [] ==>
      && SearchInv(start, successors, isGoal, universe, explored, frontier, expanded + {LastState(p)}, {}, depth, Steps(p))
      && explored0 <= explored && (explored == explored0 ==> frontier == frontier0)
  {
    var succs := successors(LastState(p));
    explored, frontier, depth := explored0, frontier0, depth0;
    for j := 0 to |succs|
      invariant ExpandInv(start, successors, isGoal, universe, p, j, explored0, frontier0, depth0, expanded, explored, frontier, depth)
      invariant forall q :: GoalPath(q, start, successors, isGoal) ==> Steps(q) > Steps(p)
    {
      var t, a := succs[j].0, succs[j].1;
      if t !in explored {
        var p2 := p + [Act(a), St(t)];
        if isGoal(t) {
          Extend(p, start, successors, a, t);
          return p2, explored, frontier, depth;
        }
        ExpandAdd(start, successors, isGoal, universe, p, j, explored0, frontier0, depth0, expanded, explored, frontier, depth);
        explored, frontier, depth := explored + {t}, frontier + [p2], if t in depth then depth else depth[t := Steps(p) + 1];
      } else {
        ExpandSkip(start, successors, isGoal, universe, p, j, explored0, frontier0, depth0, expanded, explored, frontier, depth);
      }
    }
    SearchFinish(start, successors, isGoal, universe, explored, frontier, expanded, depth, p);
    found := [];
  }

  /** `shortest_path_search(start, successors, is_goal)`. The ghost `universe` holds the start
      and every successor of its members; it only bounds the search, the search never reads it. */
  method ShortestPathSearch<S(!new), A>(start: S, successors: S -> seq<(S, A)>, isGoal: S -> bool,
      ghost universe: set<S>) returns (path: Path<S, A>)
    requires start in universe && Closed(universe, successors)
    ensures isGoal(start) ==> path == [St(start)]
    ensures path != [] ==> GoalPath(path, start, successors, isGoal)
    ensures path != [] ==> forall q :: GoalPath(q, start, successors, isGoal) ==> Steps(path) <= Steps(q)
    ensures path == [] ==> forall q :: ValidPath(q, start, successors) ==> !isGoal(LastState(q))
  {
    if isGoal(start) {
      assert ValidPath([St(start)], start, successors);
      return [St(start)];
    }
    var explored: set<S> := {};
    var frontier: seq<Path<S, A>> := [[St(start)]];
    ghost var expanded: set<S> := {};
    ghost var depth: map<S, nat> := map[start := 0];
    ghost var level: nat := 0;
    SearchInit(start, successors, isGoal, universe);
    while frontier != []
      invariant SearchInv(start, successors, isGoal, universe, explored, frontier, expanded, {}, depth, level)
      decreases universe - explored, |frontier|
    {
      var p := frontier[0];
      SearchPop(start, successors, isGoal, universe, explored, frontier, expanded, depth, level);
      var found;
      found, explored, frontier, depth := Expand(start, successors, isGoal, universe, p, explored, frontier[1..], expanded, depth);
      if found != [] {
        return found;
      }
      expanded := expanded + {LastState(p)};
      level := Steps(p);
    }
    NoGoal(start, successors, isGoal, expanded, explored, depth);
    return [];
  }
}
