/** The search of the first bridge solver: each state carries its own elapsed time, states are
    marked explored when generated, every new path is appended and the frontier re-sorted by the
    elapsed time of its last state, and the goal is tested when a path is popped. */
module ElapsedSearch {
  import opened Common
  import opened Paths
  import opened Sorting

  /** `elapsed_time(path)`: the time recorded in the last state. */
  function ElapsedTime<S, A>(time: S -> nat, p: Path<S, A>): (t: nat)
    ensures WellFormed(p) ==> t == time(LastState(p))
  {
    if |p| > 0 && p[|p| - 1].St? then time(p[|p| - 1].state) else 0
  }

  function ElapsedKey<S, A>(time: S -> nat): Path<S, A> -> nat {
    (p: Path<S, A>) => ElapsedTime(time, p)
  }

  ghost predicate GoalPath<S, A>(p: Path<S, A>, start: S, succ: S -> seq<(S, A)>, isGoal: S -> bool) {
    ValidPath(p, start, succ) && isGoal(LastState(p))
  }

  /** No step goes back in time. */
  ghost predicate Monotone<S(!new), A>(succ: S -> seq<(S, A)>, time: S -> nat) {
    forall s, k :: 0 <= k < |succ(s)| ==> time(s) <= time(succ(s)[k].0)
  }

  /** Expanded states are not goals and all their successors are explored. */
  ghost predicate Expansions<S(!new), A>(succ: S -> seq<(S, A)>, isGoal: S -> bool, explored: set<S>, expanded: set<S>) {
    forall u, k :: u in expanded && 0 <= k < |succ(u)| ==> !isGoal(u) && succ(u)[k].0 in explored
  }

  ghost predicate NoGoalExpanded<S(!new)>(isGoal: S -> bool, expanded: set<S>) {
    forall u :: u in expanded ==> !isGoal(u)
  }

  /** Frontier paths are valid and sorted by elapsed time. */
  ghost predicate FrontierOk<S, A>(start: S, succ: S -> seq<(S, A)>, time: S -> nat, frontier: seq<Path<S, A>>) {
    && (forall i :: 0 <= i < |frontier| ==> ValidPath(frontier[i], start, succ))
    && SortedBy(frontier, ElapsedKey(time))
  }

  /** Every explored state, and the start, that is neither expanded nor `busy` ends a frontier path. */
  ghost predicate Pending<S(!new), A>(start: S, frontier: seq<Path<S, A>>, explored: set<S>, expanded: set<S>, busy: set<S>) {
    && (forall i :: 0 <= i < |frontier| ==> WellFormed(frontier[i]))
    && forall u :: (u in explored || u == start) && u !in expanded && u !in busy ==> u in Ends(frontier)
  }

  ghost predicate SearchInv<S(!new), A>(start: S, succ: S -> seq<(S, A)>, isGoal: S -> bool, time: S -> nat,
      explored: set<S>, frontier: seq<Path<S, A>>, expanded: set<S>) {
    && FrontierOk(start, succ, time, frontier)
    && Expansions(succ, isGoal, explored, expanded)
    && NoGoalExpanded(isGoal, expanded)
    && Pending(start, frontier, explored, expanded, {})
  }

  /** Walking a valid path through expanded states stays among the explored states; the walk
      stops at the first state that is not expanded, or at the end. */
  lemma {:induction false} Walk<S(!new), A>(q: Path<S, A>, start: S, succ: S -> seq<(S, A)>, isGoal: S -> bool,
      explored: set<S>, expanded: set<S>) returns (i: nat)
    requires ValidPath(q, start, succ) && Expansions(succ, isGoal, explored, expanded)
    ensures i <= Steps(q) && (StateAt(q, i) in explored || StateAt(q, i) == start)
    ensures i < Steps(q) ==> StateAt(q, i) !in expanded
  {
    if Steps(q) == 0 {
      i := 0;
    } else {
      var q' := q[..|q| - 2];
      Prefix(q, start, succ);
      var i' := Walk(q', start, succ, isGoal, explored, expanded);
      assert StateAt(q, i') == StateAt(q', i');
      if i' < Steps(q') || StateAt(q', i') !in expanded {
        i := i';
      } else {
        var u := LastState(q');
        var m :| 0 <= m < |succ(u)| && succ(u)[m] == (LastState(q), ActionAt(q, Steps(q) - 1));
        i := Steps(q);
      }
    }
  }

  /** Along a valid path the elapsed time never decreases. */
  lemma {:induction false} TimeGrows<S(!new), A>(q: Path<S, A>, start: S, succ: S -> seq<(S, A)>, time: S -> nat, i: nat)
    requires ValidPath(q, start, succ) && Monotone(succ, time) && i <= Steps(q)
    ensures time(StateAt(q, i)) <= time(LastState(q))
    decreases Steps(q) - i
  {
    if i < Steps(q) {
      var s := StateAt(q, i);
      assert (StateAt(q, i + 1), ActionAt(q, i)) in succ(s);
      var m :| 0 <= m < |succ(s)| && succ(s)[m] == (StateAt(q, i + 1), ActionAt(q, i));
      TimeGrows(q, start, succ, time, i + 1);
    }
  }

  /** A goal path meets a pending state: one that ends a frontier path. */
  lemma GoalMeetsFrontier<S(!new), A>(q: Path<S, A>, start: S, succ: S -> seq<(S, A)>, isGoal: S -> bool, time: S -> nat,
      explored: set<S>, frontier: seq<Path<S, A>>, expanded: set<S>) returns (m: nat)
    requires SearchInv(start, succ, isGoal, time, explored, frontier, expanded) && Monotone(succ, time)
    requires GoalPath(q, start, succ, isGoal)
    ensures m < |frontier| && ElapsedTime(time, frontier[m]) <= time(LastState(q))
  {
    var i := Walk(q, start, succ, isGoal, explored, expanded);
    var u := StateAt(q, i);
    assert u !in expanded;
    assert u in Ends(frontier);
    m :| 0 <= m < |frontier| && Ends(frontier)[m] == u;
    TimeGrows(q, start, succ, time, i);
  }

  /** The first frontier path takes no longer than any goal path. */
  lemma PopIsQuickest<S(!new), A>(start: S, succ: S -> seq<(S, A)>, isGoal: S -> bool, time: S -> nat,
      explored: set<S>, frontier: seq<Path<S, A>>, expanded: set<S>)
    requires SearchInv(start, succ, isGoal, time, explored, frontier, expanded) && Monotone(succ, time)
    ensures forall q :: GoalPath(q, start, succ, isGoal) ==> frontier != [] && ElapsedTime(time, frontier[0]) <= time(LastState(q))
  {
    forall q | GoalPath(q, start, succ, isGoal)
      ensures frontier != [] && ElapsedTime(time, frontier[0]) <= time(LastState(q))
    {
      var m := GoalMeetsFrontier(q, start, succ, isGoal, time, explored, frontier, expanded);
      assert ElapsedKey(time)(frontier[0]) <= ElapsedKey(time)(frontier[m]);
    }
  }

  lemma SearchInit<S(!new), A>(start: S, succ: S -> seq<(S, A)>, isGoal: S -> bool, time: S -> nat)
    ensures SearchInv(start, succ, isGoal, time, {}, [[St(start)]], {})
  {
    assert ValidPath([St(start)], start, succ);
    assert Ends<S, A>([[St(start)]]) == [start];
  }

  /** The inner loop's invariant while the successors of p's last state are generated. */
  ghost predicate ExpandInv<S(!new), A>(start: S, succ: S -> seq<(S, A)>, isGoal: S -> bool, time: S -> nat,
      p: Path<S, A>, j: nat, explored: set<S>, frontier: seq<Path<S, A>>, expanded: set<S>)
  {
    && ValidPath(p, start, succ) && !isGoal(LastState(p))
    && FrontierOk(start, succ, time, frontier)
    && Expansions(succ, isGoal, explored, expanded)
    && NoGoalExpanded(isGoal, expanded)
    && Pending(start, frontier, explored, expanded, {LastState(p)})
    && j <= |succ(LastState(p))|
    && forall k :: 0 <= k < j ==> succ(LastState(p))[k].0 in explored
  }

  lemma PopStep<S(!new), A>(start: S, succ: S -> seq<(S, A)>, isGoal: S -> bool, time: S -> nat,
      explored: set<S>, frontier: seq<Path<S, A>>, expanded: set<S>)
    requires SearchInv(start, succ, isGoal, time, explored, frontier, expanded)
    requires frontier != [] && WellFormed(frontier[0]) && !isGoal(LastState(frontier[0]))
    ensures ExpandInv(start, succ, isGoal, time, frontier[0], 0, explored, frontier[1..], expanded)
  {
    var p, rest := frontier[0], frontier[1..];
    forall u | (u in explored || u == start) && u !in expanded && u !in {LastState(p)}
      ensures u in Ends(rest)
    {
      var m :| 0 <= m < |frontier| && Ends(frontier)[m] == u;
      assert m != 0;
      assert Ends(rest)[m - 1] == u;
    }
    assert SortedBy(rest, ElapsedKey(time)) by {
      forall i, j | 0 <= i < j < |rest| ensures ElapsedKey(time)(rest[i]) <= ElapsedKey(time)(rest[j]) {
        assert rest[i] == frontier[i + 1] && rest[j] == frontier[j + 1];
      }
    }
  }

  lemma AddStep<S(!new), A>(start: S, succ: S -> seq<(S, A)>, isGoal: S -> bool, time: S -> nat,
      p: Path<S, A>, j: nat, explored: set<S>, frontier: seq<Path<S, A>>, expanded: set<S>)
    requires ExpandInv(start, succ, isGoal, time, p, j, explored, frontier, expanded)
    requires j < |succ(LastState(p))| && succ(LastState(p))[j].0 !in explored
    ensures var e := succ(LastState(p))[j];
      ExpandInv(start, succ, isGoal, time, p, j + 1, explored + {e.0},
        SortBy(frontier + [p + [Act(e.1), St(e.0)]], ElapsedKey(time)), expanded)
  {
    var e := succ(LastState(p))[j];
    var p2 := p + [Act(e.1), St(e.0)];
    Extend(p, start, succ, e.1, e.0);
    AddValid(start, succ, time, frontier, p2);
    AddPending(start, frontier, explored, expanded, {LastState(p)}, p2, time);
  }

  lemma AddValid<S, A>(start: S, succ: S -> seq<(S, A)>, time: S -> nat, frontier: seq<Path<S, A>>, p2: Path<S, A>)
    requires FrontierOk(start, succ, time, frontier) && ValidPath(p2, start, succ)
    ensures FrontierOk(start, succ, time, SortBy(frontier + [p2], ElapsedKey(time)))
  {
    var f := SortBy(frontier + [p2], ElapsedKey(time));
    SortBySpec(frontier + [p2], ElapsedKey(time));
    forall i | 0 <= i < |f| ensures ValidPath(f[i], start, succ) {
      assert f[i] in multiset(f);
      assert f[i] in multiset(frontier + [p2]);
      if f[i] != p2 {
        assert f[i] in frontier;
        var k :| 0 <= k < |frontier| && frontier[k] == f[i];
      }
    }
  }

  lemma AddPending<S(!new), A>(start: S, frontier: seq<Path<S, A>>, explored: set<S>, expanded: set<S>, busy: set<S>,
      p2: Path<S, A>, time: S -> nat)
    requires Pending(start, frontier, explored, expanded, busy) && WellFormed(p2)
    ensures Pending(start, SortBy(frontier + [p2], ElapsedKey(time)), explored + {LastState(p2)}, expanded, busy)
  {
    var f := SortBy(frontier + [p2], ElapsedKey(time));
    forall i | 0 <= i < |f| ensures WellFormed(f[i]) {
      SortedFrom(frontier, p2, time, i);
    }
    forall u | (u in explored + {LastState(p2)} || u == start) && u !in expanded && u !in busy
      ensures u in Ends(f)
    {
      var x: Path<S, A>;
      if u == LastState(p2) {
        x := p2;
      } else {
        var m :| 0 <= m < |frontier| && Ends(frontier)[m] == u;
        x := frontier[m];
      }
      var n := SortedHas(frontier, p2, time, x);
      assert Ends(f)[n] == u;
    }
  }

  /** Each path of the sorted frontier was in the frontier or is the added one. */
  lemma SortedFrom<S, A>(frontier: seq<Path<S, A>>, p2: Path<S, A>, time: S -> nat, i: nat)
    requires i < |SortBy(frontier + [p2], ElapsedKey(time))|
    ensures var f := SortBy(frontier + [p2], ElapsedKey(time)); f[i] == p2 || f[i] in frontier
  {
    var f := SortBy(frontier + [p2], ElapsedKey(time));
    SortBySpec(frontier + [p2], ElapsedKey(time));
    assert f[i] in multiset(f);
    assert f[i] in multiset(frontier + [p2]);
  }

  /** Each path of the frontier, and the added one, is in the sorted frontier. */
  lemma SortedHas<S, A>(frontier: seq<Path<S, A>>, p2: Path<S, A>, time: S -> nat, x: Path<S, A>) returns (n: nat)
    requires x == p2 || x in frontier
    ensures var f := SortBy(frontier + [p2], ElapsedKey(time)); n < |f| && f[n] == x
  {
    var f := SortBy(frontier + [p2], ElapsedKey(time));
    SortBySpec(frontier + [p2], ElapsedKey(time));
    assert x in frontier + [p2];
    assert x in multiset(frontier + [p2]);
    assert x in multiset(f);
    n :| 0 <= n < |f| && f[n] == x;
  }

  lemma FinishStep<S(!new), A>(start: S, succ: S -> seq<(S, A)>, isGoal: S -> bool, time: S -> nat,
      p: Path<S, A>, explored: set<S>, frontier: seq<Path<S, A>>, expanded: set<S>)
    requires ValidPath(p, start, succ)
    requires ExpandInv(start, succ, isGoal, time, p, |succ(LastState(p))|, explored, frontier, expanded)
    ensures SearchInv(start, succ, isGoal, time, explored, frontier, expanded + {LastState(p)})
  {
  }

  /** With an empty frontier, no goal can be reached. */
  lemma NoGoalLeft<S(!new), A>(start: S, succ: S -> seq<(S, A)>, isGoal: S -> bool, time: S -> nat,
      explored: set<S>, expanded: set<S>)
    requires SearchInv(start, succ, isGoal, time, explored, [], expanded) && Monotone(succ, time)
    ensures forall q :: ValidPath(q, start, succ) ==> !isGoal(LastState(q))
  {
    forall q | ValidPath(q, start, succ) ensures !isGoal(LastState(q)) {
      if isGoal(LastState(q)) {
        var m := GoalMeetsFrontier<S, A>(q, start, succ, isGoal, time, explored, [], expanded);
        assert false;
      }
    }
  }

  /** The search loop of `bridge_problem`, for at most `fuel` pops: None when the fuel runs
      out, Some of the answer otherwise (`Fail`, the empty path, when the frontier empties). */
  method ElapsedTimeSearch<S(==, !new), A(!new)>(start: S, successors: S -> seq<(S, A)>, isGoal: S -> bool,
      time: S -> nat, fuel: nat) returns (r: Option<Path<S, A>>)
    requires Monotone(successors, time)
    ensures r.Some? && r.value != [] ==> GoalPath(r.value, start, successors, isGoal)
    ensures r.Some? && r.value != [] ==>
      forall q :: GoalPath(q, start, successors, isGoal) ==> ElapsedTime(time, r.value) <= time(LastState(q))
    ensures r == Some([]) ==> forall q :: ValidPath(q, start, successors) ==> !isGoal(LastState(q))
  {
    var explored: set<S> := {};
    var frontier: seq<Path<S, A>> := [[St(start)]];
    ghost var expanded: set<S> := {};
    SearchInit(start, successors, isGoal, time);
    var n := fuel;
    while frontier != []
      invariant SearchInv(start, successors, isGoal, time, explored, frontier, expanded)
      decreases n
    {
      if n == 0 {
        return None;
      }
      n := n - 1;
      PopIsQuickest(start, successors, isGoal, time, explored, frontier, expanded);
      var path := frontier[0];
      var last := LastState(path);
      if isGoal(last) {
        return Some(path);
      }
      PopStep(start, successors, isGoal, time, explored, frontier, expanded);
      frontier := frontier[1..];
      var succs := successors(last);
      for j := 0 to |succs|
        invariant ExpandInv(start, successors, isGoal, time, path, j, explored, frontier, expanded)
      {
        var state, action := succs[j].0, succs[j].1;
        if state !in explored {
          AddStep(start, successors, isGoal, time, path, j, explored, frontier, expanded);
          explored := explored + {state};
          var path2 := path + [Act(action), St(state)];
          frontier := SortBy(frontier + [path2], ElapsedKey(time));
        }
      }
      FinishStep(start, successors, isGoal, time, path, explored, frontier, expanded);
      expanded := expanded + {last};
    }
    NoGoalLeft(start, successors, isGoal, time, explored, expanded);
    return Some([]);
  }
}
