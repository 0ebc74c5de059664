/** The search engines' paths: a list alternating states and actions,
    `[s0, a1, s1, ..., an, sn]`, that begins and ends with a state. */
module Paths {

  datatype Elem<S, A> = St(state: S) | Act(action: A)

  type Path<S, A> = seq<Elem<S, A>>

  /** States at the even positions, actions at the odd ones, and odd length. */
  predicate WellFormed<S, A>(p: Path<S, A>) {
    |p| % 2 == 1 && forall i :: 0 <= i < |p| ==> (p[i].St? <==> i % 2 == 0)
  }

  /** The number of actions on the path. */
  function Steps<S, A>(p: Path<S, A>): nat {
    |p| / 2
  }

  /** The k-th state, k = 0 being the start. */
  function StateAt<S, A>(p: Path<S, A>, k: nat): S
    requires WellFormed(p) && k <= Steps(p)
  {
    p[2 * k].state
  }

  /** The action that leads from the k-th state to the next. */
  function ActionAt<S, A>(p: Path<S, A>, k: nat): A
    requires WellFormed(p) && k < Steps(p)
  {
    p[2 * k + 1].action
  }

  function LastState<S, A>(p: Path<S, A>): S
    requires WellFormed(p)
  {
    StateAt(p, Steps(p))
  }

  /** The path leaves `start` and every step (s, a, s') is an entry s': a of the dict
      `succ(s)`, kept as the list of its items. */
  ghost predicate ValidPath<S, A>(p: Path<S, A>, start: S, succ: S -> seq<(S, A)>) {
    && WellFormed(p)
    && StateAt(p, 0) == start
    && forall k {:trigger ActionAt(p, k)} :: 0 <= k < Steps(p) ==> (StateAt(p, k + 1), ActionAt(p, k)) in succ(StateAt(p, k))
  }

  /** The last states of a list of paths. */
  function Ends<S, A>(paths: seq<Path<S, A>>): (ends: seq<S>)
    requires forall i :: 0 <= i < |paths| ==> WellFormed(paths[i])
    ensures |ends| == |paths| && forall i :: 0 <= i < |paths| ==> ends[i] == LastState(paths[i])
  {
    seq(|paths|, i requires 0 <= i < |paths| && WellFormed(paths[i]) => LastState(paths[i]))
  }

  /** A universe that holds every successor of its members. */
  ghost predicate Closed<S(!new), A>(universe: set<S>, succ: S -> seq<(S, A)>) {
    forall s, k :: s in universe && 0 <= k < |succ(s)| ==> succ(s)[k].0 in universe
  }

  /** `path + [action, state]`: the extension the engines build. */
  lemma Extend<S, A>(p: Path<S, A>, start: S, succ: S -> seq<(S, A)>, a: A, t: S)
    requires ValidPath(p, start, succ)
    requires (t, a) in succ(LastState(p))
    ensures var p2 := p + [Act(a), St(t)];
      && ValidPath(p2, start, succ)
      && Steps(p2) == Steps(p) + 1
      && LastState(p2) == t
      && forall k :: 0 <= k <= Steps(p) ==> StateAt(p2, k) == StateAt(p, k)
  {
    var p2 := p + [Act(a), St(t)];
    assert WellFormed(p2) by {
      forall i | 0 <= i < |p2| ensures (p2[i].St? <==> i % 2 == 0) {
        if i < |p| { assert p2[i] == p[i]; }
      }
    }
    forall k | 0 <= k < Steps(p2)
      ensures (StateAt(p2, k + 1), ActionAt(p2, k)) in succ(StateAt(p2, k))
    {
      assert StateAt(p2, k) == StateAt(p, k);
      if k < Steps(p) {
        assert StateAt(p2, k + 1) == StateAt(p, k + 1);
        assert ActionAt(p2, k) == ActionAt(p, k);
      }
    }
  }

  /** Dropping the last action and state of a valid path leaves a valid path. */
  lemma Prefix<S, A>(p: Path<S, A>, start: S, succ: S -> seq<(S, A)>)
    requires ValidPath(p, start, succ) && Steps(p) > 0
    ensures var q := p[..|p| - 2];
      && ValidPath(q, start, succ)
      && Steps(q) == Steps(p) - 1
      && (LastState(p), ActionAt(p, Steps(p) - 1)) in succ(LastState(q))
      && forall k :: 0 <= k <= Steps(q) ==> StateAt(q, k) == StateAt(p, k)
  {
    var q := p[..|p| - 2];
    assert WellFormed(q) by {
      forall i | 0 <= i < |q| ensures (q[i].St? <==> i % 2 == 0) {
        assert q[i] == p[i];
      }
    }
    forall k | 0 <= k < Steps(q)
      ensures (StateAt(q, k + 1), ActionAt(q, k)) in succ(StateAt(q, k))
    {
      assert StateAt(q, k) == StateAt(p, k);
      assert StateAt(q, k + 1) == StateAt(p, k + 1);
      assert ActionAt(q, k) == ActionAt(p, k);
    }
    assert LastState(q) == StateAt(p, Steps(p) - 1);
  }

  /** q agrees with p up to p's k-th state. */
  ghost predicate Follows<S, A>(q: Path<S, A>, p: Path<S, A>, k: nat) {
    WellFormed(q) && WellFormed(p) && k <= Steps(q) && k <= Steps(p) && q[..2 * k + 1] == p[..2 * k + 1]
  }

  /** Agreeing up to the k-th state, q and p are in the same k-th state. */
  lemma FollowsState<S, A>(q: Path<S, A>, p: Path<S, A>, k: nat)
    requires Follows(q, p, k)
    ensures StateAt(q, k) == StateAt(p, k)
  {
    assert q[2 * k] == q[..2 * k + 1][2 * k];
    assert p[2 * k] == p[..2 * k + 1][2 * k];
  }

  /** Agreeing up to the k-th state, q and p took the same actions before it. */
  lemma FollowsAction<S, A>(q: Path<S, A>, p: Path<S, A>, k: nat, j: nat)
    requires Follows(q, p, k) && j < k
    ensures ActionAt(q, j) == ActionAt(p, j)
  {
    assert q[2 * j + 1] == q[..2 * k + 1][2 * j + 1];
    assert p[2 * j + 1] == p[..2 * k + 1][2 * j + 1];
  }

  /** One more step by the same action to the same state extends the agreement. */
  lemma FollowsOn<S, A>(q: Path<S, A>, p: Path<S, A>, k: nat)
    requires Follows(q, p, k) && k < Steps(q) && k < Steps(p)
    requires ActionAt(q, k) == ActionAt(p, k) && StateAt(q, k + 1) == StateAt(p, k + 1)
    ensures Follows(q, p, k + 1)
  {
    assert q[..2 * k + 3] == q[..2 * k + 1] + [q[2 * k + 1], q[2 * k + 2]];
    assert p[..2 * k + 3] == p[..2 * k + 1] + [p[2 * k + 1], p[2 * k + 2]];
  }

  /** Agreeing all the way, with as many steps, they are the same path. */
  lemma FollowsAll<S, A>(q: Path<S, A>, p: Path<S, A>)
    requires Follows(q, p, Steps(q)) && Steps(q) == Steps(p)
    ensures q == p
  {
    assert q[..|q|] == q && p[..|p|] == p;
  }

  /** `path[0::2]`: the elements at even positions. */
  function EvenSlice<T>(s: seq<T>): (r: seq<T>)
    ensures |r| == (|s| + 1) / 2
    ensures forall i :: 0 <= i < |r| ==> r[i] == s[2 * i]
  {
    if |s| <= 1 then s else [s[0]] + EvenSlice(s[2..])
  }

  /** `path[1::2]`: the elements at odd positions. */
  function OddSlice<T>(s: seq<T>): (r: seq<T>)
    ensures |r| == |s| / 2
    ensures forall i :: 0 <= i < |r| ==> r[i] == s[2 * i + 1]
  {
    if |s| <= 1 then [] else [s[1]] + OddSlice(s[2..])
  }

  /** On a well-formed path the even slice holds its states, the odd slice its actions,
      and there is one more state than there are actions. */
  lemma SlicesOfPath<S, A>(p: Path<S, A>)
    requires WellFormed(p)
    ensures |EvenSlice(p)| == |OddSlice(p)| + 1
    ensures forall k :: 0 <= k <= Steps(p) ==> EvenSlice(p)[k] == St(StateAt(p, k))
    ensures forall k :: 0 <= k < Steps(p) ==> OddSlice(p)[k] == Act(ActionAt(p, k))
  {
    var evens, odds := EvenSlice(p), OddSlice(p);
    assert |p| == 2 * Steps(p) + 1;
    forall k | 0 <= k <= Steps(p) ensures evens[k] == St(StateAt(p, k)) {
      assert (2 * k) % 2 == 0;
      assert evens[k] == p[2 * k] && p[2 * k].St?;
    }
    forall k | 0 <= k < Steps(p) ensures odds[k] == Act(ActionAt(p, k)) {
      assert (2 * k + 1) % 2 == 1;
      assert odds[k] == p[2 * k + 1] && p[2 * k + 1].Act?;
    }
  }
}
