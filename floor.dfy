/** The floor puzzle: Hopper, Kay, Liskov, Perlis and Ritchie live on different floors of a
    five-floor building; the clues are checked against every ordering of the floors. */
module Floor {
  import opened Common
  import opened Permutations
  import opened Orderings

  /** The floors 1 (bottom) to 5 (top). */
  const Floors: seq<nat> := [1, 2, 3, 4, 5]

  function Abs(x: int): int {
    if x < 0 then -x else x
  }

  /** The clues, read on the floors [Hopper, Kay, Liskov, Perlis, Ritchie]. */
  predicate Fits(p: seq<nat>) {
    |p| == 5 &&
    var hopper, kay, liskov, perlis, ritchie := p[0] as int, p[1] as int, p[2] as int, p[3] as int, p[4] as int;
    && hopper != 5
    && kay != 1
    && liskov != 5 && liskov != 1
    && perlis > kay
    && Abs(ritchie - liskov) > 1
    && Abs(kay - liskov) > 1
  }

  /** The candidate the generator yields for an ordering, if it passes every clue. */
  function Candidate(p: seq<nat>): Option<seq<nat>> {
    if Fits(p) then Some(p) else None
  }

  /** The generator of `floor_puzzle` over the orderings of the given floors. */
  function FirstFit(floors: seq<nat>): Option<seq<nat>> {
    FindFirst(Perms(floors, |floors|), Candidate)
  }

  /** `floor_puzzle()`: the first ordering, in `itertools.permutations` order, that fits. */
  function FloorPuzzle(): Option<seq<nat>> {
    FirstFit(Floors)
  }

  /** The answer is an ordering of the floors that fits every clue, and every ordering before
      it in permutation order breaks one. */
  lemma FirstFitFirst(floors: seq<nat>) returns (i: nat)
    requires IsOrdering(floors) && FirstFit(floors).Some?
    ensures var orderings := Perms(floors, |floors|);
      && i < |orderings| && FirstFit(floors) == Some(orderings[i])
      && IsOrdering(orderings[i]) && Fits(orderings[i])
      && forall j :: 0 <= j < i ==> !Fits(orderings[j])
  {
    var orderings := Perms(floors, |floors|);
    i := FindFirstAt(orderings, Candidate);
    OrderingsExact(floors, orderings[i]);
    forall j | 0 <= j < i ensures !Fits(orderings[j]) {
      assert Candidate(orderings[j]) == None;
    }
  }

  /** Only one ordering fits: Hopper 3, Kay 2, Liskov 4, Perlis 5, Ritchie 1. */
  lemma OnlyFit(p: seq<nat>)
    requires IsOrdering(p) && Fits(p)
    ensures p == [3, 2, 4, 5, 1]
  {
    assert p[0] in p && p[1] in p && p[2] in p && p[3] in p && p[4] in p;
  }

  /** Over the orderings of floors 1 to 5, taken in any order, the only fit is found. */
  lemma FirstFitAnswer(floors: seq<nat>)
    requires IsOrdering(floors)
    ensures FirstFit(floors) == Some([3, 2, 4, 5, 1])
  {
    FitFound(floors, [3, 2, 4, 5, 1]);
    var i := FirstFitFirst(floors);
    OnlyFit(Perms(floors, |floors|)[i]);
  }

  /** The generator yields something as soon as one ordering fits. */
  lemma FitFound(floors: seq<nat>, p: seq<nat>)
    requires IsOrdering(floors) && IsOrdering(p) && Fits(p)
    ensures FirstFit(floors).Some?
  {
    var orderings := Perms(floors, |floors|);
    OrderingsExact(floors, p);
    var k :| 0 <= k < |orderings| && orderings[k] == p;
    FindFirstSome(orderings, Candidate, k);
  }

  /** `floor_puzzle()` returns Hopper 3, Kay 2, Liskov 4, Perlis 5, Ritchie 1. */
  lemma FloorAnswer()
    ensures FloorPuzzle() == Some([3, 2, 4, 5, 1])
  {
    FirstFitAnswer(Floors);
  }
}
