/** The dice game Pig: players take turns rolling a die, adding each roll to a pending total
    that they can bank by holding; a roll of 1 loses the pending points, scores 1 and ends the
    turn. The first player to reach the goal wins. */
module Pig {
  import opened Common

  /** The player to move: 0 or 1 (the keys of `other`). */
  type Player = p: nat | p <= 1

  /** `(p, me, you, pending)`: me is the score of the player to move, you the opponent's. */
  datatype State = State(p: Player, me: int, you: int, pending: int)

  /** A strategy maps a state to the name of an action. */
  type Strategy = State -> string

  const Goal: int := 40

  /** `other[p]`. */
  function Other(p: Player): (q: Player)
    ensures q != p && p + q == 1
  {
    1 - p
  }

  /** The score of player q, whoever is to move. */
  function ScoreOf(s: State, q: Player): int {
    if q == s.p then s.me else s.you
  }

  /** `hold(state)`: the pending points are banked and the turn passes. */
  function Hold(s: State): (r: State)
    ensures r.p == Other(s.p) && r.pending == 0
    ensures ScoreOf(r, s.p) == ScoreOf(s, s.p) + s.pending && ScoreOf(r, r.p) == ScoreOf(s, r.p)
    ensures r.me + r.you + r.pending == s.me + s.you + s.pending
  {
    State(Other(s.p), s.you, s.me + s.pending, 0)
  }

  /** `roll(state, d)`: a 1 scores one point, loses the pending points and passes the turn;
      any other value is added to the pending points. */
  function Roll(s: State, d: int): (r: State)
    ensures d == 1 ==>
      r.p == Other(s.p) && r.pending == 0 && ScoreOf(r, s.p) == ScoreOf(s, s.p) + 1 && ScoreOf(r, r.p) == ScoreOf(s, r.p)
    ensures d != 1 ==>
      r.p == s.p && r.pending == s.pending + d && ScoreOf(r, 0) == ScoreOf(s, 0) && ScoreOf(r, 1) == ScoreOf(s, 1)
  {
    if d == 1 then State(Other(s.p), s.you, s.me + d, 0) else State(s.p, s.me, s.you, s.pending + d)
  }

  /** `pig_actions(state)`: holding is legal only with points pending. */
  function PigActions(s: State): (r: seq<string>)
    ensures "roll" in r && ("hold" in r <==> s.pending != 0)
  {
    if s.pending != 0 then ["roll", "hold"] else ["roll"]
  }

  /** `always_roll`. */
  function AlwaysRoll(s: State): string {
    "roll"
  }

  /** `always_hold`. */
  function AlwaysHold(s: State): string {
    "hold"
  }

  /** `hold_at(x)`: hold once x points are pending or holding would reach the goal exactly. */
  function HoldAt(x: int): Strategy {
    (s: State) => if s.pending >= x || s.me + s.pending == Goal then "hold" else "roll"
  }

  lemma HoldAtHolds(x: int, s: State)
    ensures HoldAt(x)(s) == "hold" <==> s.pending >= x || s.me + s.pending == Goal
    ensures HoldAt(x)(s) != "hold" ==> HoldAt(x)(s) == "roll"
  {
  }

  /** `strategies[p]`. */
  function StrategyOf(a: Strategy, b: Strategy, p: Player): Strategy {
    if p == 0 then a else b
  }

  /** How a game ends: a player reached the goal, the opponent named an action that is
      neither "hold" nor "roll", or the step budget ran out first. */
  datatype Outcome = Reached(winner: Player, last: State) | Forfeit(winner: Player, last: State) | Unfinished

  /** The player `play_pig` returns the strategy of, if any. */
  function WinnerOf(o: Outcome): Option<Player> {
    if o.Unfinished? then None else Some(o.winner)
  }

  /** The game `play_pig` plays from state, the die rolls being die(used), die(used + 1), ...
      and at most fuel decisions being taken. */
  function Game(a: Strategy, b: Strategy, die: nat -> int, s: State, used: nat, fuel: nat): Outcome
    decreases fuel
  {
    if s.me >= Goal then Reached(s.p, s)
    else if s.you >= Goal then Reached(Other(s.p), s)
    else if fuel == 0 then Unfinished
    else
      var action := StrategyOf(a, b, s.p)(s);
      if action == "hold" then Game(a, b, die, Hold(s), used, fuel - 1)
      else if action == "roll" then Game(a, b, die, Roll(s, die(used)), used + 1, fuel - 1)
      else Forfeit(Other(s.p), s)
  }

  const Start := State(0, 0, 0, 0)

  /** `play_pig(A, B, dierolls)`: the loop asking the player to move for a decision until
      someone has reached the goal. The result is the index of the winning strategy: 0 for A,
      1 for B; None when the budget of decisions runs out. */
  method PlayPig(a: Strategy, b: Strategy, die: nat -> int, fuel: nat) returns (winner: Option<Player>)
    ensures winner == WinnerOf(Game(a, b, die, Start, 0, fuel))
  {
    var s := Start;
    var used := 0;
    var left := fuel;
    while true
      invariant Game(a, b, die, s, used, left) == Game(a, b, die, Start, 0, fuel)
      decreases left
    {
      if s.me >= Goal {
        return Some(s.p);
      } else if s.you >= Goal {
        return Some(Other(s.p));
      } else if left == 0 {
        return None;
      } else if StrategyOf(a, b, s.p)(s) == "hold" {
        s := Hold(s);
      } else if StrategyOf(a, b, s.p)(s) == "roll" {
        s := Roll(s, die(used));
        used := used + 1;
      } else {
        return Some(Other(s.p));
      }
      left := left - 1;
    }
  }

  /** A game that starts with both scores below the goal ends with exactly the winner at or
      past the goal, or with the loser naming an illegal action while both are still below. */
  lemma {:induction false} GameEnd(a: Strategy, b: Strategy, die: nat -> int, s: State, used: nat, fuel: nat)
    requires s.me < Goal && s.you < Goal
    ensures var o := Game(a, b, die, s, used, fuel);
      && (o.Reached? ==> ScoreOf(o.last, o.winner) >= Goal && ScoreOf(o.last, Other(o.winner)) < Goal)
      && (o.Forfeit? ==>
            && o.last.me < Goal && o.last.you < Goal && o.last.p == Other(o.winner)
            && StrategyOf(a, b, o.last.p)(o.last) != "hold" && StrategyOf(a, b, o.last.p)(o.last) != "roll")
    decreases fuel
  {
    if fuel > 0 {
      var action := StrategyOf(a, b, s.p)(s);
      var next := if action == "hold" then Hold(s) else Roll(s, die(used));
      if action == "hold" || action == "roll" {
        var used' := if action == "hold" then used else used + 1;
        assert Game(a, b, die, s, used, fuel) == Game(a, b, die, next, used', fuel - 1);
        if next.me < Goal && next.you < Goal {
          GameEnd(a, b, die, next, used', fuel - 1);
        }
      }
    }
  }

  /** A game's winner is the player who reached the goal or whose opponent forfeited. */
  lemma PlayPigWinner(a: Strategy, b: Strategy, die: nat -> int, fuel: nat, w: Player)
    requires WinnerOf(Game(a, b, die, Start, 0, fuel)) == Some(w)
    ensures var o := Game(a, b, die, Start, 0, fuel);
      || (o.Reached? && ScoreOf(o.last, w) >= Goal && ScoreOf(o.last, Other(w)) < Goal)
      || (o.Forfeit? && o.last.p == Other(w) && StrategyOf(a, b, Other(w))(o.last) !in ["hold", "roll"])
  {
    GameEnd(a, b, die, Start, 0, fuel);
  }

  /** With die rolls of at least 1 and nothing negative pending, no move lowers either
      player's score. */
  lemma StepKeepsScores(s: State, d: int, q: Player)
    requires s.pending >= 0 && d >= 1
    ensures ScoreOf(Hold(s), q) >= ScoreOf(s, q) && ScoreOf(Roll(s, d), q) >= ScoreOf(s, q)
    ensures Hold(s).pending >= 0 && Roll(s, d).pending >= 0
  {
  }

  /** Two players who always hold never finish: the loop of `play_pig` needs a budget. */
  lemma {:induction false} HoldersNeverFinish(die: nat -> int, p: Player, used: nat, fuel: nat)
    ensures Game(AlwaysHold, AlwaysHold, die, State(p, 0, 0, 0), used, fuel) == Unfinished
    decreases fuel
  {
    if fuel > 0 {
      HoldersNeverFinish(die, Other(p), used, fuel - 1);
    }
  }

  /** A first player whose strategy names neither "hold" nor "roll" forfeits at once to the second. */
  lemma ForfeitAtOnce(b: Strategy, die: nat -> int, fuel: nat)
    requires fuel > 0
    ensures WinnerOf(Game((s: State) => "pass", b, die, Start, 0, fuel)) == Some(1)
  {
  }

  // ---------------------------------------------------------------- the states of one player

  /** `[(0, me, you, pending) for me in range(goal+1) for you in range(goal+1)
      for pending in range(goal+1) if me + pending <= goal]`, built from its innermost loop. */
  function PendingStates(goal: nat, me: nat, you: nat, n: nat): seq<State>
  {
    if n == 0 then []
    else PendingStates(goal, me, you, n - 1) + (if me + (n - 1) <= goal then [State(0, me, you, n - 1)] else [])
  }

  function YouStates(goal: nat, me: nat, n: nat): seq<State> {
    if n == 0 then [] else YouStates(goal, me, n - 1) + PendingStates(goal, me, n - 1, goal + 1)
  }

  function MeStates(goal: nat, n: nat): seq<State> {
    if n == 0 then [] else MeStates(goal, n - 1) + YouStates(goal, n - 1, goal + 1)
  }

  /** The list `states` for a goal. */
  function AllStates(goal: nat): seq<State> {
    MeStates(goal, goal + 1)
  }

  lemma {:induction false} PendingCount(goal: nat, me: nat, you: nat, n: nat)
    requires me <= goal && n <= goal + 1
    ensures |PendingStates(goal, me, you, n)| == if me + n <= goal + 1 then n else goal + 1 - me
    decreases n
  {
    if n > 0 {
      PendingCount(goal, me, you, n - 1);
    }
  }

  lemma {:induction false} YouCount(goal: nat, me: nat, n: nat)
    requires me <= goal
    ensures |YouStates(goal, me, n)| == n * (goal + 1 - me)
    decreases n
  {
    if n > 0 {
      YouCount(goal, me, n - 1);
      PendingCount(goal, me, n - 1, goal + 1);
    }
  }

  lemma {:induction false} MeCount(goal: nat, n: nat)
    requires n <= goal + 1
    ensures 2 * |MeStates(goal, n)| == (goal + 1) * (2 * (goal + 1) - n + 1) * n
    decreases n
  {
    if n > 0 {
      MeCount(goal, n - 1);
      YouCount(goal, n - 1, goal + 1);
      CountStep(goal + 1, n, |MeStates(goal, n - 1)|, |YouStates(goal, n - 1, goal + 1)|);
    }
  }

  lemma CountStep(g: int, n: int, m: int, y: int)
    requires 2 * m == g * (2 * g - (n - 1) + 1) * (n - 1) && y == g * (g - n + 1)
    ensures 2 * (m + y) == g * (2 * g - n + 1) * n
  {
    var before, now := (2 * g - n + 2) * (n - 1), (2 * g - n + 1) * n;
    assert now == before + 2 * (g - n + 1);
    assert g * now == g * before + g * (2 * (g - n + 1));
    assert g * (2 * g - n + 1) * n == g * now;
    assert g * (2 * g - (n - 1) + 1) * (n - 1) == g * before;
  }

  /** The states with me + pending <= goal number (goal+1)²(goal+2)/2: 35301 for goal 40. */
  lemma StatesCount(goal: nat)
    ensures 2 * |AllStates(goal)| == (goal + 1) * (goal + 1) * (goal + 2)
    ensures goal == 40 ==> |AllStates(goal)| == 35301
  {
    var g := goal + 1;
    MeCount(goal, g);
    assert 2 * g - g + 1 == g + 1;
    assert g * (g + 1) * g == g * g * (g + 1);
  }
}
