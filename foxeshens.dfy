/** Foxes and hens: a one-player card game. A hen drawn while waiting joins the yard, a fox
    drawn while waiting empties it, and gathering banks the yard (the drawn card is then
    discarded). The game ends when the deck is empty; the yard still counts. */
module FoxesHens {
  import opened Common

  /** `(score, yard, cards)`. */
  datatype State = State(score: int, yard: int, cards: string)

  type Strategy = State -> string

  /** The drawn card is given instead of `random.choice(cards)`. An action other than "wait"
      and "gather" leaves the state as it is; waiting on a card that is neither 'H' nor 'F'
      falls off the end of `do` and gives None. */
  function Do(action: string, s: State, card: char): (r: Option<State>)
    requires card in s.cards
    ensures action == "gather" ==> r == Some(State(s.score + s.yard, 0, ReplaceOnce(s.cards, card)))
    ensures action == "wait" && card == 'H' ==> r == Some(State(s.score, s.yard + 1, ReplaceOnce(s.cards, card)))
    ensures action == "wait" && card == 'F' ==> r == Some(State(s.score, 0, ReplaceOnce(s.cards, card)))
    ensures action != "wait" && action != "gather" ==> r == Some(s)
  {
    var left := ReplaceOnce(s.cards, card);
    if action == "wait" then
      if card == 'H' then Some(State(s.score, s.yard + 1, left))
      else if card == 'F' then Some(State(s.score, 0, left))
      else None
    else if action == "gather" then Some(State(s.score + s.yard, 0, left))
    else Some(s)
  }

  /** The card drawn leaves the deck exactly once. */
  lemma DoDraws(action: string, s: State, card: char)
    requires card in s.cards && (action == "wait" || action == "gather") && (card == 'H' || card == 'F')
    ensures Do(action, s, card).Some?
    ensures var r := Do(action, s, card).value;
      multiset(r.cards) == multiset(s.cards) - multiset{card} && |r.cards| == |s.cards| - 1
  {
    ReplaceOnceMultiset(s.cards, card);
    ReplaceOnceFirst(s.cards, card);
  }

  /** Every card is a fox or a hen. */
  predicate IsDeck(cards: string) {
    forall i :: 0 <= i < |cards| ==> cards[i] == 'F' || cards[i] == 'H'
  }

  /** The strategy only ever waits or gathers. */
  ghost predicate Legal(strategy: Strategy) {
    forall s :: strategy(s) == "wait" || strategy(s) == "gather"
  }

  /** The card drawn at step k: `draws` stands for the random choices. */
  function Drawn(cards: string, draws: nat -> nat, k: nat): char
    requires cards != []
  {
    cards[draws(k) % |cards|]
  }

  /** The next state of the game loop. */
  function Step(strategy: Strategy, draws: nat -> nat, s: State, k: nat): (r: State)
    requires Legal(strategy) && IsDeck(s.cards) && s.cards != []
    ensures IsDeck(r.cards) && |r.cards| == |s.cards| - 1
  {
    var card := Drawn(s.cards, draws, k);
    DoDraws(strategy(s), s, card);
    DeckAfterDraw(s.cards, card);
    Do(strategy(s), s, card).value
  }

  /** Taking a card out of a deck leaves a deck. */
  lemma DeckAfterDraw(cards: string, card: char)
    requires IsDeck(cards) && card in cards
    ensures IsDeck(ReplaceOnce(cards, card))
  {
    ReplaceOnceFirst(cards, card);
  }

  /** What the loop of `foxes_and_hens` returns from state s at step k: `score + yard` once
      the deck is empty. */
  function Final(strategy: Strategy, draws: nat -> nat, s: State, k: nat): int
    requires Legal(strategy) && IsDeck(s.cards)
    decreases |s.cards|
  {
    if s.cards == [] then s.score + s.yard else Final(strategy, draws, Step(strategy, draws, s, k), k + 1)
  }

  /** `c * n` for a one-character string c. */
  function Repeat(c: char, n: nat): (r: string)
    ensures |r| == n && forall i :: 0 <= i < n ==> r[i] == c
  {
    if n == 0 then [] else Repeat(c, n - 1) + [c]
  }

  lemma {:induction false} RepeatCount(c: char, n: nat, x: char)
    ensures multiset(Repeat(c, n))[x] == if x == c then n else 0
  {
    if n > 0 {
      RepeatCount(c, n - 1, x);
    }
  }

  /** "F"*foxes + "H"*hens: foxes + hens cards, hens of them hens. */
  function NewDeck(foxes: nat, hens: nat): (cards: string)
    ensures |cards| == foxes + hens && IsDeck(cards) && Count(cards, 'H') == hens
  {
    var cards := Repeat('F', foxes) + Repeat('H', hens);
    RepeatCount('F', foxes, 'H');
    RepeatCount('H', hens, 'H');
    CountMultiset(cards, 'H');
    cards
  }

  /** `foxes_and_hens(strategy, foxes, hens)`: draw until the deck is empty. */
  method FoxesAndHens(strategy: Strategy, draws: nat -> nat, foxes: nat, hens: nat) returns (result: int)
    requires Legal(strategy)
    ensures result == Final(strategy, draws, State(0, 0, NewDeck(foxes, hens)), 0)
  {
    var s := State(0, 0, NewDeck(foxes, hens));
    var k := 0;
    while s.cards != []
      invariant IsDeck(s.cards)
      invariant Final(strategy, draws, s, k) == Final(strategy, draws, State(0, 0, NewDeck(foxes, hens)), 0)
      decreases |s.cards|
    {
      var action := strategy(s);
      var card := Drawn(s.cards, draws, k);
      DoDraws(action, s, card);
      var next := Do(action, s, card);
      s := next.value;
      k := k + 1;
    }
    result := s.score + s.yard;
  }

  /** The hens that can still be won: those banked, those in the yard, those in the deck. */
  function Potential(s: State): int {
    s.score + s.yard + Count(s.cards, 'H')
  }

  /** A step never lowers the score and never raises what can still be won. */
  lemma StepBounds(strategy: Strategy, draws: nat -> nat, s: State, k: nat)
    requires Legal(strategy) && IsDeck(s.cards) && s.cards != [] && s.yard >= 0
    ensures var r := Step(strategy, draws, s, k);
      r.score >= s.score && r.yard >= 0 && Potential(r) <= Potential(s)
  {
    var card := Drawn(s.cards, draws, k);
    DoDraws(strategy(s), s, card);
    var r := Step(strategy, draws, s, k);
    CountMultiset(r.cards, 'H');
    CountMultiset(s.cards, 'H');
  }

  /** The game ends after one step per card, with a result between the score it started from
      and every hen that could still be won. */
  lemma {:induction false} FinalBounds(strategy: Strategy, draws: nat -> nat, s: State, k: nat)
    requires Legal(strategy) && IsDeck(s.cards) && s.yard >= 0
    ensures s.score <= Final(strategy, draws, s, k) <= Potential(s)
    decreases |s.cards|
  {
    if s.cards != [] {
      StepBounds(strategy, draws, s, k);
      FinalBounds(strategy, draws, Step(strategy, draws, s, k), k + 1);
    } else {
      assert Count(s.cards, 'H') == 0;
    }
  }

  /** A fresh game scores at most the number of hens. */
  lemma GameBounds(strategy: Strategy, draws: nat -> nat, foxes: nat, hens: nat)
    requires Legal(strategy)
    ensures 0 <= Final(strategy, draws, State(0, 0, NewDeck(foxes, hens)), 0) <= hens
  {
    FinalBounds(strategy, draws, State(0, 0, NewDeck(foxes, hens)), 0);
  }

  /** `take5`: wait while fewer than 5 hens are in the yard. */
  function Take5(s: State): (action: string)
    ensures action == "wait" <==> s.yard < 5
    ensures action == "wait" || action == "gather"
  {
    if s.yard < 5 then "wait" else "gather"
  }

  /** `strategy`, with Python's true division read over the reals:
      wait while yard < (n_f + n_h) / n_f / 2. */
  function Strategy1(s: State): string {
    var nf, nh := Count(s.cards, 'F'), Count(s.cards, 'H');
    if nf == 0 then "wait"
    else if nh == 0 then "gather"
    else if (s.yard as real) < ((nf + nh) as real) / (nf as real) / 2.0 then "wait"
    else "gather"
  }

  /** The division cross-multiplied: wait iff 2 * yard * n_f < n_f + n_h. */
  lemma Strategy1CrossMultiplied(s: State)
    ensures var nf, nh := Count(s.cards, 'F'), Count(s.cards, 'H');
      && (nf == 0 ==> Strategy1(s) == "wait")
      && (nf != 0 && nh == 0 ==> Strategy1(s) == "gather")
      && (nf != 0 && nh != 0 ==> (Strategy1(s) == "wait" <==> 2 * s.yard * nf < nf + nh))
  {
    var nf, nh := Count(s.cards, 'F'), Count(s.cards, 'H');
    if nf != 0 && nh != 0 {
      var y, f, t := s.yard as real, nf as real, (nf + nh) as real;
      assert t / f / 2.0 == t / (2.0 * f);
      assert y < t / (2.0 * f) <==> y * (2.0 * f) < t;
    }
  }

  /** Both strategies of the lesson only ever wait or gather. */
  lemma StrategiesLegal()
    ensures Legal(Take5) && Legal(Strategy1)
  {
  }

  /** `do('gather', (4, 5, 'F'*4 + 'H'*10))`: the yard is banked and one card is gone. */
  lemma GatherTest(cards: string)
    requires cards == "FFFFHHHHHHHHHH"
    ensures Do("gather", State(4, 5, cards), 'F') == Some(State(9, 0, "FFFHHHHHHHHHH"))
    ensures Do("gather", State(4, 5, cards), 'H') == Some(State(9, 0, "FFFFHHHHHHHHH"))
  {
    DrawFox(cards);
    DrawHen(cards);
  }

  lemma DrawFox(cards: string)
    requires cards == "FFFFHHHHHHHHHH"
    ensures ReplaceOnce(cards, 'F') == "FFFHHHHHHHHHH"
  {
    ReplaceOnceAt(cards, 'F', 0);
    assert cards[..0] + cards[1..] == "FFFHHHHHHHHHH";
  }

  lemma DrawHen(cards: string)
    requires cards == "FFFFHHHHHHHHHH"
    ensures ReplaceOnce(cards, 'H') == "FFFFHHHHHHHHH"
  {
    assert cards[..4] == "FFFF";
    ReplaceOnceAt(cards, 'H', 4);
    assert cards[..4] + cards[5..] == "FFFFHHHHHHHHH";
  }

  /** `do('wait', (10, 3, 'FFHH'))`: a hen joins the yard, or a fox empties it. */
  lemma WaitTest(cards: string)
    requires cards == "FFHH"
    ensures Do("wait", State(10, 3, cards), 'H') == Some(State(10, 4, "FFH"))
    ensures Do("wait", State(10, 3, cards), 'F') == Some(State(10, 0, "FHH"))
  {
    assert cards[..2] == "FF";
    ReplaceOnceAt(cards, 'F', 0);
    ReplaceOnceAt(cards, 'H', 2);
    assert cards[..0] + cards[1..] == "FHH";
    assert cards[..2] + cards[3..] == "FFH";
  }
}
