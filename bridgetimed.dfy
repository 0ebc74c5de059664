/** The first bridge solver: a state is (here, there, t) with t the time elapsed so far, and an
    action is (a, b, arrow). */
module BridgeTimed {
  import opened Common
  import opened Paths
  import opened BridgeMoves
  import opened ElapsedSearch
  import Bridge

  type Bank1 = (Side, Side, nat)

  /** The entry of the `bsuccessors` dict for a and b crossing with the light. */
  function Cross1(s: Bank1, a: nat, b: nat): (Bank1, Bridge.Crossing) {
    var t := s.2 + Max(a, b);
    if Light in s.0 then ((s.0 - Moved(a, b), s.1 + Moved(a, b), t), (a, b, "->"))
    else ((s.0 + Moved(a, b), s.1 - Moved(a, b), t), (a, b, "<-"))
  }

  function Cross1Fn(s: Bank1): (nat, nat) -> (Bank1, Bridge.Crossing) {
    (a: nat, b: nat) => Cross1(s, a, b)
  }

  function Waiting1(order: seq<nat>, s: Bank1): seq<nat> {
    Listed(order, Times(LightSide(s.0, s.1)))
  }

  /** `bsuccessors`. */
  function Bsuccessors(order: seq<nat>, s: Bank1): seq<(Bank1, Bridge.Crossing)> {
    var ps := Waiting1(order, s);
    DictFromPairs(Trips(ps, ps, Cross1Fn(s)))
  }

  function Succ1(order: seq<nat>): Bank1 -> seq<(Bank1, Bridge.Crossing)> {
    (s: Bank1) => Bsuccessors(order, s)
  }

  function Clock(s: Bank1): nat {
    s.2
  }

  /** `not here_last`. */
  function Done(s: Bank1): bool {
    s.0 == {}
  }

  /** `[(frozenset(here) | frozenset(['light']), frozenset(), 0)]`'s state. */
  function Start1(here: seq<nat>): Bank1 {
    (Bridge.Everyone(here), {}, 0)
  }

  /** Each entry of the dict is a crossing of people standing with the light. */
  lemma BsuccessorsSound(order: seq<nat>, s: Bank1)
    ensures forall x :: x in Bsuccessors(order, s) ==>
      exists a, b :: Person(a) in LightSide(s.0, s.1) && Person(b) in LightSide(s.0, s.1) && x == Cross1(s, a, b)
  {
    forall x | x in Bsuccessors(order, s)
      ensures exists a, b :: Person(a) in LightSide(s.0, s.1) && Person(b) in LightSide(s.0, s.1) && x == Cross1(s, a, b)
    {
      SoundEntry(order, s, x);
    }
  }

  lemma SoundEntry(order: seq<nat>, s: Bank1, x: (Bank1, Bridge.Crossing))
    requires x in Bsuccessors(order, s)
    ensures exists a, b :: Person(a) in LightSide(s.0, s.1) && Person(b) in LightSide(s.0, s.1) && x == Cross1(s, a, b)
  {
    var ps := Waiting1(order, s);
    var side := LightSide(s.0, s.1);
    var trips := Trips(ps, ps, Cross1Fn(s));
    TripsMembers(ps, ps, Cross1Fn(s));
    DictFromPairsItems(trips);
    LastValueIn(trips, x.0);
    assert x in trips;
    var a, b :| a in ps && b in ps && x == Cross1Fn(s)(a, b);
    ListedMember(order, Times(side), a);
    ListedMember(order, Times(side), b);
    Bridge.TimesMember(side, a);
    Bridge.TimesMember(side, b);
  }

  /** `bsuccessors` is `bsuccessors2` with the clock carried along: the same people wait, and a
      crossing lands on the same sides, with the clock advanced by the crossing's cost. */
  lemma TimedAgrees(order: seq<nat>, s: Bank1, a: nat, b: nat)
    ensures Waiting1(order, s) == Bridge.Waiting(order, (s.0, s.1))
    ensures var (t, m) := Bridge.Cross2((s.0, s.1), a, b);
      Cross1(s, a, b) == ((t.0, t.1, s.2 + Bridge.Bcost(m)), m)
  {
  }

  /** The dict keeps, for the pair {a, b}, the crossing whose `a` comes later in the enumeration. */
  lemma BsuccessorsRecords(order: seq<nat>, s: Bank1, i: nat, j: nat)
    requires Distinct(order) && j <= i < |Waiting1(order, s)|
    ensures Cross1(s, Waiting1(order, s)[i], Waiting1(order, s)[j]) in Bsuccessors(order, s)
  {
    var ps := Waiting1(order, s);
    var side := LightSide(s.0, s.1);
    ListedDistinct(order, Times(side));
    ListedMembers(order, Times(side));
    Bridge.TimesMember(side, ps[i]);
    Bridge.TimesMember(side, ps[j]);
    forall c, q | c in ps && q in ps
      ensures Cross1(s, c, q).0 == Cross1(s, ps[i], ps[j]).0 <==> (c == ps[i] && q == ps[j]) || (c == ps[j] && q == ps[i])
    {
      Bridge.TimesMember(side, c);
      Bridge.TimesMember(side, q);
      MovedDetermined(side, ps[i], ps[j], c, q);
    }
    RecordedPair(ps, Cross1Fn(s), i, j);
  }

  /** A crossing advances the clock by its slower walker. */
  lemma ClockStep(order: seq<nat>, s: Bank1, x: (Bank1, Bridge.Crossing))
    requires x in Bsuccessors(order, s)
    ensures Clock(x.0) == Clock(s) + Bridge.Bcost(x.1)
  {
    SoundEntry(order, s, x);
  }

  /** So the clock never goes back. */
  lemma ClockAdvances(order: seq<nat>)
    ensures Monotone(Succ1(order), Clock)
  {
    forall s, k | 0 <= k < |Succ1(order)(s)| ensures Clock(s) <= Clock(Succ1(order)(s)[k].0) {
      ClockStep(order, s, Succ1(order)(s)[k]);
    }
  }

  /** The sum of the costs of the first n crossings of a path. */
  function CrossingTime(q: Path<Bank1, Bridge.Crossing>, n: nat): nat
    requires WellFormed(q) && n <= Steps(q)
  {
    if n == 0 then 0 else CrossingTime(q, n - 1) + Bridge.Bcost(ActionAt(q, n - 1))
  }

  /** Along a path of the search from a state whose clock is 0, such as `Start1(here)`, the
      clock is the sum of the crossings' costs so far. */
  lemma ClockIsSum(order: seq<nat>, start: Bank1, q: Path<Bank1, Bridge.Crossing>, n: nat)
    requires Clock(start) == 0 && ValidPath(q, start, Succ1(order)) && n <= Steps(q)
    ensures Clock(StateAt(q, n)) == CrossingTime(q, n)
  {
    forall k | 0 <= k < Steps(q)
      ensures Clock(StateAt(q, k + 1)) == Clock(StateAt(q, k)) + Bridge.Bcost(ActionAt(q, k))
    {
      ClockAlong(order, start, q, k);
    }
    ClockSumFrom(q, n);
  }

  /** A clock that starts at 0 and moves on by each crossing's cost holds their sum. */
  lemma {:induction false} ClockSumFrom(q: Path<Bank1, Bridge.Crossing>, n: nat)
    requires WellFormed(q) && n <= Steps(q) && Clock(StateAt(q, 0)) == 0
    requires forall k :: 0 <= k < Steps(q) ==> Clock(StateAt(q, k + 1)) == Clock(StateAt(q, k)) + Bridge.Bcost(ActionAt(q, k))
    ensures Clock(StateAt(q, n)) == CrossingTime(q, n)
  {
    if n > 0 {
      ClockSumFrom(q, n - 1);
    }
  }

  /** Each step of a path moves the clock on by the crossing's cost. */
  lemma ClockAlong(order: seq<nat>, start: Bank1, q: Path<Bank1, Bridge.Crossing>, k: nat)
    requires ValidPath(q, start, Succ1(order)) && k < Steps(q)
    ensures Clock(StateAt(q, k + 1)) == Clock(StateAt(q, k)) + Bridge.Bcost(ActionAt(q, k))
  {
    var s, t, m := StateAt(q, k), StateAt(q, k + 1), ActionAt(q, k);
    assert (t, m) in Bsuccessors(order, s);
    ClockStep(order, s, (t, m));
  }

  /** `bridge_problem`, for at most `fuel` pops (None when the fuel runs out): the answer gets
      everybody over and takes no longer than any way across; `Fail` means there is none. */
  method BridgeProblem(order: seq<nat>, here: seq<nat>, fuel: nat) returns (r: Option<Path<Bank1, Bridge.Crossing>>)
    requires Distinct(order) && forall t :: t in here ==> t in order
    ensures r.Some? && r.value != [] ==> GoalPath(r.value, Start1(here), Succ1(order), Done)
    ensures r.Some? && r.value != [] ==>
      forall q :: GoalPath(q, Start1(here), Succ1(order), Done) ==> ElapsedTime(Clock, r.value) <= ElapsedTime(Clock, q)
    ensures r == Some([]) ==> forall q :: ValidPath(q, Start1(here), Succ1(order)) ==> !Done(LastState(q))
  {
    ClockAdvances(order);
    r := ElapsedTimeSearch(Start1(here), Succ1(order), Done, Clock, fuel);
  }

  /** A path the doctest accepts for `bridge_problem([1, 2, 5, 10])`: the second of the two
      equally quick ways across, with the clock in every state. */
  function TimedExpectedPath(): Path<Bank1, Bridge.Crossing> {
    [St(({Person(1), Person(2), Light, Person(10), Person(5)}, {}, 0)),
     Act((2, 1, "->")),
     St(({Person(10), Person(5)}, {Person(1), Person(2), Light}, 2)),
     Act((2, 2, "<-")),
     St(({Light, Person(10), Person(2), Person(5)}, {Person(1)}, 4)),
     Act((5, 10, "->")),
     St(({Person(2)}, {Person(1), Person(10), Person(5), Light}, 14)),
     Act((1, 1, "<-")),
     St(({Person(1), Person(2), Light}, {Person(10), Person(5)}, 15)),
     Act((2, 1, "->")),
     St(({}, {Person(1), Person(10), Person(2), Person(5), Light}, 17))]
  }

  /** With the enumeration order 1, 2, 10, 5 it is a path of the search that gets everybody
      over in 17. */
  lemma TimedExpectedPathValid()
    ensures GoalPath(TimedExpectedPath(), Start1([1, 2, 5, 10]), Succ1([1, 2, 10, 5]), Done)
    ensures ElapsedTime(Clock, TimedExpectedPath()) == 17
  {
    var p := TimedExpectedPath();
    assert WellFormed(p);
    TimedExpectedStart();
    forall k | 0 <= k < Steps(p) ensures (StateAt(p, k + 1), ActionAt(p, k)) in Succ1([1, 2, 10, 5])(StateAt(p, k)) {
      TimedExpectedCrossing(k);
    }
    assert LastState(p) == StateAt(p, 5);
  }

  lemma TimedExpectedStart()
    ensures WellFormed(TimedExpectedPath()) && StateAt(TimedExpectedPath(), 0) == Start1([1, 2, 5, 10])
  {
    var here: seq<nat> := [1, 2, 5, 10];
    assert Bridge.ToSet(here) == {1, 2, 5, 10};
    assert People(Bridge.ToSet(here)) == {Person(1), Person(2), Person(10), Person(5)};
    var s0: Bank1 := ({Person(1), Person(2), Light, Person(10), Person(5)}, {}, 0);
    assert Start1(here).0 == s0.0;
    assert Start1(here) == s0;
  }

  lemma TimedExpectedCrossing(k: nat)
    requires k < 5
    ensures var p := TimedExpectedPath();
      WellFormed(p) && (StateAt(p, k + 1), ActionAt(p, k)) in Succ1([1, 2, 10, 5])(StateAt(p, k))
  {
    if k == 0 {
      TimedStep0(k);
    } else if k == 1 {
      TimedStep1(k);
    } else if k == 2 {
      TimedStep2(k);
    } else if k == 3 {
      TimedStep3(k);
    } else {
      TimedStep4(k);
    }
  }

  /** The conditions under which the dict for s records the crossing of the i-th and j-th
      waiting people, reaching t by the action act. */
  predicate TimedRecorded(order: seq<nat>, s: Bank1, i: nat, j: nat, t: Bank1, act: Bridge.Crossing) {
    Distinct(order) && j <= i < |Waiting1(order, s)| && Cross1(s, Waiting1(order, s)[i], Waiting1(order, s)[j]) == (t, act)
  }

  lemma TimedStep0(k: nat)
    requires k == 0
    ensures var p := TimedExpectedPath();
      WellFormed(p) && (StateAt(p, k + 1), ActionAt(p, k)) in Succ1([1, 2, 10, 5])(StateAt(p, k))
  {
    var p := TimedExpectedPath();
    assert WellFormed(p);
    TimedCrossing0(StateAt(p, 0), StateAt(p, 1));
    BsuccessorsRecords([1, 2, 10, 5], StateAt(p, 0), 1, 0);
    assert ActionAt(p, 0) == (2, 1, "->");
  }

  lemma TimedStep1(k: nat)
    requires k == 1
    ensures var p := TimedExpectedPath();
      WellFormed(p) && (StateAt(p, k + 1), ActionAt(p, k)) in Succ1([1, 2, 10, 5])(StateAt(p, k))
  {
    var p := TimedExpectedPath();
    assert WellFormed(p);
    TimedCrossing1(StateAt(p, 1), StateAt(p, 2));
    BsuccessorsRecords([1, 2, 10, 5], StateAt(p, 1), 1, 1);
    assert ActionAt(p, 1) == (2, 2, "<-");
  }

  lemma TimedStep2(k: nat)
    requires k == 2
    ensures var p := TimedExpectedPath();
      WellFormed(p) && (StateAt(p, k + 1), ActionAt(p, k)) in Succ1([1, 2, 10, 5])(StateAt(p, k))
  {
    var p := TimedExpectedPath();
    assert WellFormed(p);
    TimedCrossing2(StateAt(p, 2), StateAt(p, 3));
    BsuccessorsRecords([1, 2, 10, 5], StateAt(p, 2), 2, 1);
    assert ActionAt(p, 2) == (5, 10, "->");
  }

  lemma TimedStep3(k: nat)
    requires k == 3
    ensures var p := TimedExpectedPath();
      WellFormed(p) && (StateAt(p, k + 1), ActionAt(p, k)) in Succ1([1, 2, 10, 5])(StateAt(p, k))
  {
    var p := TimedExpectedPath();
    assert WellFormed(p);
    TimedCrossing3(StateAt(p, 3), StateAt(p, 4));
    BsuccessorsRecords([1, 2, 10, 5], StateAt(p, 3), 0, 0);
    assert ActionAt(p, 3) == (1, 1, "<-");
  }

  lemma TimedStep4(k: nat)
    requires k == 4
    ensures var p := TimedExpectedPath();
      WellFormed(p) && (StateAt(p, k + 1), ActionAt(p, k)) in Succ1([1, 2, 10, 5])(StateAt(p, k))
  {
    var p := TimedExpectedPath();
    assert WellFormed(p);
    TimedCrossing4(StateAt(p, 4), StateAt(p, 5));
    BsuccessorsRecords([1, 2, 10, 5], StateAt(p, 4), 1, 0);
    assert ActionAt(p, 4) == (2, 1, "->");
  }

  lemma TimedCrossing0(s: Bank1, t: Bank1)
    requires s == ({Person(1), Person(2), Light, Person(10), Person(5)}, {}, 0)
    requires t == ({Person(10), Person(5)}, {Person(1), Person(2), Light}, 2)
    ensures TimedRecorded([1, 2, 10, 5], s, 1, 0, t, (2, 1, "->"))
  {
    assert s.0 - Moved(2, 1) == t.0;
    assert s.1 + Moved(2, 1) == t.1;
    Bridge.Waiting0((s.0, s.1));
  }

  lemma TimedCrossing1(s: Bank1, t: Bank1)
    requires s == ({Person(10), Person(5)}, {Person(1), Person(2), Light}, 2)
    requires t == ({Light, Person(10), Person(2), Person(5)}, {Person(1)}, 4)
    ensures TimedRecorded([1, 2, 10, 5], s, 1, 1, t, (2, 2, "<-"))
  {
    assert s.0 + Moved(2, 2) == t.0;
    assert s.1 - Moved(2, 2) == t.1;
    Bridge.Waiting1((s.0, s.1));
  }

  lemma TimedCrossing2(s: Bank1, t: Bank1)
    requires s == ({Light, Person(10), Person(2), Person(5)}, {Person(1)}, 4)
    requires t == ({Person(2)}, {Person(1), Person(10), Person(5), Light}, 14)
    ensures TimedRecorded([1, 2, 10, 5], s, 2, 1, t, (5, 10, "->"))
  {
    assert s.0 - Moved(5, 10) == t.0;
    assert s.1 + Moved(5, 10) == t.1;
    Bridge.Waiting2((s.0, s.1));
  }

  lemma TimedCrossing3(s: Bank1, t: Bank1)
    requires s == ({Person(2)}, {Person(1), Person(10), Person(5), Light}, 14)
    requires t == ({Person(1), Person(2), Light}, {Person(10), Person(5)}, 15)
    ensures TimedRecorded([1, 2, 10, 5], s, 0, 0, t, (1, 1, "<-"))
  {
    assert s.0 + Moved(1, 1) == t.0;
    assert s.1 - Moved(1, 1) == t.1;
    Bridge.Waiting3((s.0, s.1));
  }

  lemma TimedCrossing4(s: Bank1, t: Bank1)
    requires s == ({Person(1), Person(2), Light}, {Person(10), Person(5)}, 15)
    requires t == ({}, {Person(1), Person(10), Person(2), Person(5), Light}, 17)
    ensures TimedRecorded([1, 2, 10, 5], s, 1, 0, t, (2, 1, "->"))
  {
    assert s.0 - Moved(2, 1) == t.0;
    assert s.1 + Moved(2, 1) == t.1;
    Bridge.Waiting4((s.0, s.1));
  }

  /** Along any path of the search for 1, 2, 5 and 10 the clock plus the time still needed
      from the sides reached is at least 17. */
  lemma {:induction false} TimedRemainingAlong(order: seq<nat>, q: Path<Bank1, Bridge.Crossing>, k: nat)
    requires ValidPath(q, Start1([1, 2, 5, 10]), Succ1(order)) && k <= Steps(q)
    ensures var s := StateAt(q, k); Bridge.Split((s.0, s.1)) && 17 <= Clock(s) + Bridge.Remaining((s.0, s.1))
  {
    if k == 0 {
      Bridge.StartFour();
    } else {
      TimedRemainingAlong(order, q, k - 1);
      assert (StateAt(q, k), ActionAt(q, k - 1)) in Bsuccessors(order, StateAt(q, k - 1));
      TimedRemainingStep(order, StateAt(q, k - 1), (StateAt(q, k), ActionAt(q, k - 1)));
    }
  }

  /** A crossing's time on the clock is no less than the drop in the time still needed. */
  lemma TimedRemainingStep(order: seq<nat>, s: Bank1, x: (Bank1, Bridge.Crossing))
    requires Bridge.Split((s.0, s.1)) && x in Bsuccessors(order, s)
    ensures var t := x.0; Bridge.Split((t.0, t.1))
    ensures Clock(s) + Bridge.Remaining((s.0, s.1)) <= Clock(x.0) + Bridge.Remaining((x.0.0, x.0.1))
  {
    SoundEntry(order, s, x);
    var a, b :| Person(a) in LightSide(s.0, s.1) && Person(b) in LightSide(s.0, s.1) && x == Cross1(s, a, b);
    TimedAgrees(order, s, a, b);
    Bridge.RemainingStep((s.0, s.1), a, b);
  }

  /** Nobody gets 1, 2, 5 and 10 across in less than 17 on the clock. */
  lemma TimedAtLeast17(order: seq<nat>, q: Path<Bank1, Bridge.Crossing>)
    requires GoalPath(q, Start1([1, 2, 5, 10]), Succ1(order), Done)
    ensures 17 <= ElapsedTime(Clock, q)
  {
    TimedRemainingAlong(order, q, Steps(q));
  }

  /** The doctest's first solution S1, with the clock in every state: 1 rather than 2 comes
      back first. */
  function TimedOtherPath(): Path<Bank1, Bridge.Crossing> {
    [St(({Person(1), Person(2), Light, Person(10), Person(5)}, {}, 0)),
     Act((2, 1, "->")),
     St(({Person(10), Person(5)}, {Person(1), Person(2), Light}, 2)),
     Act((1, 1, "<-")),
     St(({Light, Person(10), Person(1), Person(5)}, {Person(2)}, 3)),
     Act((5, 10, "->")),
     St(({Person(1)}, {Person(2), Person(10), Person(5), Light}, 13)),
     Act((2, 2, "<-")),
     St(({Person(1), Person(2), Light}, {Person(10), Person(5)}, 15)),
     Act((2, 1, "->")),
     St(({}, {Person(1), Person(10), Person(2), Person(5), Light}, 17))]
  }

  /** S1 too is a path of the search that gets everybody over in 17. */
  lemma TimedOtherPathValid()
    ensures GoalPath(TimedOtherPath(), Start1([1, 2, 5, 10]), Succ1([1, 2, 10, 5]), Done)
    ensures ElapsedTime(Clock, TimedOtherPath()) == 17
  {
    var p := TimedOtherPath();
    assert WellFormed(p);
    TimedExpectedStart();
    assert StateAt(p, 0) == StateAt(TimedExpectedPath(), 0);
    forall k | 0 <= k < Steps(p) ensures (StateAt(p, k + 1), ActionAt(p, k)) in Succ1([1, 2, 10, 5])(StateAt(p, k)) {
      TimedOtherCrossing(k);
    }
    assert LastState(p) == StateAt(p, 5);
  }

  lemma TimedOtherCrossing(k: nat)
    requires k < 5
    ensures var p := TimedOtherPath();
      WellFormed(p) && (StateAt(p, k + 1), ActionAt(p, k)) in Succ1([1, 2, 10, 5])(StateAt(p, k))
  {
    if k == 0 {
      OtherStep0(k);
    } else if k == 1 {
      OtherStep1(k);
    } else if k == 2 {
      OtherStep2(k);
    } else if k == 3 {
      OtherStep3(k);
    } else {
      OtherStep4(k);
    }
  }

  lemma OtherStep0(k: nat)
    requires k == 0
    ensures var p := TimedOtherPath();
      WellFormed(p) && (StateAt(p, k + 1), ActionAt(p, k)) in Succ1([1, 2, 10, 5])(StateAt(p, k))
  {
    var p := TimedOtherPath();
    assert WellFormed(p);
    TimedCrossing0(StateAt(p, 0), StateAt(p, 1));
    BsuccessorsRecords([1, 2, 10, 5], StateAt(p, 0), 1, 0);
    assert ActionAt(p, 0) == (2, 1, "->");
  }

  lemma OtherStep1(k: nat)
    requires k == 1
    ensures var p := TimedOtherPath();
      WellFormed(p) && (StateAt(p, k + 1), ActionAt(p, k)) in Succ1([1, 2, 10, 5])(StateAt(p, k))
  {
    var p := TimedOtherPath();
    assert WellFormed(p);
    OtherCrossing1(StateAt(p, 1), StateAt(p, 2));
    BsuccessorsRecords([1, 2, 10, 5], StateAt(p, 1), 0, 0);
    assert ActionAt(p, 1) == (1, 1, "<-");
  }

  lemma OtherStep2(k: nat)
    requires k == 2
    ensures var p := TimedOtherPath();
      WellFormed(p) && (StateAt(p, k + 1), ActionAt(p, k)) in Succ1([1, 2, 10, 5])(StateAt(p, k))
  {
    var p := TimedOtherPath();
    assert WellFormed(p);
    OtherCrossing2(StateAt(p, 2), StateAt(p, 3));
    BsuccessorsRecords([1, 2, 10, 5], StateAt(p, 2), 2, 1);
    assert ActionAt(p, 2) == (5, 10, "->");
  }

  lemma OtherStep3(k: nat)
    requires k == 3
    ensures var p := TimedOtherPath();
      WellFormed(p) && (StateAt(p, k + 1), ActionAt(p, k)) in Succ1([1, 2, 10, 5])(StateAt(p, k))
  {
    var p := TimedOtherPath();
    assert WellFormed(p);
    OtherCrossing3(StateAt(p, 3), StateAt(p, 4));
    BsuccessorsRecords([1, 2, 10, 5], StateAt(p, 3), 0, 0);
    assert ActionAt(p, 3) == (2, 2, "<-");
  }

  lemma OtherStep4(k: nat)
    requires k == 4
    ensures var p := TimedOtherPath();
      WellFormed(p) && (StateAt(p, k + 1), ActionAt(p, k)) in Succ1([1, 2, 10, 5])(StateAt(p, k))
  {
    var p := TimedOtherPath();
    assert WellFormed(p);
    TimedCrossing4(StateAt(p, 4), StateAt(p, 5));
    BsuccessorsRecords([1, 2, 10, 5], StateAt(p, 4), 1, 0);
    assert ActionAt(p, 4) == (2, 1, "->");
  }

  lemma OtherCrossing1(s: Bank1, t: Bank1)
    requires s == ({Person(10), Person(5)}, {Person(1), Person(2), Light}, 2)
    requires t == ({Light, Person(10), Person(1), Person(5)}, {Person(2)}, 3)
    ensures TimedRecorded([1, 2, 10, 5], s, 0, 0, t, (1, 1, "<-"))
  {
    assert s.0 + Moved(1, 1) == t.0;
    assert s.1 - Moved(1, 1) == t.1;
    Bridge.Waiting1((s.0, s.1));
  }

  lemma OtherCrossing2(s: Bank1, t: Bank1)
    requires s == ({Light, Person(10), Person(1), Person(5)}, {Person(2)}, 3)
    requires t == ({Person(1)}, {Person(2), Person(10), Person(5), Light}, 13)
    ensures TimedRecorded([1, 2, 10, 5], s, 2, 1, t, (5, 10, "->"))
  {
    assert s.0 - Moved(5, 10) == t.0;
    assert s.1 + Moved(5, 10) == t.1;
    Bridge.Waiting5((s.0, s.1));
  }

  lemma OtherCrossing3(s: Bank1, t: Bank1)
    requires s == ({Person(1)}, {Person(2), Person(10), Person(5), Light}, 13)
    requires t == ({Person(1), Person(2), Light}, {Person(10), Person(5)}, 15)
    ensures TimedRecorded([1, 2, 10, 5], s, 0, 0, t, (2, 2, "<-"))
  {
    assert s.0 + Moved(2, 2) == t.0;
    assert s.1 - Moved(2, 2) == t.1;
    Bridge.Waiting6((s.0, s.1));
  }

  /** The clock plus the time still needed: no way across through s takes less. */
  function LeastTotal(s: Bank1): nat {
    Clock(s) + Bridge.Remaining((s.0, s.1))
  }

  /** An entry of the dict that loses no time against the time still needed. */
  predicate TightEntry(order: seq<nat>, s: Bank1, x: (Bank1, Bridge.Crossing)) {
    x in Bsuccessors(order, s) && LeastTotal(s) == LeastTotal(x.0)
  }

  /** A tight entry is a tight crossing of two people standing with the light. */
  lemma TightMovers(order: seq<nat>, s: Bank1, x: (Bank1, Bridge.Crossing)) returns (a: nat, b: nat)
    requires Bridge.Split((s.0, s.1)) && TightEntry(order, s, x)
    ensures Person(a) in LightSide(s.0, s.1) && Person(b) in LightSide(s.0, s.1) && x == Cross1(s, a, b)
    ensures Bridge.Tight((s.0, s.1), a, b)
  {
    SoundEntry(order, s, x);
    a, b :| Person(a) in LightSide(s.0, s.1) && Person(b) in LightSide(s.0, s.1) && x == Cross1(s, a, b);
    TimedAgrees(order, s, a, b);
  }

  /** The dict holds one entry per state reached. */
  lemma OneEntryPerState(order: seq<nat>, s: Bank1, x: (Bank1, Bridge.Crossing), y: (Bank1, Bridge.Crossing))
    requires x in Bsuccessors(order, s) && y in Bsuccessors(order, s) && x.0 == y.0
    ensures x == y
  {
    var ps := Waiting1(order, s);
    DictFromPairsItems(Trips(ps, ps, Cross1Fn(s)));
  }

  /** Whichever order the pair is written in, the dict's entry for it is the recorded one. */
  lemma SamePairEntry(order: seq<nat>, s: Bank1, x: (Bank1, Bridge.Crossing), a: nat, b: nat, c: nat, d: nat)
    requires x in Bsuccessors(order, s) && x == Cross1(s, a, b) && Cross1(s, c, d) in Bsuccessors(order, s)
    requires (a == c && b == d) || (a == d && b == c)
    ensures x == Cross1(s, c, d)
  {
    assert Moved(a, b) == Moved(c, d);
    OneEntryPerState(order, s, x, Cross1(s, c, d));
  }

  /** From the start the one tight entry sends 1 and 2 over. */
  lemma TightFromStart(s: Bank1, x: (Bank1, Bridge.Crossing))
    requires s == ({Person(1), Person(2), Light, Person(10), Person(5)}, {}, 0)
    requires Bridge.Split((s.0, s.1)) && TightEntry([1, 2, 10, 5], s, x)
    ensures x == (({Person(10), Person(5)}, {Person(1), Person(2), Light}, 2), (2, 1, "->"))
  {
    var t := ({Person(10), Person(5)}, {Person(1), Person(2), Light}, 2);
    var a, b := TightMovers([1, 2, 10, 5], s, x);
    Bridge.TightCrossings((s.0, s.1), a, b);
    TimedCrossing0(s, t);
    BsuccessorsRecords([1, 2, 10, 5], s, 1, 0);
    SamePairEntry([1, 2, 10, 5], s, x, a, b, 2, 1);
    //->")));
  }

  /** With 5 and 10 left here, 1 or 2 comes back alone. */
  lemma TightFromFirst(s: Bank1, x: (Bank1, Bridge.Crossing))
    requires s == ({Person(10), Person(5)}, {Person(1), Person(2), Light}, 2)
    requires Bridge.Split((s.0, s.1)) && TightEntry([1, 2, 10, 5], s, x)
    ensures x == (({Light, Person(10), Person(1), Person(5)}, {Person(2)}, 3), (1, 1, "<-"))
         || x == (({Light, Person(10), Person(2), Person(5)}, {Person(1)}, 4), (2, 2, "<-"))
  {
    var a, b := TightMovers([1, 2, 10, 5], s, x);
    Bridge.TightCrossings((s.0, s.1), a, b);
    ComeBackAlone(s);
  }

  /** With 5 and 10 left behind, 1 or 2 coming back alone. */
  lemma ComeBackAlone(s: Bank1)
    requires s == ({Person(10), Person(5)}, {Person(1), Person(2), Light}, 2)
    ensures Cross1(s, 1, 1) == (({Light, Person(10), Person(1), Person(5)}, {Person(2)}, 3), (1, 1, "<-"))
    ensures Cross1(s, 2, 2) == (({Light, Person(10), Person(2), Person(5)}, {Person(1)}, 4), (2, 2, "<-"))
  {
    assert s.0 + Moved(1, 1) == {Light, Person(10), Person(1), Person(5)};
    assert s.1 - Moved(1, 1) == {Person(2)};
    assert s.0 + Moved(2, 2) == {Light, Person(10), Person(2), Person(5)};
    assert s.1 - Moved(2, 2) == {Person(1)};
  }

  /** After 1 came back, 5 and 10 go over together. */
  lemma TightFromOne(s: Bank1, x: (Bank1, Bridge.Crossing))
    requires s == ({Light, Person(10), Person(1), Person(5)}, {Person(2)}, 3)
    requires Bridge.Split((s.0, s.1)) && TightEntry([1, 2, 10, 5], s, x)
    ensures x == (({Person(1)}, {Person(2), Person(10), Person(5), Light}, 13), (5, 10, "->"))
  {
    var t := ({Person(1)}, {Person(2), Person(10), Person(5), Light}, 13);
    var a, b := TightMovers([1, 2, 10, 5], s, x);
    Bridge.TightCrossings((s.0, s.1), a, b);
    OtherCrossing2(s, t);
    BsuccessorsRecords([1, 2, 10, 5], s, 2, 1);
    SamePairEntry([1, 2, 10, 5], s, x, a, b, 5, 10);
    //->")));
  }

  /** After 2 came back, 5 and 10 go over together. */
  lemma TightFromTwo(s: Bank1, x: (Bank1, Bridge.Crossing))
    requires s == ({Light, Person(10), Person(2), Person(5)}, {Person(1)}, 4)
    requires Bridge.Split((s.0, s.1)) && TightEntry([1, 2, 10, 5], s, x)
    ensures x == (({Person(2)}, {Person(1), Person(10), Person(5), Light}, 14), (5, 10, "->"))
  {
    var t := ({Person(2)}, {Person(1), Person(10), Person(5), Light}, 14);
    var a, b := TightMovers([1, 2, 10, 5], s, x);
    Bridge.TightCrossings((s.0, s.1), a, b);
    TimedCrossing2(s, t);
    BsuccessorsRecords([1, 2, 10, 5], s, 2, 1);
    SamePairEntry([1, 2, 10, 5], s, x, a, b, 5, 10);
    //->")));
  }

  /** With 1 alone here, 2 comes back. */
  lemma TightFromOneLeft(s: Bank1, x: (Bank1, Bridge.Crossing))
    requires s == ({Person(1)}, {Person(2), Person(10), Person(5), Light}, 13)
    requires Bridge.Split((s.0, s.1)) && TightEntry([1, 2, 10, 5], s, x)
    ensures x == (({Person(1), Person(2), Light}, {Person(10), Person(5)}, 15), (2, 2, "<-"))
  {
    var a, b := TightMovers([1, 2, 10, 5], s, x);
    Bridge.TightCrossings((s.0, s.1), a, b);
    assert s.0 + Moved(2, 2) == {Person(1), Person(2), Light};
    assert s.1 - Moved(2, 2) == {Person(10), Person(5)};
  }

  /** With 2 alone here, 1 comes back. */
  lemma TightFromTwoLeft(s: Bank1, x: (Bank1, Bridge.Crossing))
    requires s == ({Person(2)}, {Person(1), Person(10), Person(5), Light}, 14)
    requires Bridge.Split((s.0, s.1)) && TightEntry([1, 2, 10, 5], s, x)
    ensures x == (({Person(1), Person(2), Light}, {Person(10), Person(5)}, 15), (1, 1, "<-"))
  {
    var a, b := TightMovers([1, 2, 10, 5], s, x);
    Bridge.TightCrossings((s.0, s.1), a, b);
    assert s.0 + Moved(1, 1) == {Person(1), Person(2), Light};
    assert s.1 - Moved(1, 1) == {Person(10), Person(5)};
  }

  /** With 1 and 2 here again, they go over together. */
  lemma TightFromLast(s: Bank1, x: (Bank1, Bridge.Crossing))
    requires s == ({Person(1), Person(2), Light}, {Person(10), Person(5)}, 15)
    requires Bridge.Split((s.0, s.1)) && TightEntry([1, 2, 10, 5], s, x)
    ensures x == (({}, {Person(1), Person(10), Person(2), Person(5), Light}, 17), (2, 1, "->"))
  {
    var t := ({}, {Person(1), Person(10), Person(2), Person(5), Light}, 17);
    var a, b := TightMovers([1, 2, 10, 5], s, x);
    Bridge.TightCrossings((s.0, s.1), a, b);
    TimedCrossing4(s, t);
    BsuccessorsRecords([1, 2, 10, 5], s, 1, 0);
    SamePairEntry([1, 2, 10, 5], s, x, a, b, 2, 1);
    //->")));
  }

  /** Along a path the clock plus the time still needed never falls back. */
  lemma {:induction false} NoLaterSooner(order: seq<nat>, q: Path<Bank1, Bridge.Crossing>, start: Bank1, k: nat)
    requires ValidPath(q, start, Succ1(order)) && k <= Steps(q) && Bridge.Split((StateAt(q, k).0, StateAt(q, k).1))
    ensures LeastTotal(StateAt(q, k)) <= LeastTotal(LastState(q))
    decreases Steps(q) - k
  {
    if k < Steps(q) {
      assert (StateAt(q, k + 1), ActionAt(q, k)) in Bsuccessors(order, StateAt(q, k));
      TimedRemainingStep(order, StateAt(q, k), (StateAt(q, k + 1), ActionAt(q, k)));
      NoLaterSooner(order, q, start, k + 1);
    }
  }

  /** A way to get 1, 2, 5 and 10 over in 17. */
  ghost predicate Quickest(q: Path<Bank1, Bridge.Crossing>) {
    GoalPath(q, Start1([1, 2, 5, 10]), Succ1([1, 2, 10, 5]), Done) && ElapsedTime(Clock, q) == 17
  }

  /** On a way across in 17, every crossing is tight. */
  lemma TightAt(q: Path<Bank1, Bridge.Crossing>, k: nat)
    requires Quickest(q) && k < Steps(q)
    ensures Bridge.Split((StateAt(q, k).0, StateAt(q, k).1))
    ensures TightEntry([1, 2, 10, 5], StateAt(q, k), (StateAt(q, k + 1), ActionAt(q, k)))
  {
    var order := [1, 2, 10, 5];
    TimedRemainingAlong(order, q, k);
    TimedRemainingAlong(order, q, k + 1);
    assert (StateAt(q, k + 1), ActionAt(q, k)) in Bsuccessors(order, StateAt(q, k));
    TimedRemainingStep(order, StateAt(q, k), (StateAt(q, k + 1), ActionAt(q, k)));
    NoLaterSooner(order, q, Start1([1, 2, 5, 10]), k + 1);
  }

  /** The states and crossings of the two solutions, one by one. */
  lemma OtherShape()
    ensures WellFormed(TimedOtherPath()) && Steps(TimedOtherPath()) == 5
    ensures StateAt(TimedOtherPath(), 0) == ({Person(1), Person(2), Light, Person(10), Person(5)}, {}, 0)
    ensures StateAt(TimedOtherPath(), 1) == ({Person(10), Person(5)}, {Person(1), Person(2), Light}, 2)
    ensures StateAt(TimedOtherPath(), 2) == ({Light, Person(10), Person(1), Person(5)}, {Person(2)}, 3)
    ensures StateAt(TimedOtherPath(), 3) == ({Person(1)}, {Person(2), Person(10), Person(5), Light}, 13)
    ensures StateAt(TimedOtherPath(), 4) == ({Person(1), Person(2), Light}, {Person(10), Person(5)}, 15)
    ensures StateAt(TimedOtherPath(), 5) == ({}, {Person(1), Person(10), Person(2), Person(5), Light}, 17)
    ensures ActionAt(TimedOtherPath(), 0) == (2, 1, "->")
    ensures ActionAt(TimedOtherPath(), 1) == (1, 1, "<-")
    ensures ActionAt(TimedOtherPath(), 2) == (5, 10, "->")
    ensures ActionAt(TimedOtherPath(), 3) == (2, 2, "<-")
    ensures ActionAt(TimedOtherPath(), 4) == (2, 1, "->")
  {
    assert WellFormed(TimedOtherPath());
  }

  lemma ExpectedShape()
    ensures WellFormed(TimedExpectedPath()) && Steps(TimedExpectedPath()) == 5
    ensures StateAt(TimedExpectedPath(), 0) == ({Person(1), Person(2), Light, Person(10), Person(5)}, {}, 0)
    ensures StateAt(TimedExpectedPath(), 1) == ({Person(10), Person(5)}, {Person(1), Person(2), Light}, 2)
    ensures StateAt(TimedExpectedPath(), 2) == ({Light, Person(10), Person(2), Person(5)}, {Person(1)}, 4)
    ensures StateAt(TimedExpectedPath(), 3) == ({Person(2)}, {Person(1), Person(10), Person(5), Light}, 14)
    ensures StateAt(TimedExpectedPath(), 4) == ({Person(1), Person(2), Light}, {Person(10), Person(5)}, 15)
    ensures StateAt(TimedExpectedPath(), 5) == ({}, {Person(1), Person(10), Person(2), Person(5), Light}, 17)
    ensures ActionAt(TimedExpectedPath(), 0) == (2, 1, "->")
    ensures ActionAt(TimedExpectedPath(), 1) == (2, 2, "<-")
    ensures ActionAt(TimedExpectedPath(), 2) == (5, 10, "->")
    ensures ActionAt(TimedExpectedPath(), 3) == (1, 1, "<-")
    ensures ActionAt(TimedExpectedPath(), 4) == (2, 1, "->")
  {
    assert WellFormed(TimedExpectedPath());
  }

  /** Every way across starts where S2 does. */
  lemma FollowFrom(q: Path<Bank1, Bridge.Crossing>)
    requires Quickest(q)
    ensures Follows(q, TimedExpectedPath(), 0)
  {
    ExpectedShape();
    TimedExpectedStart();
  }

  /** Every way across in 17 starts as S2 does, with 1 and 2 going over. */
  lemma FollowStart(q: Path<Bank1, Bridge.Crossing>)
    requires Quickest(q) && Follows(q, TimedExpectedPath(), 0)
    ensures Follows(q, TimedExpectedPath(), 1) && 1 < Steps(q)
  {
    var p := TimedExpectedPath();
    ExpectedShape();
    FollowsState(q, p, 0);
    TightAt(q, 0);
    TightFromStart(StateAt(q, 0), (StateAt(q, 1), ActionAt(q, 0)));
    FollowsOn(q, p, 0);
  }

  /** S1 starts as S2 does. */
  lemma SameStart(q: Path<Bank1, Bridge.Crossing>)
    requires Follows(q, TimedExpectedPath(), 1)
    ensures Follows(q, TimedOtherPath(), 1)
  {
    assert WellFormed(TimedOtherPath());
    assert TimedOtherPath()[..3] == TimedExpectedPath()[..3];
  }

  /** Then 1 comes back, as in S1, ... */
  lemma FollowOtherFirst(q: Path<Bank1, Bridge.Crossing>)
    requires Quickest(q) && Follows(q, TimedOtherPath(), 1) && 1 < Steps(q) && ActionAt(q, 1) == (1, 1, "<-")
    ensures Follows(q, TimedOtherPath(), 2)
  {
    var p := TimedOtherPath();
    OtherShape();
    FollowsState(q, p, 1);
    TightAt(q, 1);
    TightFromFirst(StateAt(q, 1), (StateAt(q, 2), ActionAt(q, 1)));
    FollowsOn(q, p, 1);
  }

  /** ... or 2 does, as in S2. */
  lemma FollowExpectedFirst(q: Path<Bank1, Bridge.Crossing>)
    requires Quickest(q) && Follows(q, TimedExpectedPath(), 1) && 1 < Steps(q) && ActionAt(q, 1) != (1, 1, "<-")
    ensures Follows(q, TimedExpectedPath(), 2)
  {
    var p := TimedExpectedPath();
    ExpectedShape();
    FollowsState(q, p, 1);
    TightAt(q, 1);
    TightFromFirst(StateAt(q, 1), (StateAt(q, 2), ActionAt(q, 1)));
    FollowsOn(q, p, 1);
  }

  /** In S1, 5 and 10 then go over. */
  lemma FollowOtherSecond(q: Path<Bank1, Bridge.Crossing>)
    requires Quickest(q) && Follows(q, TimedOtherPath(), 2)
    ensures Follows(q, TimedOtherPath(), 3)
  {
    var p := TimedOtherPath();
    OtherShape();
    FollowsState(q, p, 2);
    TightAt(q, 2);
    TightFromOne(StateAt(q, 2), (StateAt(q, 3), ActionAt(q, 2)));
    FollowsOn(q, p, 2);
  }

  /** In S1, 2 then comes back. */
  lemma FollowOtherThird(q: Path<Bank1, Bridge.Crossing>)
    requires Quickest(q) && Follows(q, TimedOtherPath(), 3)
    ensures Follows(q, TimedOtherPath(), 4)
  {
    var p := TimedOtherPath();
    OtherShape();
    FollowsState(q, p, 3);
    TightAt(q, 3);
    TightFromOneLeft(StateAt(q, 3), (StateAt(q, 4), ActionAt(q, 3)));
    FollowsOn(q, p, 3);
  }

  /** In S1, 1 and 2 then go over. */
  lemma FollowOtherLast(q: Path<Bank1, Bridge.Crossing>)
    requires Quickest(q) && Follows(q, TimedOtherPath(), 4)
    ensures Follows(q, TimedOtherPath(), 5)
  {
    var p := TimedOtherPath();
    OtherShape();
    FollowsState(q, p, 4);
    TightAt(q, 4);
    TightFromLast(StateAt(q, 4), (StateAt(q, 5), ActionAt(q, 4)));
    FollowsOn(q, p, 4);
  }

  /** In S2, 5 and 10 then go over. */
  lemma FollowExpectedSecond(q: Path<Bank1, Bridge.Crossing>)
    requires Quickest(q) && Follows(q, TimedExpectedPath(), 2)
    ensures Follows(q, TimedExpectedPath(), 3)
  {
    var p := TimedExpectedPath();
    ExpectedShape();
    FollowsState(q, p, 2);
    TightAt(q, 2);
    TightFromTwo(StateAt(q, 2), (StateAt(q, 3), ActionAt(q, 2)));
    FollowsOn(q, p, 2);
  }

  /** In S2, 1 then comes back. */
  lemma FollowExpectedThird(q: Path<Bank1, Bridge.Crossing>)
    requires Quickest(q) && Follows(q, TimedExpectedPath(), 3)
    ensures Follows(q, TimedExpectedPath(), 4)
  {
    var p := TimedExpectedPath();
    ExpectedShape();
    FollowsState(q, p, 3);
    TightAt(q, 3);
    TightFromTwoLeft(StateAt(q, 3), (StateAt(q, 4), ActionAt(q, 3)));
    FollowsOn(q, p, 3);
  }

  /** In S2, 1 and 2 then go over. */
  lemma FollowExpectedLast(q: Path<Bank1, Bridge.Crossing>)
    requires Quickest(q) && Follows(q, TimedExpectedPath(), 4)
    ensures Follows(q, TimedExpectedPath(), 5)
  {
    var p := TimedExpectedPath();
    ExpectedShape();
    FollowsState(q, p, 4);
    TightAt(q, 4);
    TightFromLast(StateAt(q, 4), (StateAt(q, 5), ActionAt(q, 4)));
    FollowsOn(q, p, 4);
  }

  /** A crossing that loses no time leaves from a side with somebody on it. */
  lemma TightNeedsSomeone(order: seq<nat>, s: Bank1, x: (Bank1, Bridge.Crossing))
    requires Bridge.Split((s.0, s.1)) && TightEntry(order, s, x)
    ensures s.0 != {}
  {
    var a, b := TightMovers(order, s, x);
    Bridge.TightCrossings((s.0, s.1), a, b);
  }

  /** With everybody over no crossing is tight, so a way across in 17 that has reached p's
      last state ends there. */
  lemma FollowEnd(q: Path<Bank1, Bridge.Crossing>, p: Path<Bank1, Bridge.Crossing>)
    requires Quickest(q) && Follows(q, p, 5) && Steps(p) == 5 && StateAt(p, 5).0 == {}
    ensures q == p
  {
    FollowsState(q, p, 5);
    if Steps(q) > 5 {
      TightAt(q, 5);
      TightNeedsSomeone([1, 2, 10, 5], StateAt(q, 5), (StateAt(q, 6), ActionAt(q, 5)));
    }
    FollowsAll(q, p);
  }


  /** The doctest's two solutions are the only ways to get 1, 2, 5 and 10 over in 17. */
  lemma QuickestPaths(q: Path<Bank1, Bridge.Crossing>)
    requires Quickest(q)
    ensures q == TimedOtherPath() || q == TimedExpectedPath()
  {
    FollowFrom(q);
    FollowStart(q);
    if ActionAt(q, 1) == (1, 1, "<-") {
      SameStart(q);
      FollowOtherFirst(q);
      FollowOtherSecond(q);
      FollowOtherThird(q);
      FollowOtherLast(q);
      FollowEnd(q, TimedOtherPath());
    } else {
      FollowExpectedFirst(q);
      FollowExpectedSecond(q);
      FollowExpectedThird(q);
      FollowExpectedLast(q);
      FollowEnd(q, TimedExpectedPath());
    }
  }

  /** The actions of S1 and S2, as the doctest writes them. */
  lemma SolutionActions()
    ensures OddSlice(TimedOtherPath()) == [Act((2, 1, "->")), Act((1, 1, "<-")), Act((5, 10, "->")), Act((2, 2, "<-")), Act((2, 1, "->"))]
    ensures OddSlice(TimedExpectedPath()) == [Act((2, 1, "->")), Act((2, 2, "<-")), Act((5, 10, "->")), Act((1, 1, "<-")), Act((2, 1, "->"))]
  {
    OtherShape();
    FiveActions(TimedOtherPath(), (2, 1, "->"), (1, 1, "<-"), (5, 10, "->"), (2, 2, "<-"), (2, 1, "->"));
    ExpectedShape();
    FiveActions(TimedExpectedPath(), (2, 1, "->"), (2, 2, "<-"), (5, 10, "->"), (1, 1, "<-"), (2, 1, "->"));
  }

  /** The odd slice of a five-step path lists its five actions. */
  lemma FiveActions<S, A>(p: Path<S, A>, a0: A, a1: A, a2: A, a3: A, a4: A)
    requires WellFormed(p) && Steps(p) == 5
    requires ActionAt(p, 0) == a0 && ActionAt(p, 1) == a1 && ActionAt(p, 2) == a2
    requires ActionAt(p, 3) == a3 && ActionAt(p, 4) == a4
    ensures OddSlice(p) == [Act(a0), Act(a1), Act(a2), Act(a3), Act(a4)]
  {
    SlicesOfPath(p);
  }

  /** The doctest's problem: when the search answers within its fuel, it gets everybody over
      in 17, and its actions are those of S1 or of S2. */
  method BridgeProblemExample(fuel: nat) returns (r: Option<Path<Bank1, Bridge.Crossing>>)
    ensures r.Some? ==> r.value != [] && GoalPath(r.value, Start1([1, 2, 5, 10]), Succ1([1, 2, 10, 5]), Done)
    ensures r.Some? ==> ElapsedTime(Clock, r.value) == 17
    ensures r.Some? ==> r.value == TimedOtherPath() || r.value == TimedExpectedPath()
    ensures r.Some? ==>
      || OddSlice(r.value) == [Act((2, 1, "->")), Act((1, 1, "<-")), Act((5, 10, "->")), Act((2, 2, "<-")), Act((2, 1, "->"))]
      || OddSlice(r.value) == [Act((2, 1, "->")), Act((2, 2, "<-")), Act((5, 10, "->")), Act((1, 1, "<-")), Act((2, 1, "->"))]
  {
    r := BridgeProblem([1, 2, 10, 5], [1, 2, 5, 10], fuel);
    TimedExpectedPathValid();
    if r.Some? {
      TimedAtLeast17([1, 2, 10, 5], r.value);
      QuickestPaths(r.value);
      SolutionActions();
    }
  }
}
