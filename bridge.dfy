/** The bridge puzzle solved by the lowest-cost search: states without the elapsed time,
    actions carrying their cost, and two encodings of a state, (here, there) with the light as a
    traveller and (here, there, light) with the light as a flag. */
module Bridge {
  import opened Common
  import opened Paths
  import opened CostPaths
  import opened CostSearch
  import opened BridgeMoves

  /** (here, there): who, including the light, stands on each side. */
  type Bank = (Side, Side)

  /** (a, b, arrow): the two crossing times and the direction. */
  type Crossing = (nat, nat, string)

  /** The entry of the successor dict for a and b crossing with the light. */
  function Cross2(s: Bank, a: nat, b: nat): (Bank, Crossing) {
    if Light in s.0 then ((s.0 - Moved(a, b), s.1 + Moved(a, b)), (a, b, "->"))
    else ((s.0 + Moved(a, b), s.1 - Moved(a, b)), (a, b, "<-"))
  }

  function Cross2Fn(s: Bank): (nat, nat) -> (Bank, Crossing) {
    (a: nat, b: nat) => Cross2(s, a, b)
  }

  /** The people standing with the light, in the enumeration order. */
  function Waiting(order: seq<nat>, s: Bank): seq<nat> {
    Listed(order, Times(LightSide(s.0, s.1)))
  }

  /** `bsuccessors2`: the dict from each state one crossing away to the crossing that reaches it. */
  function Bsuccessors2(order: seq<nat>, s: Bank): seq<(Bank, Crossing)> {
    var ps := Waiting(order, s);
    DictFromPairs(Trips(ps, ps, Cross2Fn(s)))
  }

  function Succ2(order: seq<nat>): Bank -> seq<(Bank, Crossing)> {
    (s: Bank) => Bsuccessors2(order, s)
  }

  /** `all_over` (first version): nobody is left here. */
  function AllOver(s: Bank): (r: bool)
    ensures r <==> Times(s.0) == {} && s.0 <= {Light}
  {
    TimesEmpty(s.0);
    s.0 == {} || s.0 == {Light}
  }

  /** `bcost` (first version): a crossing takes as long as its slower walker. */
  function Bcost(action: Crossing): (c: nat)
    ensures c >= action.0 && c >= action.1 && (c == action.0 || c == action.1)
  {
    Max(action.0, action.1)
  }

  function ToSet(here: seq<nat>): set<nat> {
    set t | t in here
  }

  /** `(frozenset(here) | frozenset(['light']), frozenset())`. */
  function Start2(here: seq<nat>): Bank {
    (People(ToSet(here)) + {Light}, {})
  }

  /** Every traveller of the puzzle. */
  function Everyone(here: seq<nat>): Side {
    People(ToSet(here)) + {Light}
  }

  /** All (here, there) pairs of groups of travellers. */
  ghost function Banks(e: Side): set<Bank> {
    set h: Side, t: Side | h <= e && t <= e :: (h, t)
  }

  lemma TimesMember(side: Side, t: nat)
    ensures t in Times(side) <==> Person(t) in side
  {
    if Person(t) in side {
      assert Person(t).time == t;
    }
  }

  lemma TimesEmpty(side: Side)
    ensures Times(side) == {} <==> side <= {Light}
  {
    if Times(side) == {} {
      forall x | x in side ensures x == Light {
        if x.Person? {
          TimesMember(side, x.time);
        }
      }
    }
  }

  /** Each entry of the dict is a crossing of two people (possibly the same one twice)
      standing with the light, and every such crossing reaches a state of the dict. */
  lemma Bsuccessors2Entries(order: seq<nat>, s: Bank)
    ensures forall x :: x in Bsuccessors2(order, s) ==>
      exists a, b :: Person(a) in LightSide(s.0, s.1) && Person(b) in LightSide(s.0, s.1) && x == Cross2(s, a, b)
    ensures forall a, b :: a in order && b in order && Person(a) in LightSide(s.0, s.1) && Person(b) in LightSide(s.0, s.1) ==>
      Cross2(s, a, b).0 in Keys(Bsuccessors2(order, s))
  {
    Bsuccessors2Sound(order, s);
    Bsuccessors2Complete(order, s);
  }

  lemma Bsuccessors2Sound(order: seq<nat>, s: Bank)
    ensures forall x :: x in Bsuccessors2(order, s) ==>
      exists a, b :: Person(a) in LightSide(s.0, s.1) && Person(b) in LightSide(s.0, s.1) && x == Cross2(s, a, b)
  {
    forall x | x in Bsuccessors2(order, s)
      ensures exists a, b :: Person(a) in LightSide(s.0, s.1) && Person(b) in LightSide(s.0, s.1) && x == Cross2(s, a, b)
    {
      var a, b := EntryMovers(order, s, x);
    }
  }

  /** The two people an entry of the dict moves. */
  lemma EntryMovers(order: seq<nat>, s: Bank, x: (Bank, Crossing)) returns (a: nat, b: nat)
    requires x in Bsuccessors2(order, s)
    ensures Person(a) in LightSide(s.0, s.1) && Person(b) in LightSide(s.0, s.1) && x == Cross2(s, a, b)
  {
    var ps := Waiting(order, s);
    var side := LightSide(s.0, s.1);
    var trips := Trips(ps, ps, Cross2Fn(s));
    DictFromPairsItems(trips);
    LastValueIn(trips, x.0);
    assert x in trips;
    TripsMembers(ps, ps, Cross2Fn(s));
    a, b :| a in ps && b in ps && x == Cross2Fn(s)(a, b);
    ListedMember(order, Times(side), a);
    ListedMember(order, Times(side), b);
    TimesMember(side, a);
    TimesMember(side, b);
  }

  lemma Bsuccessors2Complete(order: seq<nat>, s: Bank)
    ensures forall a, b :: a in order && b in order && Person(a) in LightSide(s.0, s.1) && Person(b) in LightSide(s.0, s.1) ==>
      Cross2(s, a, b).0 in Keys(Bsuccessors2(order, s))
  {
    var ps := Waiting(order, s);
    var side := LightSide(s.0, s.1);
    forall a, b | a in order && b in order && Person(a) in side && Person(b) in side
      ensures Cross2(s, a, b).0 in Keys(Bsuccessors2(order, s))
    {
      TimesMember(side, a);
      TimesMember(side, b);
      ListedMember(order, Times(side), a);
      ListedMember(order, Times(side), b);
      TripsKey(ps, ps, Cross2Fn(s), a, b);
    }
  }

  /** A crossing moves exactly the light and the walkers to the light's other side: nobody
      else moves, nobody is lost, and the two sides stay apart. */
  lemma Cross2Moves(s: Bank, a: nat, b: nat)
    requires s.0 !! s.1
    ensures var t := Cross2(s, a, b).0;
      && (forall x :: x in Moved(a, b) ==> (x in t.1 <==> Light in s.0) && (x in t.0 <==> Light !in s.0))
      && (forall x :: x !in Moved(a, b) ==> (x in t.0 <==> x in s.0) && (x in t.1 <==> x in s.1))
      && t.0 !! t.1
      && (Person(a) in LightSide(s.0, s.1) && Person(b) in LightSide(s.0, s.1) && Light in s.0 + s.1 ==>
            t.0 + t.1 == s.0 + s.1)
      && Cross2(s, a, b).1.2 == (if Light in s.0 then "->" else "<-")
  {
  }

  /** Only a and b themselves, in either order, lead to the state a and b reach. */
  lemma Cross2Keys(order: seq<nat>, s: Bank, a: nat, b: nat)
    requires Person(a) in LightSide(s.0, s.1) && Person(b) in LightSide(s.0, s.1)
    ensures forall c, q :: c in Waiting(order, s) && q in Waiting(order, s) ==>
      (Cross2(s, c, q).0 == Cross2(s, a, b).0 <==> (c == a && q == b) || (c == b && q == a))
  {
    var side := LightSide(s.0, s.1);
    forall c, q | c in Waiting(order, s) && q in Waiting(order, s)
      ensures Cross2(s, c, q).0 == Cross2(s, a, b).0 <==> (c == a && q == b) || (c == b && q == a)
    {
      ListedMember(order, Times(side), c);
      ListedMember(order, Times(side), q);
      TimesMember(side, c);
      TimesMember(side, q);
      MovedDetermined(side, a, b, c, q);
    }
  }

  /** The dict keeps, for the pair {a, b}, the crossing `(a, b, arrow)` whose `a` comes later
      in the enumeration: when b is listed no later than a. */
  lemma Bsuccessors2Records(order: seq<nat>, s: Bank, i: nat, j: nat)
    requires Distinct(order) && j <= i < |Waiting(order, s)|
    ensures Cross2(s, Waiting(order, s)[i], Waiting(order, s)[j]) in Bsuccessors2(order, s)
  {
    var ps := Waiting(order, s);
    var side := LightSide(s.0, s.1);
    ListedDistinct(order, Times(side));
    ListedMembers(order, Times(side));
    TimesMember(side, ps[i]);
    TimesMember(side, ps[j]);
    Cross2Keys(order, s, ps[i], ps[j]);
    RecordedPair(ps, Cross2Fn(s), i, j);
  }

  /** Successors of (here, there) pairs drawn from `e` are again drawn from `e`. */
  lemma Banks2Closed(e: Side, order: seq<nat>)
    requires Light in e
    ensures Closed(Banks(e), Succ2(order))
  {
    forall s, x | s in Banks(e) && x in Succ2(order)(s) ensures x.0 in Banks(e) {
      Bsuccessors2Entries(order, s);
      var a, b :| Person(a) in LightSide(s.0, s.1) && Person(b) in LightSide(s.0, s.1) && x == Cross2(s, a, b);
      assert x.0.0 <= e && x.0.1 <= e;
    }
  }

  lemma StartInBanks(here: seq<nat>)
    ensures Start2(here) in Banks(Everyone(here))
  {
    var e := Everyone(here);
    var st := Start2(here);
    assert st.0 <= e && st.1 <= e;
  }

  /** `bridge_problem3`: the quickest way to get everybody across. The enumeration order
      lists each time once, among them every time in `here`. */
  method BridgeProblem3(order: seq<nat>, here: seq<nat>) returns (path: CostPath<Bank, Crossing>)
    requires Distinct(order) && forall t :: t in here ==> t in order
    ensures AllOver(Start2(here)) ==> path == [St(Start2(here))]
    ensures path != [] ==> CostGoalPath(path, Start2(here), Succ2(order), AllOver, Bcost)
    ensures path != [] ==>
      forall q :: CostGoalPath(q, Start2(here), Succ2(order), AllOver, Bcost) ==> PathCost(path) <= PathCost(q)
    ensures path == [] ==>
      forall q :: ValidCostPath(q, Start2(here), Succ2(order), Bcost) ==> !AllOver(LastState(q))
  {
    StartInBanks(here);
    Banks2Closed(Everyone(here), order);
    path := LowestCostSearch(Start2(here), Succ2(order), AllOver, Bcost, Banks(Everyone(here)));
  }

  /** The test's problem, people taking 1, 2, 5 and 10, enumerated in the order 1, 2, 10, 5:
      the search gets everybody over in 17, the time of the expected path, which nobody
      beats, and the path it returns is the expected one or the other way across in 17. */
  method BridgeProblem3Example() returns (path: CostPath<Bank, Crossing>)
    ensures CostGoalPath(path, Start2([1, 2, 5, 10]), Succ2([1, 2, 10, 5]), AllOver, Bcost)
    ensures PathCost(path) == 17
    ensures path == ExpectedPath() || path == OtherPath()
  {
    path := BridgeProblem3([1, 2, 10, 5], [1, 2, 5, 10]);
    ExpectedPathValid();
    AtLeast17([1, 2, 10, 5], path);
    QuickestPaths(path);
  }

  /** `bridge_problem2([1, 2, 5, 10])`: the queue-ordered search gets everybody over, and
      takes at least 17. */
  method BridgeProblem2Example() returns (path: CostPath<Bank, Crossing>)
    ensures path != [] && CostGoalPath(path, Start2([1, 2, 5, 10]), Succ2([1, 2, 10, 5]), EmptyHere, Bcost)
    ensures 17 <= PathCost(path)
  {
    path := BridgeProblem2([1, 2, 10, 5], [1, 2, 5, 10]);
    ExpectedPathValid();
    assert EmptyHere(LastState(ExpectedPath()));
    if path != [] {
      AtLeast17([1, 2, 10, 5], path);
    }
  }

  /** `bridge_problem2`: the same search, but `add_to_frontier` there appends without
      re-sorting, so the frontier is a queue and the path found is valid but not proved
      to be the fastest. */
  method BridgeProblem2(order: seq<nat>, here: seq<nat>) returns (path: CostPath<Bank, Crossing>)
    requires Distinct(order) && forall t :: t in here ==> t in order
    ensures path != [] ==> CostGoalPath(path, Start2(here), Succ2(order), EmptyHere, Bcost)
    ensures path == [] ==>
      forall q :: ValidCostPath(q, Start2(here), Succ2(order), Bcost) ==> !EmptyHere(LastState(q))
  {
    StartInBanks(here);
    Banks2Closed(Everyone(here), order);
    path := CostSearchLoop(Start2(here), Succ2(order), EmptyHere, Bcost, false, Banks(Everyone(here)));
  }

  /** `not here_last`: the goal test of `bridge_problem2`. */
  function EmptyHere(s: Bank): (r: bool)
    ensures r <==> forall x :: x !in s.0
  {
    s.0 == {}
  }

  /** For the people taking 1, 2, 5 and 10: the least time still needed to get everybody
      over, by who is still here (h1, h2, h5, h10) and whether the light is here. With the
      light across and everybody here nobody can move; no crossing leads there, and it gets 0. */
  function Need(h1: bool, h2: bool, h5: bool, h10: bool, light: bool): nat {
    match (h1, h2, h5, h10)
    case (false, false, false, false) => 0
    case (false, false, false, true) => if light then 10 else 11
    case (false, false, true, false) => if light then 5 else 6
    case (false, false, true, true) => if light then 10 else 15
    case (false, true, false, false) => if light then 2 else 3
    case (false, true, false, true) => if light then 10 else 14
    case (false, true, true, false) => if light then 5 else 9
    case (false, true, true, true) => if light then 13 else 18
    case (true, false, false, false) => if light then 1 else 4
    case (true, false, false, true) => if light then 10 else 15
    case (true, false, true, false) => if light then 5 else 10
    case (true, false, true, true) => if light then 14 else 19
    case (true, true, false, false) => if light then 2 else 13
    case (true, true, false, true) => if light then 13 else 22
    case (true, true, true, false) => if light then 8 else 27
    case (true, true, true, true) => if light then 17 else 0
  }

  /** Whether the person taking t is here, among 1, 2, 5 and 10. */
  function HereBit(h1: bool, h2: bool, h5: bool, h10: bool, t: nat): bool {
    if t == 1 then h1 else if t == 2 then h2 else if t == 5 then h5 else h10
  }

  /** One crossing of a and b, with the light, never saves time: what is still needed before
      is at most the crossing's time plus what is still needed after. */
  lemma NeedStep(h1: bool, h2: bool, h5: bool, h10: bool, light: bool, a: nat, b: nat)
    requires a in {1, 2, 5, 10} && b in {1, 2, 5, 10}
    requires HereBit(h1, h2, h5, h10, a) == light && HereBit(h1, h2, h5, h10, b) == light
    ensures Need(h1, h2, h5, h10, light) <=
      Max(a, b) + Need(if a == 1 || b == 1 then !h1 else h1, if a == 2 || b == 2 then !h2 else h2,
                       if a == 5 || b == 5 then !h5 else h5, if a == 10 || b == 10 then !h10 else h10, !light)
  {
  }

  /** Everybody of the test's puzzle, 1, 2, 5 and 10, and the light. */
  const Four: Side := {Person(1), Person(2), Person(5), Person(10), Light}

  /** The time still needed from a state of that puzzle. */
  function Remaining(s: Bank): nat {
    Need(Person(1) in s.0, Person(2) in s.0, Person(5) in s.0, Person(10) in s.0, Light in s.0)
  }

  /** The state splits the travellers of the puzzle between the two sides. */
  predicate Split(s: Bank) {
    s.0 !! s.1 && s.0 + s.1 == Four
  }

  lemma StartFour()
    ensures Start2([1, 2, 5, 10]) == (Four, {}) && Split(Start2([1, 2, 5, 10]))
    ensures Remaining(Start2([1, 2, 5, 10])) == 17
  {
    ExpectedStart();
    assert StateAt(ExpectedPath(), 0).0 == Four;
  }

  /** The crossings that take exactly the drop in the time still needed, from the states the
      quickest ways across pass through: first 1 and 2 go; with 5 and 10 left here, 1 or 2
      comes back alone; 5 and 10 go together; the one of 1 and 2 that is across comes back;
      1 and 2 go. Once everybody is over no crossing is tight. */
  lemma NeedTight(h1: bool, h2: bool, h5: bool, h10: bool, light: bool, a: nat, b: nat)
    requires a in {1, 2, 5, 10} && b in {1, 2, 5, 10}
    requires HereBit(h1, h2, h5, h10, a) == light && HereBit(h1, h2, h5, h10, b) == light
    requires Need(h1, h2, h5, h10, light) ==
      Max(a, b) + Need(if a == 1 || b == 1 then !h1 else h1, if a == 2 || b == 2 then !h2 else h2,
                       if a == 5 || b == 5 then !h5 else h5, if a == 10 || b == 10 then !h10 else h10, !light)
    ensures h1 && h2 && h5 && h10 && light ==> (a == 1 && b == 2) || (a == 2 && b == 1)
    ensures !h1 && !h2 && h5 && h10 && !light ==> a == b && (a == 1 || a == 2)
    ensures h1 != h2 && h5 && h10 && light ==> (a == 5 && b == 10) || (a == 10 && b == 5)
    ensures h1 && !h2 && !h5 && !h10 && !light ==> a == 2 && b == 2
    ensures !h1 && h2 && !h5 && !h10 && !light ==> a == 1 && b == 1
    ensures h1 && h2 && !h5 && !h10 && light ==> (a == 1 && b == 2) || (a == 2 && b == 1)
    ensures h1 || h2 || h5 || h10
  {
  }

  /** What a crossing of a and b does to the time still needed: it flips who of a and b is
      here, and the light. */
  lemma RemainingFlip(s: Bank, a: nat, b: nat)
    requires Split(s) && Person(a) in LightSide(s.0, s.1) && Person(b) in LightSide(s.0, s.1)
    ensures a in {1, 2, 5, 10} && b in {1, 2, 5, 10}
    ensures var (h1, h2, h5, h10) := (Person(1) in s.0, Person(2) in s.0, Person(5) in s.0, Person(10) in s.0);
      && HereBit(h1, h2, h5, h10, a) == (Light in s.0) && HereBit(h1, h2, h5, h10, b) == (Light in s.0)
      && Remaining(Cross2(s, a, b).0) ==
         Need(if a == 1 || b == 1 then !h1 else h1, if a == 2 || b == 2 then !h2 else h2,
              if a == 5 || b == 5 then !h5 else h5, if a == 10 || b == 10 then !h10 else h10, Light !in s.0)
    ensures Split(Cross2(s, a, b).0)
  {
    Cross2Moves(s, a, b);
    var t := Cross2(s, a, b).0;
    assert Person(a) in Four && Person(b) in Four;
    assert a in {1, 2, 5, 10} && b in {1, 2, 5, 10};
    assert Light in t.0 <==> Light !in s.0;
    assert forall x :: x in {1, 2, 5, 10} ==> (Person(x) in s.0 <==> HereBit(Person(1) in s.0, Person(2) in s.0, Person(5) in s.0, Person(10) in s.0, x));
    assert Person(1) in t.0 <==> if a == 1 || b == 1 then Person(1) !in s.0 else Person(1) in s.0;
    assert Person(2) in t.0 <==> if a == 2 || b == 2 then Person(2) !in s.0 else Person(2) in s.0;
    assert Person(5) in t.0 <==> if a == 5 || b == 5 then Person(5) !in s.0 else Person(5) in s.0;
    assert Person(10) in t.0 <==> if a == 10 || b == 10 then Person(10) !in s.0 else Person(10) in s.0;
  }

  /** A crossing keeps the travellers split between the sides, and no crossing takes less than
      the drop in the time still needed. */
  lemma RemainingStep(s: Bank, a: nat, b: nat)
    requires Split(s) && Person(a) in LightSide(s.0, s.1) && Person(b) in LightSide(s.0, s.1)
    ensures var t := Cross2(s, a, b).0; Split(t) && Remaining(s) <= Max(a, b) + Remaining(t)
  {
    RemainingFlip(s, a, b);
    NeedStep(Person(1) in s.0, Person(2) in s.0, Person(5) in s.0, Person(10) in s.0, Light in s.0, a, b);
  }

  /** A crossing that loses no time against the time still needed. */
  predicate Tight(s: Bank, a: nat, b: nat) {
    Remaining(s) == Max(a, b) + Remaining(Cross2(s, a, b).0)
  }

  /** The tight crossings from the states of the two quickest ways across, by who is here. */
  lemma TightCrossings(s: Bank, a: nat, b: nat)
    requires Split(s) && Person(a) in LightSide(s.0, s.1) && Person(b) in LightSide(s.0, s.1) && Tight(s, a, b)
    ensures var (h1, h2, h5, h10, light) := (Person(1) in s.0, Person(2) in s.0, Person(5) in s.0, Person(10) in s.0, Light in s.0);
      && (h1 && h2 && h5 && h10 && light ==> (a == 1 && b == 2) || (a == 2 && b == 1))
      && (!h1 && !h2 && h5 && h10 && !light ==> a == b && (a == 1 || a == 2))
      && (h1 != h2 && h5 && h10 && light ==> (a == 5 && b == 10) || (a == 10 && b == 5))
      && (h1 && !h2 && !h5 && !h10 && !light ==> a == 2 && b == 2)
      && (!h1 && h2 && !h5 && !h10 && !light ==> a == 1 && b == 1)
      && (h1 && h2 && !h5 && !h10 && light ==> (a == 1 && b == 2) || (a == 2 && b == 1))
      && (h1 || h2 || h5 || h10)
  {
    RemainingFlip(s, a, b);
    NeedTight(Person(1) in s.0, Person(2) in s.0, Person(5) in s.0, Person(10) in s.0, Light in s.0, a, b);
  }

  /** Along any path of the search for 1, 2, 5 and 10 the time so far plus the time still
      needed is at least 17. */
  lemma {:induction false} RemainingAlong(order: seq<nat>, q: CostPath<Bank, Crossing>, k: nat)
    requires ValidCostPath(q, Start2([1, 2, 5, 10]), Succ2(order), Bcost) && k <= Steps(q)
    ensures Split(StateAt(q, k)) && 17 <= TotalAt(q, k) + Remaining(StateAt(q, k))
  {
    if k == 0 {
      StartFour();
    } else {
      RemainingAlong(order, q, k - 1);
      var s, x := StateAt(q, k - 1), (StateAt(q, k), ActionAt(q, k - 1).0);
      assert CostStep(q, Succ2(order), Bcost, k - 1);
      Bsuccessors2Sound(order, s);
      var a, b :| Person(a) in LightSide(s.0, s.1) && Person(b) in LightSide(s.0, s.1) && x == Cross2(s, a, b);
      RemainingStep(s, a, b);
    }
  }

  /** Nobody gets 1, 2, 5 and 10 across in less than 17, whatever the enumeration order. */
  lemma AtLeast17(order: seq<nat>, q: CostPath<Bank, Crossing>)
    requires ValidCostPath(q, Start2([1, 2, 5, 10]), Succ2(order), Bcost) && AllOver(LastState(q))
    ensures 17 <= PathCost(q)
  {
    RemainingAlong(order, q, Steps(q));
    PathCostIsLastTotal(q);
  }

  /** People are known by their times alone, so two people who take as long are one traveller:
      the puzzle for times 1, 1, 2 starts from the same state as the one for 1, 2. */
  lemma SameTimesMerge()
    ensures Start2([1, 1, 2]) == Start2([1, 2])
  {
    assert ToSet([1, 1, 2]) == ToSet([1, 2]);
  }

  lemma TimesAll(side: Side)
    ensures forall t :: t in Times(side) <==> Person(t) in side
  {
    forall t ensures t in Times(side) <==> Person(t) in side {
      TimesMember(side, t);
    }
  }

  /** One crossing of the expected path: the dict for s records the crossing of the i-th and
      j-th waiting people, which reaches t by the action act. */
  predicate RecordedStep(order: seq<nat>, s: Bank, i: nat, j: nat, t: Bank, act: Crossing) {
    Distinct(order) && j <= i < |Waiting(order, s)| && Cross2(s, Waiting(order, s)[i], Waiting(order, s)[j]) == (t, act)
  }

  lemma ExpectedStep(order: seq<nat>, s: Bank, i: nat, j: nat, t: Bank, act: Crossing)
    requires RecordedStep(order, s, i, j, t, act)
    ensures (t, act) in Succ2(order)(s)
  {
    Bsuccessors2Records(order, s, i, j);
  }

  /** The people with the light are those of `times`, so they wait in the order `Listed` gives. */
  lemma WaitingOf(order: seq<nat>, s: Bank, times: set<nat>, w: seq<nat>)
    requires forall t :: Person(t) in LightSide(s.0, s.1) <==> t in times
    requires Listed(order, times) == w
    ensures Waiting(order, s) == w
  {
    TimesAll(LightSide(s.0, s.1));
    assert Times(LightSide(s.0, s.1)) == times;
  }

  /** The path that the test of `bridge_problem3([1, 2, 5, 10])` expects. */
  function ExpectedPath(): CostPath<Bank, Crossing> {
    [St(({Person(1), Person(2), Light, Person(10), Person(5)}, {})),
     Act(((2, 1, "->"), 2)),
     St(({Person(10), Person(5)}, {Person(1), Person(2), Light})),
     Act(((2, 2, "<-"), 4)),
     St(({Light, Person(10), Person(2), Person(5)}, {Person(1)})),
     Act(((5, 10, "->"), 14)),
     St(({Person(2)}, {Person(1), Person(10), Person(5), Light})),
     Act(((1, 1, "<-"), 15)),
     St(({Person(1), Person(2), Light}, {Person(10), Person(5)})),
     Act(((2, 1, "->"), 17)),
     St(({}, {Person(1), Person(10), Person(2), Person(5), Light}))]
  }

  /** With the enumeration order 1, 2, 10, 5 the expected path is a path of the search: each
      crossing is the one the dict records, each total adds the crossing's time, it gets
      everybody over, and it takes 17. */
  lemma ExpectedPathValid()
    ensures CostGoalPath(ExpectedPath(), Start2([1, 2, 5, 10]), Succ2([1, 2, 10, 5]), AllOver, Bcost)
    ensures PathCost(ExpectedPath()) == 17
  {
    var p := ExpectedPath();
    assert WellFormed(p);
    ExpectedStart();
    forall k | 0 <= k < Steps(p) ensures CostStep(p, Succ2([1, 2, 10, 5]), Bcost, k) {
      ExpectedCostStep(k);
    }
    assert LastState(p) == StateAt(p, 5);
  }

  /** The k-th step of the expected path is a crossing the dict records, and its total adds
      the crossing's time to the one before. */
  lemma ExpectedCostStep(k: nat)
    requires k < 5
    ensures WellFormed(ExpectedPath()) && CostStep(ExpectedPath(), Succ2([1, 2, 10, 5]), Bcost, k)
  {
    ExpectedCrossing(k);
    ExpectedTotal(k);
  }

  lemma ExpectedTotal(k: nat)
    requires k < 5
    ensures WellFormed(ExpectedPath())
    ensures ActionAt(ExpectedPath(), k).1 == TotalAt(ExpectedPath(), k) + Bcost(ActionAt(ExpectedPath(), k).0)
  {
    var p := ExpectedPath();
    assert WellFormed(p);
    var c := ActionAt(p, k);
    if k == 0 {
      assert c == ((2, 1, "->"), 2);
    } else if k == 1 {
      assert c == ((2, 2, "<-"), 4) && ActionAt(p, 0).1 == 2;
    } else if k == 2 {
      assert c == ((5, 10, "->"), 14) && ActionAt(p, 1).1 == 4;
    } else if k == 3 {
      assert c == ((1, 1, "<-"), 15) && ActionAt(p, 2).1 == 14;
    } else {
      assert c == ((2, 1, "->"), 17) && ActionAt(p, 3).1 == 15;
    }
  }

  lemma ExpectedStart()
    ensures WellFormed(ExpectedPath()) && StateAt(ExpectedPath(), 0) == Start2([1, 2, 5, 10])
  {
    var here: seq<nat> := [1, 2, 5, 10];
    assert ToSet(here) == {1, 2, 5, 10};
    assert People(ToSet(here)) == {Person(1), Person(2), Person(10), Person(5)};
    var s0: Bank := ({Person(1), Person(2), Light, Person(10), Person(5)}, {});
    assert Start2(here).0 == s0.0;
    assert Start2(here) == s0;
  }

  /** The k-th crossing of the expected path is an entry of the dict for its state. */
  lemma ExpectedCrossing(k: nat)
    requires k < 5
    ensures var p := ExpectedPath();
      WellFormed(p) && (StateAt(p, k + 1), ActionAt(p, k).0) in Succ2([1, 2, 10, 5])(StateAt(p, k))
  {
    if k == 0 {
      ExpectedCrossing0(k);
    } else if k == 1 {
      ExpectedCrossing1(k);
    } else if k == 2 {
      ExpectedCrossing2(k);
    } else if k == 3 {
      ExpectedCrossing3(k);
    } else {
      ExpectedCrossing4(k);
    }
  }

  lemma ExpectedCrossing0(k: nat)
    requires k == 0
    ensures var p := ExpectedPath();
      WellFormed(p) && (StateAt(p, k + 1), ActionAt(p, k).0) in Succ2([1, 2, 10, 5])(StateAt(p, k))
  {
    var p := ExpectedPath();
    assert WellFormed(p);
    Crossing0(StateAt(p, 0), StateAt(p, 1));
    ExpectedStep([1, 2, 10, 5], StateAt(p, 0), 1, 0, StateAt(p, 1), (2, 1, "->"));
  }

  lemma ExpectedCrossing1(k: nat)
    requires k == 1
    ensures var p := ExpectedPath();
      WellFormed(p) && (StateAt(p, k + 1), ActionAt(p, k).0) in Succ2([1, 2, 10, 5])(StateAt(p, k))
  {
    var p := ExpectedPath();
    assert WellFormed(p);
    Crossing1(StateAt(p, 1), StateAt(p, 2));
    ExpectedStep([1, 2, 10, 5], StateAt(p, 1), 1, 1, StateAt(p, 2), (2, 2, "<-"));
  }

  lemma ExpectedCrossing2(k: nat)
    requires k == 2
    ensures var p := ExpectedPath();
      WellFormed(p) && (StateAt(p, k + 1), ActionAt(p, k).0) in Succ2([1, 2, 10, 5])(StateAt(p, k))
  {
    var p := ExpectedPath();
    assert WellFormed(p);
    Crossing2(StateAt(p, 2), StateAt(p, 3));
    ExpectedStep([1, 2, 10, 5], StateAt(p, 2), 2, 1, StateAt(p, 3), (5, 10, "->"));
  }

  lemma ExpectedCrossing3(k: nat)
    requires k == 3
    ensures var p := ExpectedPath();
      WellFormed(p) && (StateAt(p, k + 1), ActionAt(p, k).0) in Succ2([1, 2, 10, 5])(StateAt(p, k))
  {
    var p := ExpectedPath();
    assert WellFormed(p);
    Crossing3(StateAt(p, 3), StateAt(p, 4));
    ExpectedStep([1, 2, 10, 5], StateAt(p, 3), 0, 0, StateAt(p, 4), (1, 1, "<-"));
  }

  lemma ExpectedCrossing4(k: nat)
    requires k == 4
    ensures var p := ExpectedPath();
      WellFormed(p) && (StateAt(p, k + 1), ActionAt(p, k).0) in Succ2([1, 2, 10, 5])(StateAt(p, k))
  {
    var p := ExpectedPath();
    assert WellFormed(p);
    Crossing4(StateAt(p, 4), StateAt(p, 5));
    ExpectedStep([1, 2, 10, 5], StateAt(p, 4), 1, 0, StateAt(p, 5), (2, 1, "->"));
  }

  /** The doctest's first solution S1 of the timed search, as a cost path: 1 rather than 2
      comes back first. */
  function OtherPath(): CostPath<Bank, Crossing> {
    [St(({Person(1), Person(2), Light, Person(10), Person(5)}, {})),
     Act(((2, 1, "->"), 2)),
     St(({Person(10), Person(5)}, {Person(1), Person(2), Light})),
     Act(((1, 1, "<-"), 3)),
     St(({Light, Person(10), Person(1), Person(5)}, {Person(2)})),
     Act(((5, 10, "->"), 13)),
     St(({Person(1)}, {Person(2), Person(10), Person(5), Light})),
     Act(((2, 2, "<-"), 15)),
     St(({Person(1), Person(2), Light}, {Person(10), Person(5)})),
     Act(((2, 1, "->"), 17)),
     St(({}, {Person(1), Person(10), Person(2), Person(5), Light}))]
  }

  /** The states and actions of the two cost paths, one by one. */
  lemma OtherShape()
    ensures WellFormed(OtherPath()) && Steps(OtherPath()) == 5
    ensures StateAt(OtherPath(), 0) == ({Person(1), Person(2), Light, Person(10), Person(5)}, {})
    ensures StateAt(OtherPath(), 1) == ({Person(10), Person(5)}, {Person(1), Person(2), Light})
    ensures StateAt(OtherPath(), 2) == ({Light, Person(10), Person(1), Person(5)}, {Person(2)})
    ensures StateAt(OtherPath(), 3) == ({Person(1)}, {Person(2), Person(10), Person(5), Light})
    ensures StateAt(OtherPath(), 4) == ({Person(1), Person(2), Light}, {Person(10), Person(5)})
    ensures StateAt(OtherPath(), 5) == ({}, {Person(1), Person(10), Person(2), Person(5), Light})
    ensures ActionAt(OtherPath(), 0) == ((2, 1, "->"), 2)
    ensures ActionAt(OtherPath(), 1) == ((1, 1, "<-"), 3)
    ensures ActionAt(OtherPath(), 2) == ((5, 10, "->"), 13)
    ensures ActionAt(OtherPath(), 3) == ((2, 2, "<-"), 15)
    ensures ActionAt(OtherPath(), 4) == ((2, 1, "->"), 17)
  {
    assert WellFormed(OtherPath());
  }

  lemma ExpectedShape()
    ensures WellFormed(ExpectedPath()) && Steps(ExpectedPath()) == 5
    ensures StateAt(ExpectedPath(), 0) == ({Person(1), Person(2), Light, Person(10), Person(5)}, {})
    ensures StateAt(ExpectedPath(), 1) == ({Person(10), Person(5)}, {Person(1), Person(2), Light})
    ensures StateAt(ExpectedPath(), 2) == ({Light, Person(10), Person(2), Person(5)}, {Person(1)})
    ensures StateAt(ExpectedPath(), 3) == ({Person(2)}, {Person(1), Person(10), Person(5), Light})
    ensures StateAt(ExpectedPath(), 4) == ({Person(1), Person(2), Light}, {Person(10), Person(5)})
    ensures StateAt(ExpectedPath(), 5) == ({}, {Person(1), Person(10), Person(2), Person(5), Light})
    ensures ActionAt(ExpectedPath(), 0) == ((2, 1, "->"), 2)
    ensures ActionAt(ExpectedPath(), 1) == ((2, 2, "<-"), 4)
    ensures ActionAt(ExpectedPath(), 2) == ((5, 10, "->"), 14)
    ensures ActionAt(ExpectedPath(), 3) == ((1, 1, "<-"), 15)
    ensures ActionAt(ExpectedPath(), 4) == ((2, 1, "->"), 17)
  {
    assert WellFormed(ExpectedPath());
  }

  /** S1 too is a path of the search that gets everybody over, and it costs 17. */
  lemma OtherPathValid()
    ensures CostGoalPath(OtherPath(), Start2([1, 2, 5, 10]), Succ2([1, 2, 10, 5]), AllOver, Bcost)
    ensures PathCost(OtherPath()) == 17
  {
    var p := OtherPath();
    OtherShape();
    ExpectedShape();
    ExpectedStart();
    forall k | 0 <= k < Steps(p) ensures CostStep(p, Succ2([1, 2, 10, 5]), Bcost, k) {
      OtherCostStep(k);
    }
  }

  lemma OtherCostStep(k: nat)
    requires k < 5
    ensures WellFormed(OtherPath()) && CostStep(OtherPath(), Succ2([1, 2, 10, 5]), Bcost, k)
  {
    OtherShape();
    var p := OtherPath();
    if k == 0 {
      Crossing0(StateAt(p, 0), StateAt(p, 1));
      ExpectedStep([1, 2, 10, 5], StateAt(p, 0), 1, 0, StateAt(p, 1), (2, 1, "->"));
    } else if k == 1 {
      OtherCrossing1(StateAt(p, 1), StateAt(p, 2));
      ExpectedStep([1, 2, 10, 5], StateAt(p, 1), 0, 0, StateAt(p, 2), (1, 1, "<-"));
    } else if k == 2 {
      OtherCrossing2(StateAt(p, 2), StateAt(p, 3));
      ExpectedStep([1, 2, 10, 5], StateAt(p, 2), 2, 1, StateAt(p, 3), (5, 10, "->"));
    } else if k == 3 {
      OtherCrossing3(StateAt(p, 3), StateAt(p, 4));
      ExpectedStep([1, 2, 10, 5], StateAt(p, 3), 0, 0, StateAt(p, 4), (2, 2, "<-"));
    } else {
      Crossing4(StateAt(p, 4), StateAt(p, 5));
      ExpectedStep([1, 2, 10, 5], StateAt(p, 4), 1, 0, StateAt(p, 5), (2, 1, "->"));
    }
  }

  lemma OtherCrossing1(s: Bank, t: Bank)
    requires s == ({Person(10), Person(5)}, {Person(1), Person(2), Light})
    requires t == ({Light, Person(10), Person(1), Person(5)}, {Person(2)})
    ensures RecordedStep([1, 2, 10, 5], s, 0, 0, t, (1, 1, "<-"))
  {
    assert s.0 + Moved(1, 1) == t.0;
    assert s.1 - Moved(1, 1) == t.1;
    Waiting1(s);
  }

  lemma OtherCrossing2(s: Bank, t: Bank)
    requires s == ({Light, Person(10), Person(1), Person(5)}, {Person(2)})
    requires t == ({Person(1)}, {Person(2), Person(10), Person(5), Light})
    ensures RecordedStep([1, 2, 10, 5], s, 2, 1, t, (5, 10, "->"))
  {
    assert s.0 - Moved(5, 10) == t.0;
    assert s.1 + Moved(5, 10) == t.1;
    Waiting5(s);
  }

  lemma OtherCrossing3(s: Bank, t: Bank)
    requires s == ({Person(1)}, {Person(2), Person(10), Person(5), Light})
    requires t == ({Person(1), Person(2), Light}, {Person(10), Person(5)})
    ensures RecordedStep([1, 2, 10, 5], s, 0, 0, t, (2, 2, "<-"))
  {
    assert s.0 + Moved(2, 2) == t.0;
    assert s.1 - Moved(2, 2) == t.1;
    Waiting6(s);
  }

  /** A crossing of the dict that loses no time against the time still needed. */
  predicate TightEntry(order: seq<nat>, s: Bank, x: (Bank, Crossing)) {
    x in Bsuccessors2(order, s) && Remaining(s) == Bcost(x.1) + Remaining(x.0)
  }

  /** A tight entry is a tight crossing of two people standing with the light. */
  lemma TightMovers(order: seq<nat>, s: Bank, x: (Bank, Crossing)) returns (a: nat, b: nat)
    requires Split(s) && TightEntry(order, s, x)
    ensures Person(a) in LightSide(s.0, s.1) && Person(b) in LightSide(s.0, s.1) && x == Cross2(s, a, b)
    ensures Tight(s, a, b)
  {
    Bsuccessors2Sound(order, s);
    a, b :| Person(a) in LightSide(s.0, s.1) && Person(b) in LightSide(s.0, s.1) && x == Cross2(s, a, b);
  }

  /** The dict holds one entry per state reached. */
  lemma OneEntryPerState(order: seq<nat>, s: Bank, x: (Bank, Crossing), y: (Bank, Crossing))
    requires x in Bsuccessors2(order, s) && y in Bsuccessors2(order, s) && x.0 == y.0
    ensures x == y
  {
    var ps := Waiting(order, s);
    DictFromPairsItems(Trips(ps, ps, Cross2Fn(s)));
  }

  /** Whichever order the pair is written in, the dict's entry for it is the recorded one. */
  lemma SamePairEntry(order: seq<nat>, s: Bank, x: (Bank, Crossing), a: nat, b: nat, c: nat, d: nat)
    requires x in Bsuccessors2(order, s) && x == Cross2(s, a, b) && Cross2(s, c, d) in Bsuccessors2(order, s)
    requires (a == c && b == d) || (a == d && b == c)
    ensures x == Cross2(s, c, d)
  {
    assert Moved(a, b) == Moved(c, d);
    OneEntryPerState(order, s, x, Cross2(s, c, d));
  }

  /** From the start the one tight entry sends 1 and 2 over. */
  lemma TightFromStart(s: Bank, x: (Bank, Crossing))
    requires s == ({Person(1), Person(2), Light, Person(10), Person(5)}, {})
    requires Split(s) && TightEntry([1, 2, 10, 5], s, x)
    ensures x == (({Person(10), Person(5)}, {Person(1), Person(2), Light}), (2, 1, "->"))
  {
    var t := ({Person(10), Person(5)}, {Person(1), Person(2), Light});
    var a, b := TightMovers([1, 2, 10, 5], s, x);
    TightCrossings(s, a, b);
    Crossing0(s, t);
    Bsuccessors2Records([1, 2, 10, 5], s, 1, 0);
    SamePairEntry([1, 2, 10, 5], s, x, a, b, 2, 1);
  }

  /** With 5 and 10 left here, 1 or 2 comes back alone. */
  lemma TightFromFirst(s: Bank, x: (Bank, Crossing))
    requires s == ({Person(10), Person(5)}, {Person(1), Person(2), Light})
    requires Split(s) && TightEntry([1, 2, 10, 5], s, x)
    ensures x == (({Light, Person(10), Person(1), Person(5)}, {Person(2)}), (1, 1, "<-")) || x == (({Light, Person(10), Person(2), Person(5)}, {Person(1)}), (2, 2, "<-"))
  {
    var a, b := TightMovers([1, 2, 10, 5], s, x);
    TightCrossings(s, a, b);
    ComeBackAlone(s);
  }

  /** With 5 and 10 left behind, 1 or 2 coming back alone. */
  lemma ComeBackAlone(s: Bank)
    requires s == ({Person(10), Person(5)}, {Person(1), Person(2), Light})
    ensures Cross2(s, 1, 1) == (({Light, Person(10), Person(1), Person(5)}, {Person(2)}), (1, 1, "<-"))
    ensures Cross2(s, 2, 2) == (({Light, Person(10), Person(2), Person(5)}, {Person(1)}), (2, 2, "<-"))
  {
    assert s.0 + Moved(1, 1) == {Light, Person(10), Person(1), Person(5)};
    assert s.1 - Moved(1, 1) == {Person(2)};
    assert s.0 + Moved(2, 2) == {Light, Person(10), Person(2), Person(5)};
    assert s.1 - Moved(2, 2) == {Person(1)};
  }

  /** After 1 came back, 5 and 10 go over together. */
  lemma TightFromOne(s: Bank, x: (Bank, Crossing))
    requires s == ({Light, Person(10), Person(1), Person(5)}, {Person(2)})
    requires Split(s) && TightEntry([1, 2, 10, 5], s, x)
    ensures x == (({Person(1)}, {Person(2), Person(10), Person(5), Light}), (5, 10, "->"))
  {
    var t := ({Person(1)}, {Person(2), Person(10), Person(5), Light});
    var a, b := TightMovers([1, 2, 10, 5], s, x);
    TightCrossings(s, a, b);
    OtherCrossing2(s, t);
    Bsuccessors2Records([1, 2, 10, 5], s, 2, 1);
    SamePairEntry([1, 2, 10, 5], s, x, a, b, 5, 10);
  }

  /** After 2 came back, 5 and 10 go over together. */
  lemma TightFromTwo(s: Bank, x: (Bank, Crossing))
    requires s == ({Light, Person(10), Person(2), Person(5)}, {Person(1)})
    requires Split(s) && TightEntry([1, 2, 10, 5], s, x)
    ensures x == (({Person(2)}, {Person(1), Person(10), Person(5), Light}), (5, 10, "->"))
  {
    var t := ({Person(2)}, {Person(1), Person(10), Person(5), Light});
    var a, b := TightMovers([1, 2, 10, 5], s, x);
    TightCrossings(s, a, b);
    Crossing2(s, t);
    Bsuccessors2Records([1, 2, 10, 5], s, 2, 1);
    SamePairEntry([1, 2, 10, 5], s, x, a, b, 5, 10);
  }

  /** With 1 alone here, 2 comes back. */
  lemma TightFromOneLeft(s: Bank, x: (Bank, Crossing))
    requires s == ({Person(1)}, {Person(2), Person(10), Person(5), Light})
    requires Split(s) && TightEntry([1, 2, 10, 5], s, x)
    ensures x == (({Person(1), Person(2), Light}, {Person(10), Person(5)}), (2, 2, "<-"))
  {
    var a, b := TightMovers([1, 2, 10, 5], s, x);
    TightCrossings(s, a, b);
    assert s.0 + Moved(2, 2) == ({Person(1), Person(2), Light}, {Person(10), Person(5)}).0;
    assert s.1 - Moved(2, 2) == ({Person(1), Person(2), Light}, {Person(10), Person(5)}).1;
  }

  /** With 2 alone here, 1 comes back. */
  lemma TightFromTwoLeft(s: Bank, x: (Bank, Crossing))
    requires s == ({Person(2)}, {Person(1), Person(10), Person(5), Light})
    requires Split(s) && TightEntry([1, 2, 10, 5], s, x)
    ensures x == (({Person(1), Person(2), Light}, {Person(10), Person(5)}), (1, 1, "<-"))
  {
    var a, b := TightMovers([1, 2, 10, 5], s, x);
    TightCrossings(s, a, b);
    assert s.0 + Moved(1, 1) == ({Person(1), Person(2), Light}, {Person(10), Person(5)}).0;
    assert s.1 - Moved(1, 1) == ({Person(1), Person(2), Light}, {Person(10), Person(5)}).1;
  }

  /** With 1 and 2 here again, they go over together. */
  lemma TightFromLast(s: Bank, x: (Bank, Crossing))
    requires s == ({Person(1), Person(2), Light}, {Person(10), Person(5)})
    requires Split(s) && TightEntry([1, 2, 10, 5], s, x)
    ensures x == (({}, {Person(1), Person(10), Person(2), Person(5), Light}), (2, 1, "->"))
  {
    var t := ({}, {Person(1), Person(10), Person(2), Person(5), Light});
    var a, b := TightMovers([1, 2, 10, 5], s, x);
    TightCrossings(s, a, b);
    Crossing4(s, t);
    Bsuccessors2Records([1, 2, 10, 5], s, 1, 0);
    SamePairEntry([1, 2, 10, 5], s, x, a, b, 2, 1);
  }

  /** A crossing of the dict keeps the travellers split and costs no less than the drop in the
      time still needed. */
  lemma EntryStep(order: seq<nat>, s: Bank, x: (Bank, Crossing))
    requires Split(s) && x in Bsuccessors2(order, s)
    ensures Split(x.0) && Remaining(s) <= Bcost(x.1) + Remaining(x.0)
  {
    Bsuccessors2Sound(order, s);
    var a, b :| Person(a) in LightSide(s.0, s.1) && Person(b) in LightSide(s.0, s.1) && x == Cross2(s, a, b);
    RemainingStep(s, a, b);
  }

  /** Along a path the total so far plus the time still needed never falls back. */
  lemma {:induction false} NoLaterSooner(order: seq<nat>, q: CostPath<Bank, Crossing>, start: Bank, k: nat)
    requires ValidCostPath(q, start, Succ2(order), Bcost) && k <= Steps(q) && Split(StateAt(q, k))
    ensures TotalAt(q, k) + Remaining(StateAt(q, k)) <= TotalAt(q, Steps(q)) + Remaining(LastState(q))
    decreases Steps(q) - k
  {
    if k < Steps(q) {
      PotentialStep(order, q, start, k);
      NoLaterSooner(order, q, start, k + 1);
    }
  }

  /** One step of a path: the total so far plus the time still needed does not fall. */
  lemma PotentialStep(order: seq<nat>, q: CostPath<Bank, Crossing>, start: Bank, k: nat)
    requires ValidCostPath(q, start, Succ2(order), Bcost) && k < Steps(q) && Split(StateAt(q, k))
    ensures Split(StateAt(q, k + 1))
    ensures TotalAt(q, k) + Remaining(StateAt(q, k)) <= TotalAt(q, k + 1) + Remaining(StateAt(q, k + 1))
  {
    var x := (StateAt(q, k + 1), ActionAt(q, k).0);
    assert CostStep(q, Succ2(order), Bcost, k);
    EntryStep(order, StateAt(q, k), x);
  }

  /** A way to get 1, 2, 5 and 10 over at a cost of 17. */
  ghost predicate Quickest(q: CostPath<Bank, Crossing>) {
    CostGoalPath(q, Start2([1, 2, 5, 10]), Succ2([1, 2, 10, 5]), AllOver, Bcost) && PathCost(q) == 17
  }

  /** On a way across at a cost of 17, every crossing is tight. */
  lemma TightAt(q: CostPath<Bank, Crossing>, k: nat)
    requires Quickest(q) && k < Steps(q)
    ensures Split(StateAt(q, k)) && TightEntry([1, 2, 10, 5], StateAt(q, k), (StateAt(q, k + 1), ActionAt(q, k).0))
    ensures ActionAt(q, k).1 == TotalAt(q, k) + Bcost(ActionAt(q, k).0)
  {
    var order := [1, 2, 10, 5];
    RemainingAlong(order, q, k);
    RemainingAlong(order, q, k + 1);
    assert CostStep(q, Succ2(order), Bcost, k);
    NoLaterSooner(order, q, Start2([1, 2, 5, 10]), k + 1);
    PathCostIsLastTotal(q);
    EntryStep(order, StateAt(q, k), (StateAt(q, k + 1), ActionAt(q, k).0));
  }

  /** Every way across starts where S2 does. */
  lemma FollowFrom(q: CostPath<Bank, Crossing>)
    requires Quickest(q)
    ensures Follows(q, ExpectedPath(), 0)
  {
    ExpectedShape();
    ExpectedStart();
  }

  /** Every way across at a cost of 17 starts as S2 does, with 1 and 2 going over. */
  lemma FollowStart(q: CostPath<Bank, Crossing>)
    requires Quickest(q) && Follows(q, ExpectedPath(), 0)
    ensures Follows(q, ExpectedPath(), 1) && 1 < Steps(q)
  {
    var p := ExpectedPath();
    ExpectedShape();
    FollowsState(q, p, 0);
    TightAt(q, 0);
    TightFromStart(StateAt(q, 0), (StateAt(q, 1), ActionAt(q, 0).0));
    ExpectedCostStep(0);
    FollowsCost(q, p, 0, Bcost(ActionAt(p, 0).0));
  }

  /** S1 starts as S2 does. */
  lemma SameStart(q: CostPath<Bank, Crossing>)
    requires Follows(q, ExpectedPath(), 1)
    ensures Follows(q, OtherPath(), 1)
  {
    assert WellFormed(OtherPath());
    assert OtherPath()[..3] == ExpectedPath()[..3];
  }

  /** Then 1 comes back, as in S1, ... */
  lemma FollowOtherFirst(q: CostPath<Bank, Crossing>)
    requires Quickest(q) && Follows(q, OtherPath(), 1) && 1 < Steps(q) && ActionAt(q, 1).0 == (1, 1, "<-")
    ensures Follows(q, OtherPath(), 2)
  {
    var p := OtherPath();
    OtherShape();
    FollowsState(q, p, 1);
    TightAt(q, 1);
    TightFromFirst(StateAt(q, 1), (StateAt(q, 2), ActionAt(q, 1).0));
    OtherCostStep(1);
    FollowsCost(q, p, 1, Bcost(ActionAt(p, 1).0));
  }

  /** ... or 2 does, as in S2. */
  lemma FollowExpectedFirst(q: CostPath<Bank, Crossing>)
    requires Quickest(q) && Follows(q, ExpectedPath(), 1) && 1 < Steps(q) && ActionAt(q, 1).0 != (1, 1, "<-")
    ensures Follows(q, ExpectedPath(), 2)
  {
    var p := ExpectedPath();
    ExpectedShape();
    FollowsState(q, p, 1);
    TightAt(q, 1);
    TightFromFirst(StateAt(q, 1), (StateAt(q, 2), ActionAt(q, 1).0));
    ExpectedCostStep(1);
    FollowsCost(q, p, 1, Bcost(ActionAt(p, 1).0));
  }

  /** In S1, 5 and 10 then go over. */
  lemma FollowOtherSecond(q: CostPath<Bank, Crossing>)
    requires Quickest(q) && Follows(q, OtherPath(), 2)
    ensures Follows(q, OtherPath(), 3)
  {
    var p := OtherPath();
    OtherShape();
    FollowsState(q, p, 2);
    TightAt(q, 2);
    TightFromOne(StateAt(q, 2), (StateAt(q, 3), ActionAt(q, 2).0));
    OtherCostStep(2);
    FollowsCost(q, p, 2, Bcost(ActionAt(p, 2).0));
  }

  /** In S1, 2 then comes back. */
  lemma FollowOtherThird(q: CostPath<Bank, Crossing>)
    requires Quickest(q) && Follows(q, OtherPath(), 3)
    ensures Follows(q, OtherPath(), 4)
  {
    var p := OtherPath();
    OtherShape();
    FollowsState(q, p, 3);
    TightAt(q, 3);
    TightFromOneLeft(StateAt(q, 3), (StateAt(q, 4), ActionAt(q, 3).0));
    OtherCostStep(3);
    FollowsCost(q, p, 3, Bcost(ActionAt(p, 3).0));
  }

  /** In S1, 1 and 2 then go over. */
  lemma FollowOtherLast(q: CostPath<Bank, Crossing>)
    requires Quickest(q) && Follows(q, OtherPath(), 4)
    ensures Follows(q, OtherPath(), 5)
  {
    var p := OtherPath();
    TightAt(q, 4);
    OtherShape();
    FollowsState(q, p, 4);
    TightFromLast(StateAt(q, 4), (StateAt(q, 5), ActionAt(q, 4).0));
    OtherCostStep(4);
    FollowsCost(q, p, 4, Bcost(ActionAt(p, 4).0));
  }

  /** In S2, 5 and 10 then go over. */
  lemma FollowExpectedSecond(q: CostPath<Bank, Crossing>)
    requires Quickest(q) && Follows(q, ExpectedPath(), 2)
    ensures Follows(q, ExpectedPath(), 3)
  {
    var p := ExpectedPath();
    ExpectedShape();
    FollowsState(q, p, 2);
    TightAt(q, 2);
    TightFromTwo(StateAt(q, 2), (StateAt(q, 3), ActionAt(q, 2).0));
    ExpectedCostStep(2);
    FollowsCost(q, p, 2, Bcost(ActionAt(p, 2).0));
  }

  /** In S2, 1 then comes back. */
  lemma FollowExpectedThird(q: CostPath<Bank, Crossing>)
    requires Quickest(q) && Follows(q, ExpectedPath(), 3)
    ensures Follows(q, ExpectedPath(), 4)
  {
    var p := ExpectedPath();
    ExpectedShape();
    FollowsState(q, p, 3);
    TightAt(q, 3);
    TightFromTwoLeft(StateAt(q, 3), (StateAt(q, 4), ActionAt(q, 3).0));
    ExpectedCostStep(3);
    FollowsCost(q, p, 3, Bcost(ActionAt(p, 3).0));
  }

  /** In S2, 1 and 2 then go over. */
  lemma FollowExpectedLast(q: CostPath<Bank, Crossing>)
    requires Quickest(q) && Follows(q, ExpectedPath(), 4)
    ensures Follows(q, ExpectedPath(), 5)
  {
    var p := ExpectedPath();
    ExpectedShape();
    FollowsState(q, p, 4);
    TightAt(q, 4);
    TightFromLast(StateAt(q, 4), (StateAt(q, 5), ActionAt(q, 4).0));
    ExpectedCostStep(4);
    FollowsCost(q, p, 4, Bcost(ActionAt(p, 4).0));
  }

  /** A crossing that loses no time leaves from a side with somebody on it. */
  lemma TightNeedsSomeone(order: seq<nat>, s: Bank, x: (Bank, Crossing))
    requires Split(s) && TightEntry(order, s, x)
    ensures s.0 != {}
  {
    var a, b := TightMovers(order, s, x);
    TightCrossings(s, a, b);
  }

  /** With everybody over no crossing is tight, so a way across at a cost of 17 that has
      reached p's last state ends there. */
  lemma FollowEnd(q: CostPath<Bank, Crossing>, p: CostPath<Bank, Crossing>)
    requires Quickest(q) && Follows(q, p, 5) && Steps(p) == 5 && StateAt(p, 5).0 == {}
    ensures q == p
  {
    FollowsState(q, p, 5);
    if Steps(q) > 5 {
      TightAt(q, 5);
      TightNeedsSomeone([1, 2, 10, 5], StateAt(q, 5), (StateAt(q, 6), ActionAt(q, 5).0));
    }
    FollowsAll(q, p);
  }


  /** The two solutions are the only ways to get 1, 2, 5 and 10 over at a cost of 17. */
  lemma QuickestPaths(q: CostPath<Bank, Crossing>)
    requires Quickest(q)
    ensures q == OtherPath() || q == ExpectedPath()
  {
    FollowFrom(q);
    FollowStart(q);
    if ActionAt(q, 1).0 == (1, 1, "<-") {
      SameStart(q);
      FollowOtherFirst(q);
      FollowOtherSecond(q);
      FollowOtherThird(q);
      FollowOtherLast(q);
      OtherShape();
      FollowEnd(q, OtherPath());
    } else {
      FollowExpectedFirst(q);
      FollowExpectedSecond(q);
      FollowExpectedThird(q);
      FollowExpectedLast(q);
      ExpectedShape();
      FollowEnd(q, ExpectedPath());
    }
  }

  lemma Crossing0(s: Bank, t: Bank)
    requires s == ({Person(1), Person(2), Light, Person(10), Person(5)}, {})
    requires t == ({Person(10), Person(5)}, {Person(1), Person(2), Light})
    ensures RecordedStep([1, 2, 10, 5], s, 1, 0, t, (2, 1, "->"))
  {
    assert s.0 - Moved(2, 1) == t.0;
    assert s.1 + Moved(2, 1) == t.1;
    Waiting0(s);
  }

  lemma Crossing1(s: Bank, t: Bank)
    requires s == ({Person(10), Person(5)}, {Person(1), Person(2), Light})
    requires t == ({Light, Person(10), Person(2), Person(5)}, {Person(1)})
    ensures RecordedStep([1, 2, 10, 5], s, 1, 1, t, (2, 2, "<-"))
  {
    assert s.0 + Moved(2, 2) == t.0;
    assert s.1 - Moved(2, 2) == t.1;
    Waiting1(s);
  }

  lemma Crossing2(s: Bank, t: Bank)
    requires s == ({Light, Person(10), Person(2), Person(5)}, {Person(1)})
    requires t == ({Person(2)}, {Person(1), Person(10), Person(5), Light})
    ensures RecordedStep([1, 2, 10, 5], s, 2, 1, t, (5, 10, "->"))
  {
    assert s.0 - Moved(5, 10) == t.0;
    assert s.1 + Moved(5, 10) == t.1;
    Waiting2(s);
  }

  lemma Crossing3(s: Bank, t: Bank)
    requires s == ({Person(2)}, {Person(1), Person(10), Person(5), Light})
    requires t == ({Person(1), Person(2), Light}, {Person(10), Person(5)})
    ensures RecordedStep([1, 2, 10, 5], s, 0, 0, t, (1, 1, "<-"))
  {
    assert s.0 + Moved(1, 1) == t.0;
    assert s.1 - Moved(1, 1) == t.1;
    Waiting3(s);
  }

  lemma Crossing4(s: Bank, t: Bank)
    requires s == ({Person(1), Person(2), Light}, {Person(10), Person(5)})
    requires t == ({}, {Person(1), Person(10), Person(2), Person(5), Light})
    ensures RecordedStep([1, 2, 10, 5], s, 1, 0, t, (2, 1, "->"))
  {
    assert s.0 - Moved(2, 1) == t.0;
    assert s.1 + Moved(2, 1) == t.1;
    Waiting4(s);
  }

  lemma Waiting0(s: Bank)
    requires s == ({Person(1), Person(2), Light, Person(10), Person(5)}, {})
    ensures Waiting([1, 2, 10, 5], s) == [1, 2, 10, 5]
  {
    Listed0();
    WaitingOf([1, 2, 10, 5], s, {1, 2, 10, 5}, [1, 2, 10, 5]);
  }

  lemma Listed0()
    ensures Listed([1, 2, 10, 5], {1, 2, 10, 5}) == [1, 2, 10, 5]
  {
  }

  lemma Waiting1(s: Bank)
    requires s == ({Person(10), Person(5)}, {Person(1), Person(2), Light})
    ensures Waiting([1, 2, 10, 5], s) == [1, 2]
  {
    Listed1();
    WaitingOf([1, 2, 10, 5], s, {1, 2}, [1, 2]);
  }

  lemma Listed1()
    ensures Listed([1, 2, 10, 5], {1, 2}) == [1, 2]
  {
  }

  lemma Waiting2(s: Bank)
    requires s == ({Light, Person(10), Person(2), Person(5)}, {Person(1)})
    ensures Waiting([1, 2, 10, 5], s) == [2, 10, 5]
  {
    Listed2();
    WaitingOf([1, 2, 10, 5], s, {2, 10, 5}, [2, 10, 5]);
  }

  lemma Listed2()
    ensures Listed([1, 2, 10, 5], {2, 10, 5}) == [2, 10, 5]
  {
  }

  lemma Waiting3(s: Bank)
    requires s == ({Person(2)}, {Person(1), Person(10), Person(5), Light})
    ensures Waiting([1, 2, 10, 5], s) == [1, 10, 5]
  {
    Listed3();
    WaitingOf([1, 2, 10, 5], s, {1, 10, 5}, [1, 10, 5]);
  }

  lemma Listed3()
    ensures Listed([1, 2, 10, 5], {1, 10, 5}) == [1, 10, 5]
  {
  }

  lemma Waiting4(s: Bank)
    requires s == ({Person(1), Person(2), Light}, {Person(10), Person(5)})
    ensures Waiting([1, 2, 10, 5], s) == [1, 2]
  {
    Listed4();
    WaitingOf([1, 2, 10, 5], s, {1, 2}, [1, 2]);
  }

  lemma Listed4()
    ensures Listed([1, 2, 10, 5], {1, 2}) == [1, 2]
  {
  }

  lemma Waiting5(s: Bank)
    requires s == ({Light, Person(10), Person(1), Person(5)}, {Person(2)})
    ensures Waiting([1, 2, 10, 5], s) == [1, 10, 5]
  {
    Listed3();
    WaitingOf([1, 2, 10, 5], s, {1, 10, 5}, [1, 10, 5]);
  }

  lemma Waiting6(s: Bank)
    requires s == ({Person(1)}, {Person(2), Person(10), Person(5), Light})
    ensures Waiting([1, 2, 10, 5], s) == [2, 10, 5]
  {
    Listed2();
    WaitingOf([1, 2, 10, 5], s, {2, 10, 5}, [2, 10, 5]);
  }
}
