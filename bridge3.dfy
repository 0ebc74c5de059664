/** The bridge puzzle with the light kept apart from the people: a state is
    (here, there, light) with light 0 on the near side and 1 on the far side, and an action is
    the set of walkers with the direction. */
module Bridge3 {
  import opened Common
  import opened Paths
  import opened CostPaths
  import opened CostSearch
  import opened BridgeMoves
  import Bridge

  type Bank3 = (set<nat>, set<nat>, nat)

  /** (travellers, arrow). */
  type Move = (set<nat>, string)

  /** The entry of the successor dict for a and b crossing; `not light` holds for 0 alone. */
  function Cross3(s: Bank3, a: nat, b: nat): (Bank3, Move) {
    if s.2 == 0 then ((s.0 - {a, b}, s.1 + {a, b}, 1), ({a, b}, "->"))
    else ((s.0 + {a, b}, s.1 - {a, b}, 0), ({a, b}, "<-"))
  }

  function Cross3Fn(s: Bank3): (nat, nat) -> (Bank3, Move) {
    (a: nat, b: nat) => Cross3(s, a, b)
  }

  function LightSide3(s: Bank3): set<nat> {
    if s.2 == 0 then s.0 else s.1
  }

  function Waiting3(order: seq<nat>, s: Bank3): seq<nat> {
    Listed(order, LightSide3(s))
  }

  /** `bsuccessors3`. */
  function Bsuccessors3(order: seq<nat>, s: Bank3): seq<(Bank3, Move)> {
    var ps := Waiting3(order, s);
    DictFromPairs(Trips(ps, ps, Cross3Fn(s)))
  }

  function Succ3(order: seq<nat>): Bank3 -> seq<(Bank3, Move)> {
    (s: Bank3) => Bsuccessors3(order, s)
  }

  /** `all_over` (second version): nobody is left here. */
  function AllOver2(s: Bank3): bool {
    s.0 == {}
  }

  /** The largest member of a non-empty set. */
  function SetMax(s: set<nat>): (m: nat)
    requires s != {}
    ensures m in s && forall x :: x in s ==> x <= m
  {
    MaxExists(s);
    var m :| m in s && forall x :: x in s ==> x <= m;
    m
  }

  lemma {:induction false} MaxExists(s: set<nat>)
    requires s != {}
    ensures exists m :: m in s && forall x :: x in s ==> x <= m
    decreases |s|
  {
    var y :| y in s;
    if s != {y} {
      MaxExists(s - {y});
      var m :| m in s - {y} && forall x :: x in s - {y} ==> x <= m;
      var top := if y > m then y else m;
      forall x | x in s ensures x <= top {
        if x != y {
          assert x in s - {y};
        }
      }
      assert top in s;
    } else {
      assert forall x :: x in s ==> x <= y;
    }
  }

  /** `bcost` (second version): `max(s)`, the slowest walker of the move. `max` of an empty
      set raises in Python; no move has an empty set of walkers, and the model gives it 0. */
  function Bcost2(action: Move): (c: nat)
    ensures action.0 != {} ==> c in action.0 && forall x :: x in action.0 ==> x <= c
  {
    if action.0 == {} then 0 else SetMax(action.0)
  }

  /** `(frozenset(here), frozenset(), 0)`. */
  function Start4(here: seq<nat>): Bank3 {
    (Bridge.ToSet(here), {}, 0)
  }

  /** All (here, there, light) triples over the people of `e`, with the light at 0 or 1. */
  ghost function Banks3(e: set<nat>): set<Bank3> {
    set h: set<nat>, t: set<nat>, l: nat | h <= e && t <= e && l in {0, 1} :: (h, t, l)
  }

  /** Each entry of the dict is a crossing of people standing with the light, and every such
      crossing, in either order, is an entry: both orders name the same walkers, so the dict
      does not depend on the enumeration order. */
  lemma Bsuccessors3Entries(order: seq<nat>, s: Bank3)
    requires Distinct(order)
    ensures forall x :: x in Bsuccessors3(order, s) ==>
      exists a, b :: a in LightSide3(s) && b in LightSide3(s) && x == Cross3(s, a, b)
    ensures forall a, b :: a in order && b in order && a in LightSide3(s) && b in LightSide3(s) ==>
      Cross3(s, a, b) in Bsuccessors3(order, s)
  {
    Bsuccessors3Sound(order, s);
    forall a, b | a in order && b in order && a in LightSide3(s) && b in LightSide3(s)
      ensures Cross3(s, a, b) in Bsuccessors3(order, s)
    {
      Bsuccessors3Records(order, s, a, b);
    }
  }

  lemma Bsuccessors3Sound(order: seq<nat>, s: Bank3)
    ensures forall x :: x in Bsuccessors3(order, s) ==>
      exists a, b :: a in LightSide3(s) && b in LightSide3(s) && x == Cross3(s, a, b)
  {
    forall x | x in Bsuccessors3(order, s)
      ensures exists a, b :: a in LightSide3(s) && b in LightSide3(s) && x == Cross3(s, a, b)
    {
      var a, b := Bsuccessors3Entry(order, s, x);
    }
  }

  /** The walkers behind one entry of the dict. */
  lemma Bsuccessors3Entry(order: seq<nat>, s: Bank3, x: (Bank3, Move)) returns (a: nat, b: nat)
    requires x in Bsuccessors3(order, s)
    ensures a in LightSide3(s) && b in LightSide3(s) && x == Cross3(s, a, b)
  {
    var ps := Waiting3(order, s);
    var trips := Trips(ps, ps, Cross3Fn(s));
    DictFromPairsItems(trips);
    LastValueIn(trips, x.0);
    assert x in trips;
    TripsMembers(ps, ps, Cross3Fn(s));
    a, b :| a in ps && b in ps && x == Cross3Fn(s)(a, b);
    ListedMember(order, LightSide3(s), a);
    ListedMember(order, LightSide3(s), b);
  }

  lemma Bsuccessors3Records(order: seq<nat>, s: Bank3, a: nat, b: nat)
    requires Distinct(order) && a in order && b in order && a in LightSide3(s) && b in LightSide3(s)
    ensures Cross3(s, a, b) in Bsuccessors3(order, s)
  {
    var ps := Waiting3(order, s);
    ListedDistinct(order, LightSide3(s));
    ListedMembers(order, LightSide3(s));
    var i :| 0 <= i < |ps| && ps[i] == a;
    var j :| 0 <= j < |ps| && ps[j] == b;
    assert {a, b} == {b, a};
    var hi, lo := if j <= i then i else j, if j <= i then j else i;
    Cross3Keys(order, s, ps[hi], ps[lo]);
    RecordedPair(ps, Cross3Fn(s), hi, lo);
  }

  /** Only a and b themselves, in either order, lead to the state a and b reach. */
  lemma Cross3Keys(order: seq<nat>, s: Bank3, a: nat, b: nat)
    requires a in LightSide3(s) && b in LightSide3(s)
    ensures forall c, q :: c in Waiting3(order, s) && q in Waiting3(order, s) ==>
      (Cross3(s, c, q).0 == Cross3(s, a, b).0 <==> (c == a && q == b) || (c == b && q == a))
  {
    forall c, q | c in Waiting3(order, s) && q in Waiting3(order, s)
      ensures Cross3(s, c, q).0 == Cross3(s, a, b).0 <==> (c == a && q == b) || (c == b && q == a)
    {
      ListedMember(order, LightSide3(s), c);
      ListedMember(order, LightSide3(s), q);
      PairDetermined(LightSide3(s), a, b, c, q);
    }
  }

  lemma PairDetermined(side: set<nat>, a: nat, b: nat, c: nat, q: nat)
    requires a in side && b in side && c in side && q in side
    ensures side - {a, b} == side - {c, q} <==> (c == a && q == b) || (c == b && q == a)
    ensures (c == a && q == b) || (c == b && q == a) ==> {a, b} == {c, q}
  {
    if side - {a, b} == side - {c, q} {
      assert c !in side - {c, q} && q !in side - {c, q};
      assert a !in side - {a, b} && b !in side - {a, b};
    }
  }

  /** A move flips the light and carries the walkers, who stood with it, across: nobody else
      moves, nobody is lost, the two sides stay apart, and the move costs its slower walker. */
  lemma Cross3Moves(s: Bank3, a: nat, b: nat)
    requires s.0 !! s.1 && a in LightSide3(s) && b in LightSide3(s)
    ensures var (t, m) := Cross3(s, a, b);
      && t.0 !! t.1 && t.0 + t.1 == s.0 + s.1
      && (t.2 == 0 <==> s.2 != 0)
      && a in LightSide3(t) && b in LightSide3(t)
      && (forall x :: x != a && x != b ==> (x in t.0 <==> x in s.0) && (x in t.1 <==> x in s.1))
      && m.0 == {a, b} && Bcost2(m) == Max(a, b)
  {
  }

  /** A (here, there, light) state written with the light as a traveller. */
  function Encode(s: Bank3): Bridge.Bank {
    (People(s.0) + (if s.2 == 0 then {Light} else {}), People(s.1) + (if s.2 == 0 then {} else {Light}))
  }

  /** The two encodings agree: the same people wait with the light, crossing a and b lands
      where `bsuccessors2` lands from the encoded state, and the move costs the same. */
  lemma EncodingsAgree(order: seq<nat>, s: Bank3, a: nat, b: nat)
    ensures Waiting3(order, s) == Bridge.Waiting(order, Encode(s))
    ensures Bridge.Cross2(Encode(s), a, b).0 == Encode(Cross3(s, a, b).0)
    ensures Bridge.Bcost(Bridge.Cross2(Encode(s), a, b).1) == Bcost2(Cross3(s, a, b).1)
  {
    WaitingAgree(order, s);
    CrossAgree(s, a, b);
  }

  /** The people standing with the light are the same in both encodings. */
  lemma WaitingAgree(order: seq<nat>, s: Bank3)
    ensures Waiting3(order, s) == Bridge.Waiting(order, Encode(s))
  {
    var e := Encode(s);
    Bridge.TimesAll(LightSide(e.0, e.1));
    assert Times(LightSide(e.0, e.1)) == LightSide3(s);
  }

  /** Crossing a and b lands on the encoding of where the triple lands. */
  lemma CrossAgree(s: Bank3, a: nat, b: nat)
    ensures Bridge.Cross2(Encode(s), a, b).0 == Encode(Cross3(s, a, b).0)
  {
    var e := Encode(s);
    var t := Cross3(s, a, b).0;
    assert Bridge.Cross2(e, a, b).0.0 == Encode(t).0;
    assert Bridge.Cross2(e, a, b).0.1 == Encode(t).1;
  }

  /** Successors of triples drawn from `e` are again drawn from `e`. */
  lemma Banks3Closed(e: set<nat>, order: seq<nat>)
    ensures Closed(Banks3(e), Succ3(order))
  {
    forall s, x | s in Banks3(e) && x in Succ3(order)(s) ensures x.0 in Banks3(e) {
      Bsuccessors3Sound(order, s);
      var a, b :| a in LightSide3(s) && b in LightSide3(s) && x == Cross3(s, a, b);
      assert x.0.0 <= e && x.0.1 <= e && x.0.2 in {0, 1};
    }
  }

  /** `bridge_problem4`: the quickest way to get everybody across, in the second encoding. */
  method BridgeProblem4(order: seq<nat>, here: seq<nat>) returns (path: CostPath<Bank3, Move>)
    requires Distinct(order) && forall t :: t in here ==> t in order
    ensures AllOver2(Start4(here)) ==> path == [St(Start4(here))]
    ensures path != [] ==> CostGoalPath(path, Start4(here), Succ3(order), AllOver2, Bcost2)
    ensures path != [] ==>
      forall q :: CostGoalPath(q, Start4(here), Succ3(order), AllOver2, Bcost2) ==> PathCost(path) <= PathCost(q)
    ensures path == [] ==>
      forall q :: ValidCostPath(q, Start4(here), Succ3(order), Bcost2) ==> !AllOver2(LastState(q))
  {
    var e := Bridge.ToSet(here);
    assert Start4(here) in Banks3(e);
    Banks3Closed(e, order);
    path := LowestCostSearch(Start4(here), Succ3(order), AllOver2, Bcost2, Banks3(e));
  }
}
