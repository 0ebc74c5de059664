/** The moves of the bridge puzzle shared by its three successor functions: travellers are
    people, known by their crossing times, and the light; a move takes one or two people from
    the light's side, with the light, to the other side. The comprehensions enumerate a set
    `for a in side for b in side`; the model enumerates every set in one fixed `order` of the
    people's times. */
module BridgeMoves {
  import opened Common

  datatype Traveller = Light | Person(time: nat)

  type Side = set<Traveller>

  /** The times of the people on a side (the `a is not "light"` filter). */
  function Times(side: Side): set<nat> {
    set x | x in side && x.Person? :: x.time
  }

  /** `Person(t)` for each t. */
  function People(times: set<nat>): Side {
    set t | t in times :: Person(t)
  }

  /** The members of s in the enumeration order. */
  function Listed(order: seq<nat>, s: set<nat>): seq<nat> {
    if order == [] then [] else (if order[0] in s then [order[0]] else []) + Listed(order[1..], s)
  }

  /** The listed members are those of the order that are in s. */
  lemma {:induction false} ListedMembers(order: seq<nat>, s: set<nat>)
    ensures forall t :: t in Listed(order, s) <==> t in order && t in s
  {
    if order != [] {
      ListedMembers(order[1..], s);
      assert forall t :: t in order <==> t == order[0] || t in order[1..];
    }
  }

  lemma ListedMember(order: seq<nat>, s: set<nat>, t: nat)
    ensures t in Listed(order, s) <==> t in order && t in s
  {
    ListedMembers(order, s);
  }

  predicate Distinct(s: seq<nat>) {
    forall i, j :: 0 <= i < j < |s| ==> s[i] != s[j]
  }

  lemma {:induction false} ListedDistinct(order: seq<nat>, s: set<nat>)
    requires Distinct(order)
    ensures Distinct(Listed(order, s))
  {
    if order != [] {
      ListedDistinct(order[1..], s);
      var rest := Listed(order[1..], s);
      if order[0] in s {
        var r := [order[0]] + rest;
        forall i, j | 0 <= i < j < |r| ensures r[i] != r[j] {
          if i == 0 {
            assert r[j] in rest;
            ListedMember(order[1..], s, r[j]);
            assert order[0] !in order[1..];
          } else {
            assert r[i] == rest[i - 1] && r[j] == rest[j - 1];
          }
        }
      }
    }
  }

  /** `[f(a, b) for b in qs]`. */
  function Row<T>(a: nat, qs: seq<nat>, f: (nat, nat) -> T): (r: seq<T>)
    ensures |r| == |qs| && forall j :: 0 <= j < |qs| ==> r[j] == f(a, qs[j])
  {
    if qs == [] then [] else [f(a, qs[0])] + Row(a, qs[1..], f)
  }

  /** `[f(a, b) for a in ps for b in qs]`, in the order the nested loops produce. */
  function Trips<T>(ps: seq<nat>, qs: seq<nat>, f: (nat, nat) -> T): seq<T> {
    if ps == [] then [] else Row(ps[0], qs, f) + Trips(ps[1..], qs, f)
  }

  /** The loops produce f(a, b) for every a of ps and b of qs, and nothing else. */
  lemma {:induction false} TripsMembers<T>(ps: seq<nat>, qs: seq<nat>, f: (nat, nat) -> T)
    ensures forall x :: x in Trips(ps, qs, f) ==> exists a, b :: a in ps && b in qs && x == f(a, b)
    ensures forall a, b :: a in ps && b in qs ==> f(a, b) in Trips(ps, qs, f)
  {
    if ps != [] {
      TripsMembers(ps[1..], qs, f);
      var row := Row(ps[0], qs, f);
      assert Trips(ps, qs, f) == row + Trips(ps[1..], qs, f);
      forall x | x in Trips(ps, qs, f) ensures exists a, b :: a in ps && b in qs && x == f(a, b) {
        if x in row {
          var j :| 0 <= j < |qs| && row[j] == x;
          assert ps[0] in ps && qs[j] in qs && x == f(ps[0], qs[j]);
        } else {
          assert x in Trips(ps[1..], qs, f);
          var a, b :| a in ps[1..] && b in qs && x == f(a, b);
          assert a in ps;
        }
      }
      forall a, b | a in ps && b in qs ensures f(a, b) in Trips(ps, qs, f) {
        if a == ps[0] {
          var j :| 0 <= j < |qs| && qs[j] == b;
          assert row[j] == f(a, b);
        } else {
          assert a in ps[1..];
        }
      }
    }
  }

  lemma {:induction false} TripsAppend<T>(p1: seq<nat>, p2: seq<nat>, qs: seq<nat>, f: (nat, nat) -> T)
    ensures Trips(p1 + p2, qs, f) == Trips(p1, qs, f) + Trips(p2, qs, f)
  {
    if p1 == [] {
      assert p1 + p2 == p2;
    } else {
      assert (p1 + p2)[1..] == p1[1..] + p2;
      TripsAppend(p1[1..], p2, qs, f);
    }
  }

  /** Every pair the loops produce gives a key of the dict built from them. */
  lemma TripsKey<K, V>(ps: seq<nat>, qs: seq<nat>, f: (nat, nat) -> (K, V), a: nat, b: nat)
    requires a in ps && b in qs
    ensures f(a, b).0 in Keys(DictFromPairs(Trips(ps, qs, f)))
  {
    var trips := Trips(ps, qs, f);
    TripsMembers(ps, qs, f);
    var n :| 0 <= n < |trips| && trips[n] == f(a, b);
    assert Keys(trips)[n] == f(a, b).0;
    DictFromPairsItems(trips);
  }

  /** Splitting the outer loop at ps[i]. */
  lemma TripsSplit<T>(ps: seq<nat>, qs: seq<nat>, f: (nat, nat) -> T, i: nat)
    requires i < |ps|
    ensures Trips(ps, qs, f) == Trips(ps[..i], qs, f) + (Row(ps[i], qs, f) + Trips(ps[i + 1..], qs, f))
  {
    var front, back := ps[..i], ps[i + 1..];
    assert ps == front + ([ps[i]] + back);
    TripsAppend(front, [ps[i]] + back, qs, f);
    TripsHead(ps[i], back, qs, f);
  }

  lemma TripsHead<T>(a: nat, back: seq<nat>, qs: seq<nat>, f: (nat, nat) -> T)
    ensures Trips([a] + back, qs, f) == Row(a, qs, f) + Trips(back, qs, f)
  {
    assert ([a] + back)[1..] == back;
  }

  lemma RowSplit<T>(a: nat, qs: seq<nat>, f: (nat, nat) -> T, j: nat)
    requires j < |qs|
    ensures Row(a, qs, f) == Row(a, qs[..j], f) + [f(a, qs[j])] + Row(a, qs[j + 1..], f)
  {
    var row, front, back := Row(a, qs, f), Row(a, qs[..j], f), Row(a, qs[j + 1..], f);
    var joined := front + [f(a, qs[j])] + back;
    assert |joined| == |row|;
    forall m | 0 <= m < |row| ensures joined[m] == row[m] {
      if m < j {
        assert joined[m] == front[m];
      } else if m > j {
        assert joined[m] == back[m - j - 1] && qs[j + 1..][m - j - 1] == qs[m];
      }
    }
  }

  /** The value a dict built from X + [e] + Y keeps for e's key, when Y does not repeat it. */
  lemma {:induction false} LastValueSplit<K, V>(x: seq<(K, V)>, e: (K, V), y: seq<(K, V)>)
    requires e.0 !in Keys(y)
    ensures e.0 in Keys(x + [e] + y) && LastValue(x + [e] + y, e.0) == e.1
  {
    var ps := x + [e] + y;
    assert ps[|x|] == e;
    if y != [] {
      var init := x + [e] + y[..|y| - 1];
      assert ps[..|ps| - 1] == init;
      assert ps[|ps| - 1] == y[|y| - 1];
      assert e.0 != Keys(y)[|y| - 1];
      KeysSnoc(ps);
      LastValueSplit(x, e, y[..|y| - 1]);
    }
  }

  /** A dict built from X + [e] + Y holds the item e when Y does not repeat e's key. */
  lemma DictKeepsLast<K, V>(x: seq<(K, V)>, e: (K, V), y: seq<(K, V)>)
    requires e.0 !in Keys(y)
    ensures e in DictFromPairs(x + [e] + y)
  {
    var all := x + [e] + y;
    LastValueSplit(x, e, y);
    DictFromPairsItems(all);
    DictFromPairsSpec(all);
    var d := DictFromPairs(all);
    assert e.0 in Keys(d);
    var n :| 0 <= n < |d| && Keys(d)[n] == e.0;
    assert d[n] == e;
  }

  /** After the pair (ps[i], ps[j]), the loops never again produce its key. */
  lemma TailKeys<K, V>(ps: seq<nat>, f: (nat, nat) -> (K, V), i: nat, j: nat)
    requires Distinct(ps) && j <= i < |ps|
    requires forall c, q :: c in ps && q in ps ==>
      (f(c, q).0 == f(ps[i], ps[j]).0 <==> (c == ps[i] && q == ps[j]) || (c == ps[j] && q == ps[i]))
    ensures f(ps[i], ps[j]).0 !in Keys(Row(ps[i], ps[j + 1..], f) + Trips(ps[i + 1..], ps, f))
  {
    var k := f(ps[i], ps[j]).0;
    var rowTail := Row(ps[i], ps[j + 1..], f);
    var later := Trips(ps[i + 1..], ps, f);
    var y := rowTail + later;
    forall m | 0 <= m < |y| ensures y[m].0 != k {
      if m < |rowTail| {
        RowTailKey(ps, f, i, j, m);
      } else {
        assert y[m] == later[m - |rowTail|];
        LaterKey(ps, f, i, j, y[m]);
      }
    }
  }

  lemma RowTailKey<K, V>(ps: seq<nat>, f: (nat, nat) -> (K, V), i: nat, j: nat, m: nat)
    requires Distinct(ps) && j <= i < |ps| && m < |ps[j + 1..]|
    requires forall c, q :: c in ps && q in ps ==>
      (f(c, q).0 == f(ps[i], ps[j]).0 <==> (c == ps[i] && q == ps[j]) || (c == ps[j] && q == ps[i]))
    ensures Row(ps[i], ps[j + 1..], f)[m].0 != f(ps[i], ps[j]).0
  {
    assert ps[j + 1..][m] == ps[j + 1 + m];
    assert ps[j + 1 + m] in ps;
  }

  lemma LaterKey<K, V>(ps: seq<nat>, f: (nat, nat) -> (K, V), i: nat, j: nat, x: (K, V))
    requires Distinct(ps) && j <= i < |ps| && x in Trips(ps[i + 1..], ps, f)
    requires forall c, q :: c in ps && q in ps ==>
      (f(c, q).0 == f(ps[i], ps[j]).0 <==> (c == ps[i] && q == ps[j]) || (c == ps[j] && q == ps[i]))
    ensures x.0 != f(ps[i], ps[j]).0
  {
    TripsMembers(ps[i + 1..], ps, f);
    var c, q :| c in ps[i + 1..] && q in ps && x == f(c, q);
    var ic :| i + 1 <= ic < |ps| && ps[ic] == c;
  }

  lemma Regroup<T>(t1: seq<T>, r1: seq<T>, e: T, r2: seq<T>, t2: seq<T>)
    ensures t1 + ((r1 + [e] + r2) + t2) == (t1 + r1) + [e] + (r2 + t2)
  {
  }

  /** Which pair the dict records for a key: for a, b of distinct ps with b listed no later than a,
      when only the pairs (a, b) and (b, a) produce the key of f(a, b), the dict built by
      `{key: value for a in ps for b in ps}` keeps the value of f(a, b), the later of the two. */
  lemma RecordedPair<K, V>(ps: seq<nat>, f: (nat, nat) -> (K, V), i: nat, j: nat)
    requires Distinct(ps) && j <= i < |ps|
    requires forall c, q :: c in ps && q in ps ==>
      (f(c, q).0 == f(ps[i], ps[j]).0 <==> (c == ps[i] && q == ps[j]) || (c == ps[j] && q == ps[i]))
    ensures f(ps[i], ps[j]) in DictFromPairs(Trips(ps, ps, f))
  {
    TripsSplit(ps, ps, f, i);
    RowSplit(ps[i], ps, f, j);
    TailKeys(ps, f, i, j);
    var t1, t2 := Trips(ps[..i], ps, f), Trips(ps[i + 1..], ps, f);
    var r1, r2 := Row(ps[i], ps[..j], f), Row(ps[i], ps[j + 1..], f);
    var e := f(ps[i], ps[j]);
    Regroup(t1, r1, e, r2, t2);
    DictKeepsLast(t1 + r1, e, r2 + t2);
  }

  /** The light's side. */
  function LightSide(here: Side, there: Side): Side {
    if Light in here then here else there
  }

  /** The people and the light that cross together: `frozenset([a, b, "light"])`. */
  function Moved(a: nat, b: nat): Side {
    {Person(a), Person(b), Light}
  }

  function Max(a: nat, b: nat): nat {
    if a >= b then a else b
  }

  /** When a, b, c and q all stand on a side, taking {a, b} or {c, q} (with the light) off it
      leaves the same group exactly when the two pairs name the same people. */
  lemma MovedDetermined(side: Side, a: nat, b: nat, c: nat, q: nat)
    requires Person(a) in side && Person(b) in side && Person(c) in side && Person(q) in side
    ensures side - Moved(a, b) == side - Moved(c, q) <==> (c == a && q == b) || (c == b && q == a)
    ensures (c == a && q == b) || (c == b && q == a) ==> Moved(a, b) == Moved(c, q)
  {
    if side - Moved(a, b) == side - Moved(c, q) {
      assert Person(c) !in side - Moved(c, q);
      assert Person(q) !in side - Moved(c, q);
      assert Person(a) !in side - Moved(a, b);
      assert Person(b) !in side - Moved(a, b);
      assert Person(c) in Moved(a, b) && Person(q) in Moved(a, b);
      assert Person(a) in Moved(c, q) && Person(b) in Moved(c, q);
    }
    if c == b && q == a {
      assert Moved(a, b) == Moved(c, q);
    }
  }
}
