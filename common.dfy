/** Shared helpers: an Option type and Python's dict-building semantics over association lists. */
module Common {

  datatype Option<T> = None | Some(value: T)

  /** The keys of an association list, in order. */
  function Keys<K, V>(d: seq<(K, V)>): (ks: seq<K>)
    ensures |ks| == |d| && forall i :: 0 <= i < |d| ==> ks[i] == d[i].0
  {
    seq(|d|, i requires 0 <= i < |d| => d[i].0)
  }

  predicate DistinctKeys<K(==), V>(d: seq<(K, V)>) {
    forall i, j :: 0 <= i < j < |d| ==> d[i].0 != d[j].0
  }

  /** The position of the first pair whose key is k. */
  function IndexOfKey<K(==), V>(d: seq<(K, V)>, k: K): (i: nat)
    requires k in Keys(d)
    ensures i < |d| && d[i].0 == k && forall j :: 0 <= j < i ==> d[j].0 != k
  {
    if d[0].0 == k then 0
    else
      assert Keys(d) == [d[0].0] + Keys(d[1..]);
      1 + IndexOfKey(d[1..], k)
  }

  /** Python's `d[k] = v` on a dict kept as an association list: a present key keeps its
      place and takes the new value; a new key goes last. */
  function DictSet<K(==), V>(d: seq<(K, V)>, k: K, v: V): seq<(K, V)>
  {
    if k in Keys(d) then d[IndexOfKey(d, k) := (k, v)] else d + [(k, v)]
  }

  /** The dict that a Python dict literal or comprehension builds from its pairs, in order. */
  function DictFromPairs<K(==), V>(ps: seq<(K, V)>): seq<(K, V)>
  {
    if |ps| == 0 then [] else DictSet(DictFromPairs(ps[..|ps| - 1]), ps[|ps| - 1].0, ps[|ps| - 1].1)
  }

  lemma DictFromPairsSnoc<K, V>(ps: seq<(K, V)>, k: K, v: V)
    ensures DictFromPairs(ps + [(k, v)]) == DictSet(DictFromPairs(ps), k, v)
  {
    assert (ps + [(k, v)])[..|ps|] == ps;
  }

  /** `d[k] = v` where the first pair already has key k replaces that pair. */
  lemma DictSetHead<K, V>(d: seq<(K, V)>, k: K, v: V)
    requires |d| > 0 && d[0].0 == k
    ensures DictSet(d, k, v) == d[0 := (k, v)]
  {
    assert Keys(d)[0] == k;
  }

  /** `d[k] = v` with a new key appends the pair. */
  lemma DictSetNew<K, V>(d: seq<(K, V)>, k: K, v: V)
    requires forall i :: 0 <= i < |d| ==> d[i].0 != k
    ensures DictSet(d, k, v) == d + [(k, v)]
  {
  }

  lemma DistinctCons<K, V>(h: (K, V), d: seq<(K, V)>)
    requires DistinctKeys(d) && forall j :: 0 <= j < |d| ==> d[j].0 != h.0
    ensures DistinctKeys([h] + d)
  {
    var r := [h] + d;
    forall i, j | 0 <= i < j < |r| ensures r[i].0 != r[j].0 {
      assert r[j] == d[j - 1];
      if i > 0 { assert r[i] == d[i - 1]; }
    }
  }

  /** The elements of s in the order of their first occurrence. */
  function Dedup<T(==)>(s: seq<T>): seq<T> {
    if |s| == 0 then []
    else Dedup(s[..|s| - 1]) + (if s[|s| - 1] in s[..|s| - 1] then [] else [s[|s| - 1]])
  }

  /** The value paired with k by the last pair of ps whose key is k. */
  function LastValue<K(==), V>(ps: seq<(K, V)>, k: K): V
    requires k in Keys(ps)
  {
    if ps[|ps| - 1].0 == k then ps[|ps| - 1].1
    else
      KeysSnoc(ps);
      LastValue(ps[..|ps| - 1], k)
  }

  lemma KeysSnoc<K, V>(ps: seq<(K, V)>)
    requires |ps| > 0
    ensures Keys(ps) == Keys(ps[..|ps| - 1]) + [ps[|ps| - 1].0]
  {
  }

  lemma DedupSnoc<T>(s: seq<T>, x: T)
    ensures Dedup(s + [x]) == Dedup(s) + (if x in s then [] else [x])
  {
    assert (s + [x])[..|s|] == s;
  }

  lemma {:induction false} DedupSameElements<T>(s: seq<T>)
    ensures forall x :: x in Dedup(s) <==> x in s
  {
    if |s| > 0 {
      DedupSameElements(s[..|s| - 1]);
      assert s == s[..|s| - 1] + [s[|s| - 1]];
    }
  }

  /** `d[k] = v` keeps the keys distinct, adds k at the end only when it is new, and changes
      the value of k alone. */
  lemma DictSetShape<K, V>(d: seq<(K, V)>, k: K, v: V)
    requires DistinctKeys(d)
    ensures var r := DictSet(d, k, v);
      && DistinctKeys(r)
      && Keys(r) == (if k in Keys(d) then Keys(d) else Keys(d) + [k])
      && (forall i :: 0 <= i < |r| ==> r[i] == (if r[i].0 == k then (k, v) else d[i]))
  {
    var r := DictSet(d, k, v);
    if k in Keys(d) {
      var n := IndexOfKey(d, k);
      assert Keys(r) == Keys(d);
    } else {
      assert Keys(r) == Keys(d) + [k];
    }
  }

  lemma DictSetKeys<K, V>(d: seq<(K, V)>, k: K, v: V)
    requires DistinctKeys(d)
    ensures Keys(DictSet(d, k, v)) == (if k in Keys(d) then Keys(d) else Keys(d) + [k])
  {
    DictSetShape(d, k, v);
  }

  lemma DictFromPairsKeysStep<K, V>(ps: seq<(K, V)>)
    requires |ps| > 0
    requires var d := DictFromPairs(ps[..|ps| - 1]);
      DistinctKeys(d) && Keys(d) == Dedup(Keys(ps[..|ps| - 1]))
    ensures Keys(DictFromPairs(ps)) == Dedup(Keys(ps))
  {
    var init := ps[..|ps| - 1];
    var k, v := ps[|ps| - 1].0, ps[|ps| - 1].1;
    var d := DictFromPairs(init);
    assert DictFromPairs(ps) == DictSet(d, k, v);
    DictSetKeys(d, k, v);
    var ki := Keys(init);
    KeysSnoc(ps);
    DedupSnoc(ki, k);
    DedupSameElements(ki);
    assert k in Keys(d) <==> k in ki;
  }

  lemma DictFromPairsValueStep<K, V>(ps: seq<(K, V)>, i: nat)
    requires |ps| > 0
    requires var d := DictFromPairs(ps[..|ps| - 1]);
      && DistinctKeys(d)
      && (forall j :: 0 <= j < |d| ==> d[j].0 in Keys(ps[..|ps| - 1]) && d[j].1 == LastValue(ps[..|ps| - 1], d[j].0))
    requires i < |DictFromPairs(ps)|
    ensures var r := DictFromPairs(ps); r[i].0 in Keys(ps) && r[i].1 == LastValue(ps, r[i].0)
  {
    var init := ps[..|ps| - 1];
    var k, v := ps[|ps| - 1].0, ps[|ps| - 1].1;
    var d := DictFromPairs(init);
    DictSetShape(d, k, v);
    var r := DictFromPairs(ps);
    KeysSnoc(ps);
    if r[i].0 != k {
      assert r[i] == d[i];
      assert d[i].0 in Keys(init);
    }
  }

  /** What a Python dict built from the pairs ps holds: each key once, in the order of its first
      occurrence, with the value of its last occurrence. */
  lemma {:induction false} DictFromPairsSpec<K, V>(ps: seq<(K, V)>)
    ensures var r := DictFromPairs(ps);
      && DistinctKeys(r)
      && Keys(r) == Dedup(Keys(ps))
      && (forall i :: 0 <= i < |r| ==> r[i].0 in Keys(ps) && r[i].1 == LastValue(ps, r[i].0))
  {
    if |ps| > 0 {
      var init := ps[..|ps| - 1];
      DictFromPairsSpec(init);
      var d := DictFromPairs(init);
      DictSetShape(d, ps[|ps| - 1].0, ps[|ps| - 1].1);
      DictFromPairsKeysStep(ps);
      var r := DictFromPairs(ps);
      forall i | 0 <= i < |r| ensures r[i].0 in Keys(ps) && r[i].1 == LastValue(ps, r[i].0) {
        DictFromPairsValueStep(ps, i);
      }
    }
  }

  /** Each item of the dict pairs a key of ps with the value of that key's last pair in ps,
      and every key of ps is a key of the dict. */
  lemma DictFromPairsItems<K, V>(ps: seq<(K, V)>)
    ensures forall x :: x in DictFromPairs(ps) ==> x.0 in Keys(ps) && x.1 == LastValue(ps, x.0)
    ensures forall k :: k in Keys(ps) ==> k in Keys(DictFromPairs(ps))
  {
    DictFromPairsSpec(ps);
    DedupSameElements(Keys(ps));
    var r := DictFromPairs(ps);
    forall x | x in r ensures x.0 in Keys(ps) && x.1 == LastValue(ps, x.0) {
      var i :| 0 <= i < |r| && r[i] == x;
    }
  }

  /** The value of the last pair with key k is one of the pairs of ps. */
  lemma {:induction false} LastValueIn<K, V>(ps: seq<(K, V)>, k: K)
    requires k in Keys(ps)
    ensures (k, LastValue(ps, k)) in ps
  {
    if ps[|ps| - 1].0 != k {
      KeysSnoc(ps);
      LastValueIn(ps[..|ps| - 1], k);
      assert ps[..|ps| - 1] <= ps;
    }
  }

  /** A dict literal whose keys are all different holds its pairs in the order written. */
  lemma {:induction false} DictFromDistinctPairs<K, V>(ps: seq<(K, V)>)
    requires DistinctKeys(ps)
    ensures DictFromPairs(ps) == ps
  {
    if |ps| > 0 {
      var init, last := ps[..|ps| - 1], ps[|ps| - 1];
      assert ps == init + [last];
      DistinctSnoc(init, last);
      DictFromDistinctPairs(init);
      DictFromPairsSnoc(init, last.0, last.1);
    }
  }

  lemma DistinctSnoc<K, V>(init: seq<(K, V)>, last: (K, V))
    requires DistinctKeys(init + [last])
    ensures DistinctKeys(init) && last.0 !in Keys(init)
    ensures DictSet(init, last.0, last.1) == init + [last]
  {
    var ps := init + [last];
    forall i, j | 0 <= i < j < |init| ensures init[i].0 != init[j].0 {
      assert init[i] == ps[i] && init[j] == ps[j];
    }
    forall i | 0 <= i < |init| ensures init[i].0 != last.0 {
      assert init[i] == ps[i] && last == ps[|init|];
    }
  }

  /** The mapping a dict denotes, which is what Python's `==` on dicts compares. */
  function AsMap<K, V>(d: seq<(K, V)>): (m: map<K, V>)
    ensures m.Keys == set i | 0 <= i < |d| :: d[i].0
  {
    if |d| == 0 then map[] else AsMap(d[..|d| - 1])[d[|d| - 1].0 := d[|d| - 1].1]
  }

  lemma AsMapFive<K, V>(a: (K, V), b: (K, V), c: (K, V), d: (K, V), e: (K, V))
    ensures AsMap([a, b, c, d, e]) == map[a.0 := a.1, b.0 := b.1, c.0 := c.1, d.0 := d.1, e.0 := e.1]
  {
    var m0: map<K, V> := map[];
    assert [a][..0] == [];
    assert AsMap([a]) == m0[a.0 := a.1];
    assert [a, b][..1] == [a];
    assert AsMap([a, b]) == m0[a.0 := a.1][b.0 := b.1];
    assert [a, b, c][..2] == [a, b];
    assert AsMap([a, b, c]) == m0[a.0 := a.1][b.0 := b.1][c.0 := c.1];
    assert [a, b, c, d][..3] == [a, b, c];
    assert AsMap([a, b, c, d]) == m0[a.0 := a.1][b.0 := b.1][c.0 := c.1][d.0 := d.1];
    assert [a, b, c, d, e][..4] == [a, b, c, d];
  }

  /** Python's `s.count(x)`. */
  function Count<T(==)>(s: seq<T>, x: T): nat {
    if |s| == 0 then 0
    else Count(s[..|s| - 1], x) + (if s[|s| - 1] == x then 1 else 0)
  }

  /** `s.count(x)` is the number of times x is in the multiset of s. */
  lemma {:induction false} CountMultiset<T>(s: seq<T>, x: T)
    ensures Count(s, x) == multiset(s)[x]
  {
    if |s| > 0 {
      assert s == s[..|s| - 1] + [s[|s| - 1]];
      CountMultiset(s[..|s| - 1], x);
    }
  }

  /** The position Python's `max(xs, key=key)` picks: the first item of greatest key. */
  function FirstMaxIndex<T>(xs: seq<T>, key: T -> int): (k: nat)
    requires xs != []
    ensures k < |xs|
  {
    if |xs| == 1 then 0
    else
      var best := FirstMaxIndex(xs[..|xs| - 1], key);
      if key(xs[|xs| - 1]) > key(xs[best]) then |xs| - 1 else best
  }

  /** No item has a greater key than the one picked, and every item before it a smaller one. */
  lemma {:induction false} FirstMaxIndexSpec<T>(xs: seq<T>, key: T -> int)
    requires xs != []
    ensures var k := FirstMaxIndex(xs, key);
      && (forall j :: 0 <= j < |xs| ==> key(xs[j]) <= key(xs[k]))
      && (forall j :: 0 <= j < k ==> key(xs[j]) < key(xs[k]))
  {
    if |xs| > 1 {
      var init := xs[..|xs| - 1];
      FirstMaxIndexSpec(init, key);
      assert forall j :: 0 <= j < |init| ==> init[j] == xs[j];
    }
  }

  /** The position of the first occurrence of c. */
  function FirstIndex(s: string, c: char): (i: nat)
    requires c in s
    ensures i < |s| && s[i] == c && c !in s[..i]
  {
    if s[0] == c then 0 else 1 + FirstIndex(s[1..], c)
  }

  /** Python's `letters.replace(c, '', 1)`: the first occurrence of c taken out, if there is one. */
  function ReplaceOnce(letters: string, c: char): string
  {
    if letters == [] then []
    else if letters[0] == c then letters[1..]
    else [letters[0]] + ReplaceOnce(letters[1..], c)
  }

  /** A position holding c with no c before it is the first occurrence, and replacing once
      cuts it out. */
  lemma ReplaceOnceAt(letters: string, c: char, i: nat)
    requires i < |letters| && letters[i] == c && c !in letters[..i]
    ensures ReplaceOnce(letters, c) == letters[..i] + letters[i + 1..]
  {
    ReplaceOnceFirst(letters, c);
  }

  /** Replacing once cuts out exactly the first occurrence of c. */
  lemma {:induction false} ReplaceOnceFirst(letters: string, c: char)
    requires c in letters
    ensures ReplaceOnce(letters, c) == letters[..FirstIndex(letters, c)] + letters[FirstIndex(letters, c) + 1..]
  {
    if letters[0] != c {
      var tail := letters[1..];
      assert c in tail;
      ReplaceOnceFirst(tail, c);
      var i := FirstIndex(tail, c);
      assert letters[..i + 1] == [letters[0]] + tail[..i];
      assert letters[i + 2..] == tail[i + 1..];
    }
  }

  /** Replacing once leaves a text without c as it is. */
  lemma {:induction false} ReplaceOnceAbsent(letters: string, c: char)
    requires c !in letters
    ensures ReplaceOnce(letters, c) == letters
  {
    if letters != [] {
      ReplaceOnceAbsent(letters[1..], c);
    }
  }

  /** Replacing once leaves one c fewer, if there was one. */
  lemma {:induction false} ReplaceOnceMultiset(letters: string, c: char)
    ensures multiset(ReplaceOnce(letters, c)) == multiset(letters) - multiset{c}
  {
    if letters != [] {
      assert letters == [letters[0]] + letters[1..];
      if letters[0] != c {
        ReplaceOnceMultiset(letters[1..], c);
      }
    }
  }
}
