/** Portmanteau words: two words where the end of the first is the start of the second
    ("elephant" + "phantom" gives "elephantom"), scored by how close the three parts come to
    the proportions 1/4, 1/2, 1/4. */
module Portmanteau {
  import opened Common

  /** A candidate: the start of the first word, the shared middle, the end of the second. */
  type Triple = (string, string, string)

  /** `splits(w)`: every way to cut w into two non-empty parts, shortest first part first. */
  function Splits(w: string): (r: seq<(string, string)>)
    ensures |r| == if |w| < 2 then 0 else |w| - 1
    ensures forall i :: 0 <= i < |r| ==> |r[i].0| == i + 1
  {
    if |w| < 2 then [] else seq(|w| - 1, i requires 0 <= i < |w| - 1 => (w[..i + 1], w[i + 1..]))
  }

  /** The splits are exactly the cuts of w into two non-empty parts. */
  lemma SplitsExact(w: string, p: (string, string))
    ensures p in Splits(w) <==> p.0 != [] && p.1 != [] && p.0 + p.1 == w
  {
    if p.0 != [] && p.1 != [] && p.0 + p.1 == w {
      assert w[..|p.0|] == p.0 && w[|p.0|..] == p.1;
      assert Splits(w)[|p.0| - 1] == p;
    }
    if p in Splits(w) {
      var i :| 0 <= i < |Splits(w)| && Splits(w)[i] == p;
      assert w == w[..i + 1] + w[i + 1..];
    }
  }

  /** The ends recorded for mid from a list of splits, in order. */
  function EndsIn(ss: seq<(string, string)>, mid: string): seq<string> {
    if ss == [] then []
    else EndsIn(ss[..|ss| - 1], mid) + (if ss[|ss| - 1].0 == mid then [ss[|ss| - 1].1] else [])
  }

  /** `ends[mid]` after `compute_ends(words)`: the ends of every split with first part mid. */
  function EndsFor(words: seq<string>, mid: string): seq<string> {
    if words == [] then []
    else EndsFor(words[..|words| - 1], mid) + EndsIn(Splits(words[|words| - 1]), mid)
  }

  /** Reading a defaultdict(list): a missing key gives the empty list. */
  function Lookup(ends: map<string, seq<string>>, mid: string): seq<string> {
    if mid in ends then ends[mid] else []
  }

  /** `compute_ends`: for each word and each split (mid, end), append end to `ends[mid]`. */
  method ComputeEnds(words: seq<string>) returns (ends: map<string, seq<string>>)
    ensures forall mid :: Lookup(ends, mid) == EndsFor(words, mid)
  {
    ends := map[];
    for i := 0 to |words|
      invariant forall mid :: Lookup(ends, mid) == EndsFor(words[..i], mid)
    {
      var ss := Splits(words[i]);
      ends := AppendEnds(ends, ss);
      forall k ensures EndsFor(words[..i + 1], k) == EndsFor(words[..i], k) + EndsIn(ss, k) {
        EndsForSnoc(words, i, k);
      }
    }
    assert words[..|words|] == words;
  }

  /** The inner loop of `compute_ends`, over the splits of one word. */
  method AppendEnds(ends: map<string, seq<string>>, ss: seq<(string, string)>) returns (out: map<string, seq<string>>)
    ensures forall mid :: Lookup(out, mid) == Lookup(ends, mid) + EndsIn(ss, mid)
  {
    out := ends;
    for j := 0 to |ss|
      invariant forall mid :: Lookup(out, mid) == Lookup(ends, mid) + EndsIn(ss[..j], mid)
    {
      var (mid, end) := ss[j];
      var next := out[mid := Lookup(out, mid) + [end]];
      forall k ensures Lookup(next, k) == Lookup(ends, k) + EndsIn(ss[..j + 1], k) {
        EndsInSnoc(ss, j, k);
        LookupUpdate(out, mid, Lookup(out, mid) + [end], k);
      }
      out := next;
    }
    assert ss[..|ss|] == ss;
  }

  lemma LookupUpdate(ends: map<string, seq<string>>, mid: string, v: seq<string>, k: string)
    ensures Lookup(ends[mid := v], k) == if k == mid then v else Lookup(ends, k)
  {
  }

  lemma EndsInSnoc(ss: seq<(string, string)>, j: nat, mid: string)
    requires j < |ss|
    ensures EndsIn(ss[..j + 1], mid) == EndsIn(ss[..j], mid) + (if ss[j].0 == mid then [ss[j].1] else [])
  {
    assert ss[..j + 1][..j] == ss[..j];
  }

  lemma EndsForSnoc(words: seq<string>, i: nat, mid: string)
    requires i < |words|
    ensures EndsFor(words[..i + 1], mid) == EndsFor(words[..i], mid) + EndsIn(Splits(words[i]), mid)
  {
    assert words[..i + 1][..i] == words[..i];
  }

  lemma {:induction false} EndsInExact(ss: seq<(string, string)>, mid: string, e: string)
    ensures e in EndsIn(ss, mid) <==> (mid, e) in ss
  {
    if ss != [] {
      EndsInExact(ss[..|ss| - 1], mid, e);
      assert ss == ss[..|ss| - 1] + [ss[|ss| - 1]];
    }
  }

  /** `ends[mid]` holds e exactly when mid + e is a word and both parts are non-empty. */
  lemma {:induction false} EndsForExact(words: seq<string>, mid: string, e: string)
    ensures e in EndsFor(words, mid) <==> mid != [] && e != [] && mid + e in words
  {
    if words != [] {
      var last := words[|words| - 1];
      EndsForExact(words[..|words| - 1], mid, e);
      EndsInExact(Splits(last), mid, e);
      SplitsExact(last, (mid, e));
      assert words == words[..|words| - 1] + [last];
    }
  }

  /** The triples `(start, mid, end)` for one split of w, one per end of mid, skipping the end
      that gives back w itself. */
  function TriplesOfEnds(w: string, start: string, mid: string, es: seq<string>): seq<Triple> {
    if es == [] then []
    else (if w != mid + es[0] then [(start, mid, es[0])] else []) + TriplesOfEnds(w, start, mid, es[1..])
  }

  /** The triples for the splits in ss of the word w. */
  function TriplesOfSplits(words: seq<string>, w: string, ss: seq<(string, string)>): seq<Triple> {
    if ss == [] then []
    else TriplesOfEnds(w, ss[0].0, ss[0].1, EndsFor(words, ss[0].1)) + TriplesOfSplits(words, w, ss[1..])
  }

  /** The triples whose first word is one of ws. */
  function TriplesOfWords(words: seq<string>, ws: seq<string>): seq<Triple> {
    if ws == [] then [] else TriplesOfSplits(words, ws[0], Splits(ws[0])) + TriplesOfWords(words, ws[1..])
  }

  /** `alltriples(words)`, in the order of its nested comprehension. */
  function AllTriples(words: seq<string>): seq<Triple> {
    TriplesOfWords(words, words)
  }

  /** A portmanteau of the word list: start + mid and mid + end are two different words, and
      no part is empty. */
  predicate IsTriple(words: seq<string>, t: Triple) {
    t.0 != [] && t.1 != [] && t.2 != [] && t.0 + t.1 in words && t.1 + t.2 in words && t.0 + t.1 != t.1 + t.2
  }

  lemma {:induction false} TriplesOfEndsExact(w: string, start: string, mid: string, es: seq<string>, t: Triple)
    ensures t in TriplesOfEnds(w, start, mid, es) <==> t.0 == start && t.1 == mid && t.2 in es && w != mid + t.2
  {
    if es != [] {
      TriplesOfEndsExact(w, start, mid, es[1..], t);
      assert es == [es[0]] + es[1..];
    }
  }

  lemma {:induction false} TriplesOfSplitsExact(words: seq<string>, w: string, ss: seq<(string, string)>, t: Triple)
    ensures t in TriplesOfSplits(words, w, ss) <==> (t.0, t.1) in ss && t.2 in EndsFor(words, t.1) && w != t.1 + t.2
  {
    if ss != [] {
      TriplesOfSplitsExact(words, w, ss[1..], t);
      TriplesOfEndsExact(w, ss[0].0, ss[0].1, EndsFor(words, ss[0].1), t);
      assert ss == [ss[0]] + ss[1..];
    }
  }

  lemma {:induction false} TriplesOfWordsExact(words: seq<string>, ws: seq<string>, t: Triple)
    ensures t in TriplesOfWords(words, ws) <==>
      t.0 != [] && t.1 != [] && t.0 + t.1 in ws && t.2 in EndsFor(words, t.1) && t.0 + t.1 != t.1 + t.2
  {
    if ws != [] {
      TriplesOfWordsExact(words, ws[1..], t);
      TriplesOfSplitsExact(words, ws[0], Splits(ws[0]), t);
      SplitsExact(ws[0], (t.0, t.1));
      assert ws == [ws[0]] + ws[1..];
    }
  }

  /** `alltriples` lists exactly the portmanteaus of the word list. */
  lemma AllTriplesExact(words: seq<string>, t: Triple)
    ensures t in AllTriples(words) <==> IsTriple(words, t)
  {
    TriplesOfWordsExact(words, words, t);
    EndsForExact(words, t.1, t.2);
  }

  /** `portman_score` times 4, so that it stays an integer:
      4T - |4S - T| - |4M - 2T| - |4E - T|. */
  function Score4(t: Triple): int {
    var s, m, e := |t.0|, |t.1|, |t.2|;
    var total := s + m + e;
    4 * total - Abs(4 * s - total) - Abs(4 * m - 2 * total) - Abs(4 * e - total)
  }

  function Abs(x: int): int {
    if x < 0 then -x else x
  }

  function AbsReal(x: real): real {
    if x < 0.0 then -x else x
  }

  /** `portman_score` as written, over the reals: T - |S - T/4| - |M - T/2| - |E - T/4|. */
  function Score(t: Triple): real {
    var s, m, e := |t.0| as real, |t.1| as real, |t.2| as real;
    var total := s + m + e;
    total - AbsReal(s - total / 4.0) - AbsReal(m - total / 2.0) - AbsReal(e - total / 4.0)
  }

  /** The integer score is exactly four times the source's score, so both order the triples
      the same way. */
  lemma ScoreTimesFour(t: Triple)
    ensures Score4(t) as real == 4.0 * Score(t)
  {
  }

  /** 'adole' + 'scent' + 'ed' scores 8. */
  lemma AdolescentedScore()
    ensures Score(("adole", "scent", "ed")) == 8.0
  {
  }

  /** `natalie(words)`: the best portmanteau joined into one word, or None when there is none. */
  function Natalie(words: seq<string>): Option<string> {
    var ts := AllTriples(words);
    if ts == [] then None else var t := ts[FirstMaxIndex(ts, Score4)]; Some(t.0 + t.1 + t.2)
  }

  /** `natalie` finds a word exactly when the list has a portmanteau. */
  lemma NatalieNone(words: seq<string>, t: Triple)
    requires IsTriple(words, t)
    ensures Natalie(words).Some?
  {
    AllTriplesExact(words, t);
  }

  /** The word `natalie` returns is a portmanteau of the list whose score no other reaches. */
  lemma NatalieBest(words: seq<string>) returns (best: Triple)
    requires Natalie(words).Some?
    ensures IsTriple(words, best) && Natalie(words) == Some(best.0 + best.1 + best.2)
    ensures forall t :: IsTriple(words, t) ==> Score4(t) <= Score4(best)
  {
    var ts := AllTriples(words);
    best := ts[FirstMaxIndex(ts, Score4)];
    FirstMaxIndexSpec(ts, Score4);
    AllTriplesExact(words, best);
    forall t | IsTriple(words, t) ensures Score4(t) <= Score4(best) {
      AllTriplesExact(words, t);
      var j :| 0 <= j < |ts| && ts[j] == t;
    }
  }

  /** A single word has no portmanteau: the two words of a triple differ. This settles the
      tests `natalie(['test'])`, `natalie([''])` and `natalie([])`. */
  lemma NatalieOneWord(words: seq<string>)
    requires |words| <= 1
    ensures Natalie(words) == None
  {
    var ts := AllTriples(words);
    if ts != [] {
      AllTriplesExact(words, ts[0]);
    }
  }

  /** Where a portmanteau's middle sits: it is the last k letters of the first word and the
      first k letters of the second, with k shorter than both words; so its first letter is the
      second word's first letter, and its last letter the first word's last letter. */
  lemma MiddleOverlap(t: Triple)
    requires t.0 != [] && t.1 != [] && t.2 != []
    ensures var w1, w2, k := t.0 + t.1, t.1 + t.2, |t.1|;
      && 0 < k < |w1| && k < |w2|
      && w1[|w1| - k] == w2[0] && w2[k - 1] == w1[|w1| - 1]
      && t == (w1[..|w1| - k], w1[|w1| - k..], w2[k..])
  {
    var w1, w2, k := t.0 + t.1, t.1 + t.2, |t.1|;
    assert w1[|w1| - k] == t.1[0] == w2[0];
    assert w2[k - 1] == t.1[k - 1] == w1[|w1| - 1];
    assert w1[..|w1| - k] == t.0 && w1[|w1| - k..] == t.1 && w2[k..] == t.2;
  }

  /** The last k letters of w1 could be the first k of w2: they begin and end alike, and k
      is shorter than both words. */
  predicate MayJoin(w1: string, w2: string, k: nat) {
    0 < k < |w1| && k < |w2| && w1[|w1| - k] == w2[0] && w2[k - 1] == w1[|w1| - 1]
  }

  /** No other word follows "circus": its last letter s occurs early enough in none of them. */
  lemma CircusJoins(w2: string, k: nat)
    requires w2 in ["elephant", "lion", "opera", "phantom"]
    ensures !MayJoin("circus", w2, k)
  {
  }

  /** "elephant" is followed only by "phantom", sharing "phant". */
  lemma ElephantJoins(w2: string, k: nat)
    requires w2 in ["circus", "lion", "opera", "phantom"]
    ensures MayJoin("elephant", w2, k) <==> w2 == "phantom" && k == 5
  {
  }

  lemma LionJoins(w2: string, k: nat)
    requires w2 in ["circus", "elephant", "opera", "phantom"]
    ensures !MayJoin("lion", w2, k)
  {
  }

  lemma OperaJoins(w2: string, k: nat)
    requires w2 in ["circus", "elephant", "lion", "phantom"]
    ensures !MayJoin("opera", w2, k)
  {
  }

  lemma PhantomJoins(w2: string, k: nat)
    requires w2 in ["circus", "elephant", "lion", "opera"]
    ensures !MayJoin("phantom", w2, k)
  {
  }

  /** A portmanteau of circus, elephant, lion, opera and phantom can only be
      'ele' + 'phant' + 'om'. */
  lemma ElephantomTriple(words: seq<string>, t: Triple)
    requires words == ["circus", "elephant", "lion", "opera", "phantom"]
    requires IsTriple(words, t)
    ensures t == ("ele", "phant", "om")
  {
    MiddleOverlap(t);
    var w1, w2, k := t.0 + t.1, t.1 + t.2, |t.1|;
    assert MayJoin(w1, w2, k) && w1 != w2;
    if w1 == "circus" {
      CircusJoins(w2, k);
    } else if w1 == "elephant" {
      ElephantJoins(w2, k);
    } else if w1 == "lion" {
      LionJoins(w2, k);
    } else if w1 == "opera" {
      OperaJoins(w2, k);
    } else {
      PhantomJoins(w2, k);
    }
    ElephantomParts(t);
  }

  lemma ElephantomParts(t: Triple)
    requires t.0 + t.1 == "elephant" && t.1 + t.2 == "phantom" && |t.1| == 5
    ensures t == ("ele", "phant", "om")
  {
    var w1, w2: string := "elephant", "phantom";
    assert t.0 == w1[..3] == "ele";
    assert t.1 == w2[..5] == "phant";
    assert t.2 == w2[5..] == "om";
  }

  /** When a list has just one portmanteau, `natalie` returns it. */
  lemma NatalieOnly(words: seq<string>, t: Triple)
    requires IsTriple(words, t) && forall u :: IsTriple(words, u) ==> u == t
    ensures Natalie(words) == Some(t.0 + t.1 + t.2)
  {
    NatalieNone(words, t);
    var best := NatalieBest(words);
  }

  /** 'ele' + 'phant' + 'om' is the one portmanteau of circus, elephant, lion, opera and
      phantom. */
  lemma ElephantomOnly(words: seq<string>)
    requires words == ["circus", "elephant", "lion", "opera", "phantom"]
    ensures IsTriple(words, ("ele", "phant", "om"))
    ensures forall u :: IsTriple(words, u) ==> u == ("ele", "phant", "om")
  {
    var t: Triple := ("ele", "phant", "om");
    assert t.0 + t.1 == words[1] && t.1 + t.2 == words[4];
    forall u | IsTriple(words, u) ensures u == t {
      ElephantomTriple(words, u);
    }
  }

  /** `natalie(['circus', 'elephant', 'lion', 'opera', 'phantom']) == 'elephantom'`. */
  lemma ElephantomTest(words: seq<string>)
    requires words == ["circus", "elephant", "lion", "opera", "phantom"]
    ensures Natalie(words) == Some("elephantom")
  {
    ElephantomOnly(words);
    OnlyElephantom(words);
  }

  /** A list whose one portmanteau is 'ele' + 'phant' + 'om' gives 'elephantom'. */
  lemma OnlyElephantom(words: seq<string>)
    requires IsTriple(words, ("ele", "phant", "om"))
    requires forall u :: IsTriple(words, u) ==> u == ("ele", "phant", "om")
    ensures Natalie(words) == Some("elephantom")
  {
    var t: Triple := ("ele", "phant", "om");
    NatalieOnly(words, t);
    assert t.0 + t.1 + t.2 == "elephantom";
  }

  /** A list without portmanteaus gives None. */
  lemma NoTripleNone(words: seq<string>)
    requires forall t :: !IsTriple(words, t)
    ensures Natalie(words) == None
  {
    if Natalie(words).Some? {
      var best := NatalieBest(words);
    }
  }

  /** Two words neither of which can follow the other have no portmanteau. */
  lemma TwoWordsNone(words: seq<string>)
    requires |words| == 2 && forall k :: !MayJoin(words[0], words[1], k) && !MayJoin(words[1], words[0], k)
    ensures Natalie(words) == None
  {
    forall t ensures !IsTriple(words, t) {
      if IsTriple(words, t) {
        MiddleOverlap(t);
        assert MayJoin(t.0 + t.1, t.1 + t.2, |t.1|);
      }
    }
    NoTripleNone(words);
  }

  /** `natalie(['night', 'day']) == None`. */
  lemma NightDayTest(words: seq<string>)
    requires words == ["night", "day"]
    ensures Natalie(words) == None
  {
    TwoWordsNone(words);
  }

  /** `natalie(['dog', 'dogs']) == None`: "dog" is a prefix of "dogs", which is no portmanteau. */
  lemma DogDogsTest(words: seq<string>)
    requires words == ["dog", "dogs"]
    ensures Natalie(words) == None
  {
    TwoWordsNone(words);
  }

  /** `natalie(['ABC', '123']) == None`. */
  lemma LettersDigitsTest(words: seq<string>)
    requires words == ["ABC", "123"]
    ensures Natalie(words) == None
  {
    TwoWordsNone(words);
  }
}
