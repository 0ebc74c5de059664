/** Anagram search over a word list: the letters of a phrase are spent on words found by
    extending prefixes that some word starts with, and the words of each answer come in
    strictly increasing order. The word set and the prefix set are parameters. */
module Anagrams {
  import opened Common

  /** `p` is an initial part of `w` shorter than `w`. */
  predicate IsProperPrefix(p: string, w: string) {
    |p| < |w| && w[..|p|] == p
  }

  /** `prefixes(word)`: the initial sequences of the word, shortest first, the word excluded. */
  function Prefixes(word: string): (r: seq<string>)
    ensures |r| == |word|
    ensures forall p :: p in r <==> IsProperPrefix(p, word)
  {
    var r := seq(|word|, i requires 0 <= i < |word| => word[..i]);
    assert forall p :: IsProperPrefix(p, word) ==> r[|p|] == p;
    r
  }

  /** The prefix set `readwordlist` builds from a word set. */
  function PrefixSet(words: set<string>): (r: set<string>)
    ensures forall p :: p in r <==> exists w :: w in words && IsProperPrefix(p, w)
  {
    var r := set w, p | w in words && p in Prefixes(w) :: p;
    forall p | exists w :: w in words && IsProperPrefix(p, w) ensures p in r {
      var w :| w in words && IsProperPrefix(p, w);
      assert p in Prefixes(w);
    }
    r
  }

  /** Python's ordering on strings: the first differing character decides, and a proper
      prefix comes first. */
  predicate LexLess(a: string, b: string) {
    if a == [] then b != [] else b != [] && (a[0] < b[0] || (a[0] == b[0] && LexLess(a[1..], b[1..])))
  }

  /** What `removed(letters, remove)` returns: each letter of remove taken out of letters once,
      left to right. */
  function Removed(letters: string, remove: string): string
    decreases |remove|
  {
    if remove == [] then letters else Removed(ReplaceOnce(letters, remove[0]), remove[1..])
  }

  /** Removing takes away the multiset of remove; a letter that is not there is ignored. */
  lemma {:induction false} RemovedMultiset(letters: string, remove: string)
    ensures multiset(Removed(letters, remove)) == multiset(letters) - multiset(remove)
    decreases |remove|
  {
    if remove != [] {
      var rest := ReplaceOnce(letters, remove[0]);
      var a, x, b := multiset(letters), multiset{remove[0]}, multiset(remove[1..]);
      assert multiset(remove) == x + b by {
        assert remove == [remove[0]] + remove[1..];
      }
      calc {
        multiset(Removed(letters, remove));
        multiset(Removed(rest, remove[1..]));
        { RemovedMultiset(rest, remove[1..]); }
        multiset(rest) - b;
        { ReplaceOnceMultiset(letters, remove[0]); }
        (a - x) - b;
        { DifferenceOfSum(a, x, b); }
        a - multiset(remove);
      }
    }
  }

  lemma DifferenceOfSum(a: multiset<char>, x: multiset<char>, b: multiset<char>)
    ensures (a - x) - b == a - (x + b)
  {
    forall e ensures ((a - x) - b)[e] == (a - (x + b))[e] {
    }
  }

  /** When every letter of remove is there, the result is |remove| shorter. */
  lemma RemovedLength(letters: string, remove: string)
    requires multiset(remove) <= multiset(letters)
    ensures |Removed(letters, remove)| == |letters| - |remove|
  {
    RemovedMultiset(letters, remove);
    var a, b := multiset(letters), multiset(remove);
    assert (a - b) + b == a;
    assert |(a - b) + b| == |a - b| + |b|;
  }

  /** `removed`: the loop rebinding letters once per letter of remove. */
  method Remove(letters: string, remove: string) returns (r: string)
    ensures r == Removed(letters, remove)
  {
    r := letters;
    for i := 0 to |remove|
      invariant Removed(r, remove[i..]) == Removed(letters, remove)
    {
      assert remove[i..] == [remove[i]] + remove[i + 1..];
      r := ReplaceOnce(r, remove[i]);
    }
  }

  /** `w` is `pre` followed by letters drawn from `letters`, each used at most as often as it
      occurs there. */
  predicate Fits(pre: string, letters: string, w: string) {
    |pre| <= |w| && w[..|pre|] == pre && multiset(w[|pre|..]) <= multiset(letters)
  }

  /** A word that fits after pre + [c] with c taken out of letters fits after pre. */
  lemma FitsStep(pre: string, letters: string, c: char, w: string)
    requires c in letters && Fits(pre + [c], Removed(letters, [c]), w)
    ensures Fits(pre, letters, w)
  {
    RemovedMultiset(letters, [c]);
    assert w[..|pre|] == (pre + [c])[..|pre|];
    assert w[|pre|..] == [c] + w[|pre| + 1..];
    var m := multiset(letters);
    assert multiset([c]) <= m;
    assert (m - multiset([c])) + multiset([c]) == m;
  }

  /** A word that fits after pre and goes on with c fits after pre + [c] with c taken out. */
  lemma FitsNext(pre: string, letters: string, w: string)
    requires Fits(pre, letters, w) && |w| > |pre|
    ensures w[|pre|] in letters && Fits(pre + [w[|pre|]], Removed(letters, [w[|pre|]]), w)
  {
    var c := w[|pre|];
    assert w[|pre|..] == [c] + w[|pre| + 1..];
    assert w[..|pre| + 1] == pre + [c];
    MultisetTake(multiset(w[|pre|..]), multiset(letters), c, multiset(w[|pre| + 1..]));
    RemovedMultiset(letters, [c]);
  }

  lemma MultisetTake(whole: multiset<char>, letters: multiset<char>, c: char, rest: multiset<char>)
    requires whole == multiset{c} + rest && whole <= letters
    ensures c in letters && rest <= letters - multiset{c}
  {
  }

  /** Taking one present letter out shortens the letters by one. */
  lemma RemoveOne(letters: string, c: char)
    requires c in letters
    ensures |Removed(letters, [c])| == |letters| - 1
  {
    assert multiset([c]) <= multiset(letters);
    RemovedLength(letters, [c]);
  }

  /** The set `extend_prefix(pre, letters, results)` adds to results: pre itself when it is a
      word, and, when pre is a known prefix, what each letter in turn extends it to. */
  function Extended(words: set<string>, prefixes: set<string>, pre: string, letters: string): set<string>
    decreases |letters|, 1
  {
    (if pre in words then {pre} else {}) +
    (if pre in prefixes then ExtendedBy(words, prefixes, pre, letters, |letters|) else {})
  }

  /** What the first k turns of the `for L in letters` loop add. */
  function ExtendedBy(words: set<string>, prefixes: set<string>, pre: string, letters: string, k: nat): set<string>
    requires k <= |letters|
    decreases |letters|, 0, k
  {
    if k == 0 then {}
    else
      var c := letters[k - 1];
      RemoveOne(letters, c);
      ExtendedBy(words, prefixes, pre, letters, k - 1) + Extended(words, prefixes, pre + [c], Removed(letters, [c]))
  }

  /** Every word found from pre is a word that fits after pre. */
  lemma {:induction false} ExtendedSound(words: set<string>, prefixes: set<string>, pre: string, letters: string, w: string)
    requires w in Extended(words, prefixes, pre, letters)
    ensures w in words && Fits(pre, letters, w)
    decreases |letters|, 1
  {
    if w != pre || pre !in words {
      ExtendedBySound(words, prefixes, pre, letters, |letters|, w);
    } else {
      assert w[|pre|..] == [];
    }
  }

  lemma {:induction false} ExtendedBySound(words: set<string>, prefixes: set<string>, pre: string, letters: string, k: nat, w: string)
    requires k <= |letters| && w in ExtendedBy(words, prefixes, pre, letters, k)
    ensures w in words && Fits(pre, letters, w)
    decreases |letters|, 0, k
  {
    var c := letters[k - 1];
    RemoveOne(letters, c);
    if w in ExtendedBy(words, prefixes, pre, letters, k - 1) {
      ExtendedBySound(words, prefixes, pre, letters, k - 1, w);
    } else {
      ExtendedSound(words, prefixes, pre + [c], Removed(letters, [c]), w);
      FitsStep(pre, letters, c, w);
    }
  }

  /** `extend_prefix`: adds the words found from pre to the shared results set. */
  method ExtendPrefix(words: set<string>, prefixes: set<string>, pre: string, letters: string, results: set<string>)
    returns (out: set<string>)
    ensures out == results + Extended(words, prefixes, pre, letters)
    decreases |letters|
  {
    out := results;
    if pre in words {
      out := out + {pre};
    }
    if pre in prefixes {
      for i := 0 to |letters|
        invariant out == results + (if pre in words then {pre} else {}) + ExtendedBy(words, prefixes, pre, letters, i)
      {
        var c := letters[i];
        var rest := Remove(letters, [c]);
        RemoveOne(letters, c);
        out := ExtendPrefix(words, prefixes, pre + [c], rest, out);
      }
    }
  }

  /** The words `find_words(letters)` returns. */
  function WordsIn(words: set<string>, prefixes: set<string>, letters: string): set<string>
  {
    Extended(words, prefixes, [], letters)
  }

  /** Every word found is a word whose letters are among the given ones. */
  lemma WordsInSound(words: set<string>, prefixes: set<string>, letters: string, w: string)
    requires w in WordsIn(words, prefixes, letters)
    ensures w in words && multiset(w) <= multiset(letters)
  {
    ExtendedSound(words, prefixes, [], letters, w);
    assert w[0..] == w;
  }

  /** `find_words`. */
  method FindWords(words: set<string>, prefixes: set<string>, letters: string) returns (r: set<string>)
    ensures r == WordsIn(words, prefixes, letters)
  {
    r := ExtendPrefix(words, prefixes, [], letters, {});
  }

  /** Each turn of the letter loop contributes to the set it builds. */
  lemma {:induction false} ExtendedByHas(words: set<string>, prefixes: set<string>, pre: string, letters: string, k: nat, i: nat)
    requires i < k <= |letters|
    ensures Extended(words, prefixes, pre + [letters[i]], Removed(letters, [letters[i]]))
      <= ExtendedBy(words, prefixes, pre, letters, k)
    decreases k
  {
    if i < k - 1 {
      ExtendedByHas(words, prefixes, pre, letters, k - 1, i);
    }
  }

  /** Every word that fits after pre, and whose prefixes from pre on are all known prefixes,
      is found. */
  lemma {:induction false} ExtendedComplete(words: set<string>, prefixes: set<string>, pre: string, letters: string, w: string)
    requires w in words && Fits(pre, letters, w)
    requires forall k :: |pre| <= k < |w| ==> w[..k] in prefixes
    ensures w in Extended(words, prefixes, pre, letters)
    decreases |w| - |pre|
  {
    if |w| > |pre| {
      FitsNext(pre, letters, w);
      var c := w[|pre|];
      ExtendedComplete(words, prefixes, pre + [c], Removed(letters, [c]), w);
      ExtendedByHas(words, prefixes, pre, letters, |letters|, FirstIndex(letters, c));
    } else {
      assert w == pre;
    }
  }

  /** With the prefix set built from the word set, `find_words(letters)` is exactly the words
      whose letters are among the given ones. */
  lemma WordsInExact(words: set<string>, letters: string, w: string)
    ensures w in WordsIn(words, PrefixSet(words), letters) <==> w in words && multiset(w) <= multiset(letters)
  {
    if w in words && multiset(w) <= multiset(letters) {
      assert w[0..] == w && w[..0] == [];
      forall k | 0 <= k < |w| ensures w[..k] in PrefixSet(words) {
        assert IsProperPrefix(w[..k], w);
      }
      ExtendedComplete(words, PrefixSet(words), [], letters, w);
    }
    if w in WordsIn(words, PrefixSet(words), letters) {
      WordsInSound(words, PrefixSet(words), letters, w);
    }
  }

  /** A phrase's words separated by single spaces. */
  function Join(ws: seq<string>): string
    requires ws != []
  {
    if |ws| == 1 then ws[0] else ws[0] + " " + Join(ws[1..])
  }

  /** The words written one after another. */
  function Concat(ws: seq<string>): string {
    if ws == [] then [] else ws[0] + Concat(ws[1..])
  }

  /** Each word comes strictly after the one before it, the first strictly after pre. */
  predicate Ascending(pre: string, ws: seq<string>)
    decreases |ws|
  {
    ws == [] || (LexLess(pre, ws[0]) && Ascending(ws[0], ws[1..]))
  }

  /** ws is an answer `find_anagrams(phrase, pre, shortest)` should give: dictionary words of
      length at least shortest, in strictly increasing order after pre, that spend exactly the
      letters of phrase. */
  predicate IsAnagram(words: set<string>, phrase: string, pre: string, shortest: int, ws: seq<string>) {
    && ws != []
    && Ascending(pre, ws)
    && (forall i :: 0 <= i < |ws| ==> ws[i] in words && |ws[i]| >= shortest)
    && multiset(Concat(ws)) == multiset(phrase)
  }

  /** What one word w of `find_words(phrase)` adds to the results of
      `find_anagrams(phrase, pre, shortest)`. */
  function Contribution(words: set<string>, prefixes: set<string>, phrase: string, pre: string, shortest: int, w: string): set<string>
    requires w in WordsIn(words, prefixes, phrase)
    decreases |phrase|, 0
  {
    if |w| >= shortest && LexLess(pre, w) then
      var remainder := Removed(phrase, w);
      if remainder != [] then
        WordsInSound(words, prefixes, phrase, w);
        RemovedLength(phrase, w);
        set rest | rest in AnagramSet(words, prefixes, remainder, w, shortest) :: w + " " + rest
      else {w}
    else {}
  }

  /** The contributions of the words in ws. */
  function ContributionsOf(words: set<string>, prefixes: set<string>, phrase: string, pre: string, shortest: int, ws: set<string>): set<string>
    requires ws <= WordsIn(words, prefixes, phrase)
    decreases |phrase|, 1
  {
    set w, r | w in ws && r in Contribution(words, prefixes, phrase, pre, shortest, w) :: r
  }

  /** The set `find_anagrams(phrase, pre, shortest)` returns. */
  function AnagramSet(words: set<string>, prefixes: set<string>, phrase: string, pre: string, shortest: int): set<string>
    decreases |phrase|, 2
  {
    ContributionsOf(words, prefixes, phrase, pre, shortest, WordsIn(words, prefixes, phrase))
  }

  /** `anagrams(phrase, shortest)`: the spaces of the phrase dropped first. */
  function AnagramsOf(words: set<string>, prefixes: set<string>, phrase: string, shortest: int): set<string> {
    AnagramSet(words, prefixes, NoSpaces(phrase), [], shortest)
  }

  /** `phrase.replace(" ", "")`. */
  function NoSpaces(s: string): (r: string)
    ensures ' ' !in r
  {
    if s == [] then [] else (if s[0] == ' ' then [] else [s[0]]) + NoSpaces(s[1..])
  }

  /** One more word handled adds its contribution. */
  lemma ContributionsStep(words: set<string>, prefixes: set<string>, phrase: string, pre: string, shortest: int,
                          found: set<string>, todo: set<string>, w: string)
    requires found == WordsIn(words, prefixes, phrase) && todo <= found && w in todo
    ensures ContributionsOf(words, prefixes, phrase, pre, shortest, found - (todo - {w}))
      == ContributionsOf(words, prefixes, phrase, pre, shortest, found - todo) + Contribution(words, prefixes, phrase, pre, shortest, w)
  {
    assert found - (todo - {w}) == (found - todo) + {w};
  }

  /** `find_anagrams`: a loop over the words found, adding each word alone or in front of each
      anagram of the letters it leaves. */
  method FindAnagrams(words: set<string>, prefixes: set<string>, phrase: string, pre: string, shortest: int)
    returns (results: set<string>)
    ensures results == AnagramSet(words, prefixes, phrase, pre, shortest)
    decreases |phrase|, 1
  {
    results := {};
    var found := FindWords(words, prefixes, phrase);
    var todo := found;
    while todo != {}
      invariant todo <= found
      invariant results == ContributionsOf(words, prefixes, phrase, pre, shortest, found - todo)
      decreases |todo|
    {
      var w :| w in todo;
      ContributionsStep(words, prefixes, phrase, pre, shortest, found, todo, w);
      var add := Contribute(words, prefixes, phrase, pre, shortest, w);
      results := results + add;
      todo := todo - {w};
    }
  }

  /** One turn of the loop of `find_anagrams`, for the word w. */
  method Contribute(words: set<string>, prefixes: set<string>, phrase: string, pre: string, shortest: int, w: string)
    returns (add: set<string>)
    requires w in WordsIn(words, prefixes, phrase)
    ensures add == Contribution(words, prefixes, phrase, pre, shortest, w)
    decreases |phrase|, 0
  {
    add := {};
    if |w| >= shortest && LexLess(pre, w) {
      var remainder := Remove(phrase, w);
      if remainder != [] {
        WordsInSound(words, prefixes, phrase, w);
        RemovedLength(phrase, w);
        var rests := FindAnagrams(words, prefixes, remainder, w, shortest);
        add := AddAll(add, w, rests);
      } else {
        add := {w};
      }
    }
  }

  /** The inner loop `for rest in ...: results.add(w + " " + rest)`. */
  method AddAll(results: set<string>, w: string, rests: set<string>) returns (out: set<string>)
    ensures out == results + set rest | rest in rests :: w + " " + rest
  {
    out := results;
    var left := rests;
    while left != {}
      invariant left <= rests
      invariant out == results + set rest | rest in rests - left :: w + " " + rest
      decreases |left|
    {
      var rest :| rest in left;
      assert rests - (left - {rest}) == (rests - left) + {rest};
      out := out + {w + " " + rest};
      left := left - {rest};
    }
  }

  /** A word after pre is not empty. */
  lemma LexLessNonEmpty(pre: string, w: string)
    requires LexLess(pre, w)
    ensures w != []
  {
  }

  lemma ConcatMultiset(ws: seq<string>)
    requires ws != []
    ensures multiset(Concat(ws)) == multiset(ws[0]) + multiset(Concat(ws[1..]))
  {
  }

  /** An answer comes from some word found in the phrase. */
  lemma AnagramSetFrom(words: set<string>, prefixes: set<string>, phrase: string, pre: string, shortest: int, r: string)
    returns (w: string)
    requires r in AnagramSet(words, prefixes, phrase, pre, shortest)
    ensures w in WordsIn(words, prefixes, phrase) && r in Contribution(words, prefixes, phrase, pre, shortest, w)
  {
    w :| w in WordsIn(words, prefixes, phrase) && r in Contribution(words, prefixes, phrase, pre, shortest, w);
  }

  /** What a word found in the phrase contributes, taken apart. */
  lemma ContributionParts(words: set<string>, prefixes: set<string>, phrase: string, pre: string, shortest: int, w: string, r: string)
    returns (rest: string)
    requires w in WordsIn(words, prefixes, phrase) && r in Contribution(words, prefixes, phrase, pre, shortest, w)
    ensures w in words && |w| >= shortest && LexLess(pre, w) && multiset(w) <= multiset(phrase)
    ensures Removed(phrase, w) == [] ==> r == w
    ensures Removed(phrase, w) != [] ==>
      |Removed(phrase, w)| < |phrase| && rest in AnagramSet(words, prefixes, Removed(phrase, w), w, shortest) && r == w + " " + rest
  {
    WordsInSound(words, prefixes, phrase, w);
    if Removed(phrase, w) != [] {
      RemovedLength(phrase, w);
      rest :| rest in AnagramSet(words, prefixes, Removed(phrase, w), w, shortest) && r == w + " " + rest;
    } else {
      rest := r;
    }
  }

  /** A found word alone is an answer when it spends all the letters. */
  lemma ContributionWhole(words: set<string>, prefixes: set<string>, phrase: string, pre: string, shortest: int, w: string)
    requires w in WordsIn(words, prefixes, phrase) && |w| >= shortest && LexLess(pre, w) && Removed(phrase, w) == []
    ensures w in AnagramSet(words, prefixes, phrase, pre, shortest)
  {
    assert w in Contribution(words, prefixes, phrase, pre, shortest, w);
  }

  /** A found word in front of an answer for the letters it leaves is an answer. */
  lemma ContributionFront(words: set<string>, prefixes: set<string>, phrase: string, pre: string, shortest: int, w: string, rest: string)
    requires w in WordsIn(words, prefixes, phrase) && |w| >= shortest && LexLess(pre, w) && Removed(phrase, w) != []
    requires |Removed(phrase, w)| < |phrase|
    requires rest in AnagramSet(words, prefixes, Removed(phrase, w), w, shortest)
    ensures w + " " + rest in AnagramSet(words, prefixes, phrase, pre, shortest)
  {
    assert w + " " + rest in Contribution(words, prefixes, phrase, pre, shortest, w);
  }

  /** A word in front of an anagram of what it leaves is an anagram of the whole. */
  lemma AnagramCons(words: set<string>, phrase: string, remainder: string, pre: string, shortest: int, w: string, tail: seq<string>)
    requires IsAnagram(words, remainder, w, shortest, tail)
    requires w in words && |w| >= shortest && LexLess(pre, w)
    requires multiset(phrase) == multiset(w) + multiset(remainder)
    ensures IsAnagram(words, phrase, pre, shortest, [w] + tail) && Join([w] + tail) == w + " " + Join(tail)
  {
    var ws := [w] + tail;
    assert ws[1..] == tail;
    forall i | 0 <= i < |ws| ensures ws[i] in words && |ws[i]| >= shortest {
      if i > 0 {
        assert ws[i] == tail[i - 1];
      }
    }
  }

  /** The words after the first of an anagram are an anagram of the letters they spend, and
      the first word leaves exactly those letters. */
  lemma AnagramTail(words: set<string>, phrase: string, pre: string, shortest: int, ws: seq<string>)
    requires IsAnagram(words, phrase, pre, shortest, ws)
    ensures ws[0] in words && |ws[0]| >= shortest && LexLess(pre, ws[0])
    ensures multiset(phrase) == multiset(ws[0]) + multiset(Concat(ws[1..]))
    ensures |ws| > 1 ==> IsAnagram(words, Concat(ws[1..]), ws[0], shortest, ws[1..]) && Concat(ws[1..]) != []
    ensures |ws| == 1 ==> Concat(ws[1..]) == []
  {
    ConcatMultiset(ws);
    if |ws| > 1 {
      var tail := ws[1..];
      assert Ascending(ws[0], tail) && tail != [];
      assert LexLess(ws[0], tail[0]);
      LexLessNonEmpty(ws[0], tail[0]);
      forall i | 0 <= i < |tail| ensures tail[i] in words && |tail[i]| >= shortest {
        assert tail[i] == ws[i + 1];
      }
    }
  }

  /** Taking w out of a phrase whose letters are w's and t's leaves t's letters. */
  lemma RemovedLeaves(phrase: string, w: string, t: string)
    requires multiset(phrase) == multiset(w) + multiset(t)
    ensures multiset(Removed(phrase, w)) == multiset(t)
    ensures multiset(w) <= multiset(phrase)
  {
    RemovedMultiset(phrase, w);
  }

  /** Taking out letters that are there leaves the rest. */
  lemma RemovedSplit(phrase: string, w: string)
    requires multiset(w) <= multiset(phrase)
    ensures multiset(phrase) == multiset(w) + multiset(Removed(phrase, w))
  {
    RemovedMultiset(phrase, w);
    var m, mw := multiset(phrase), multiset(w);
    assert (m - mw) + mw == m;
  }

  /** Every answer of `find_anagrams` is made of dictionary words of length at least shortest,
      strictly increasing after pre, that spend exactly the letters of the phrase. */
  lemma {:induction false} AnagramSetSound(words: set<string>, prefixes: set<string>, phrase: string, pre: string, shortest: int, r: string)
    returns (ws: seq<string>)
    requires r in AnagramSet(words, prefixes, phrase, pre, shortest)
    ensures IsAnagram(words, phrase, pre, shortest, ws) && r == Join(ws)
    decreases |phrase|
  {
    var w := AnagramSetFrom(words, prefixes, phrase, pre, shortest, r);
    var rest := ContributionParts(words, prefixes, phrase, pre, shortest, w, r);
    var remainder := Removed(phrase, w);
    RemovedSplit(phrase, w);
    if remainder == [] {
      ws := [w];
      assert Concat(ws) == w + [];
    } else {
      var tail := AnagramSetSound(words, prefixes, remainder, w, shortest, rest);
      AnagramCons(words, phrase, remainder, pre, shortest, w, tail);
      ws := [w] + tail;
    }
  }

  /** Every such phrase is an answer of `find_anagrams`, when the prefix set is the one built
      from the word set. */
  lemma {:induction false} AnagramSetComplete(words: set<string>, phrase: string, pre: string, shortest: int, ws: seq<string>)
    requires IsAnagram(words, phrase, pre, shortest, ws)
    ensures Join(ws) in AnagramSet(words, PrefixSet(words), phrase, pre, shortest)
    decreases |ws|
  {
    var prefixes := PrefixSet(words);
    var w := ws[0];
    AnagramTail(words, phrase, pre, shortest, ws);
    RemovedLeaves(phrase, w, Concat(ws[1..]));
    WordsInExact(words, phrase, w);
    var remainder := Removed(phrase, w);
    if |ws| == 1 {
      assert |multiset(remainder)| == 0;
      ContributionWhole(words, prefixes, phrase, pre, shortest, w);
    } else {
      assert |multiset(remainder)| == |Concat(ws[1..])| > 0;
      RemovedLength(phrase, w);
      AnagramSetComplete(words, remainder, w, shortest, ws[1..]);
      ContributionFront(words, prefixes, phrase, pre, shortest, w, Join(ws[1..]));
    }
  }

  lemma {:induction false} NoSpacesAppend(a: string, b: string)
    ensures NoSpaces(a + b) == NoSpaces(a) + NoSpaces(b)
  {
    if a != [] {
      assert (a + b)[1..] == a[1..] + b;
      NoSpacesAppend(a[1..], b);
    } else {
      assert a + b == b;
    }
  }

  lemma {:induction false} NoSpacesKeeps(w: string)
    requires ' ' !in w
    ensures NoSpaces(w) == w
  {
    if w != [] {
      NoSpacesKeeps(w[1..]);
    }
  }

  /** With spaces dropped, the phrase of words is the words written together. */
  lemma {:induction false} NoSpacesJoin(ws: seq<string>)
    requires ws != [] && forall i :: 0 <= i < |ws| ==> ' ' !in ws[i]
    ensures NoSpaces(Join(ws)) == Concat(ws)
  {
    var first := ws[0];
    NoSpacesKeeps(first);
    if |ws| > 1 {
      var rest := ws[1..];
      forall i | 0 <= i < |rest| ensures ' ' !in rest[i] {
        assert rest[i] == ws[i + 1];
      }
      NoSpacesJoin(rest);
      assert Join(ws) == (first + " ") + Join(rest);
      NoSpacesAppend(first + " ", Join(rest));
      NoSpacesAppend(first, " ");
      assert NoSpaces(" ") == [];
      assert NoSpaces(first + " ") == first;
      assert Concat(ws) == first + Concat(rest);
    } else {
      assert Concat(ws) == first + Concat([]);
    }
  }

  /** Every answer of `anagrams(phrase, shortest)` is a phrase of dictionary words in strictly
      increasing order whose letters, spaces aside, are those of the input phrase. */
  lemma AnagramsOfSound(words: set<string>, prefixes: set<string>, phrase: string, shortest: int, r: string)
    returns (ws: seq<string>)
    requires r in AnagramsOf(words, prefixes, phrase, shortest)
    requires forall w :: w in words ==> ' ' !in w
    ensures IsAnagram(words, NoSpaces(phrase), [], shortest, ws) && r == Join(ws)
    ensures multiset(NoSpaces(r)) == multiset(NoSpaces(phrase))
  {
    ws := AnagramSetSound(words, prefixes, NoSpaces(phrase), [], shortest, r);
    NoSpacesJoin(ws);
  }

  /** `extend_prefix` adds pre itself exactly when pre is a word. */
  lemma ExtendedPre(words: set<string>, prefixes: set<string>, pre: string, letters: string)
    ensures pre in Extended(words, prefixes, pre, letters) <==> pre in words
  {
    if pre in Extended(words, prefixes, pre, letters) {
      ExtendedSound(words, prefixes, pre, letters, pre);
    }
  }
}
