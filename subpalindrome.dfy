/** The longest case-insensitive palindrome in a text, found by growing a slice outwards from
    every centre: the single characters and the gaps between neighbours. */
module Subpalindrome {
  import opened Common

  /** `c.upper()` on the ASCII letters; other characters are their own upper case here. */
  function Upper(c: char): char {
    if 'a' <= c <= 'z' then (c as int - 32) as char else c
  }

  /** The two characters are equal once upper-cased. */
  predicate SameLetter(a: char, b: char) {
    Upper(a) == Upper(b)
  }

  /** `text[i:j]` reads the same backwards, ignoring case: its outer characters agree and so
      does what lies between them. */
  predicate IsPal(text: string, i: nat, j: nat)
    requires i <= j <= |text|
    decreases j - i
  {
    j - i <= 1 || (SameLetter(text[i], text[j - 1]) && IsPal(text, i + 1, j - 1))
  }

  /** `length(slice)`. */
  function Length(slice: (nat, nat)): int {
    slice.1 - slice.0
  }

  /** What `grow(text, start, end)` returns: the slice widened by one character on each side
      for as long as the two characters outside it agree. */
  function Grown(text: string, start: nat, end: nat): (r: (nat, nat))
    requires start <= end <= |text|
    ensures r.0 <= start && end <= r.1 <= |text| && start - r.0 == r.1 - end
    ensures r.0 == 0 || r.1 == |text| || !SameLetter(text[r.0 - 1], text[r.1])
    ensures IsPal(text, start, end) ==> IsPal(text, r.0, r.1)
    decreases start
  {
    if start > 0 && end < |text| && SameLetter(text[start - 1], text[end]) then
      Grown(text, start - 1, end + 1)
    else (start, end)
  }

  /** `grow`: the while loop moving start left and end right. */
  method Grow(text: string, start: nat, end: nat) returns (s: nat, e: nat)
    requires start <= end <= |text|
    ensures (s, e) == Grown(text, start, end)
  {
    s, e := start, end;
    while s > 0 && e < |text| && SameLetter(text[s - 1], text[e])
      invariant s <= start && end <= e <= |text| && start - s == e - end
      invariant Grown(text, s, e) == Grown(text, start, end)
      decreases s
    {
      assert Grown(text, s, e) == Grown(text, s - 1, e + 1);
      s, e := s - 1, e + 1;
    }
    assert Grown(text, s, e) == (s, e);
  }

  /** The slices the comprehension builds for the first n starts: for each start, grown
      from (start, start) and from (start, start + 1). */
  function Slices(text: string, n: nat): (r: seq<(nat, nat)>)
    requires n <= |text|
    ensures |r| == 2 * n
  {
    if n == 0 then [] else Slices(text, n - 1) + [Grown(text, n - 1, n - 1), Grown(text, n - 1, n)]
  }

  /** The two slices of start c sit at positions 2c and 2c + 1. */
  lemma {:induction false} SliceAt(text: string, n: nat, c: nat)
    requires c < n <= |text|
    ensures Slices(text, n)[2 * c] == Grown(text, c, c)
    ensures Slices(text, n)[2 * c + 1] == Grown(text, c, c + 1)
    decreases n
  {
    if c < n - 1 {
      SliceAt(text, n - 1, c);
    }
  }

  /** Every slice grown from a centre is a palindrome. */
  lemma {:induction false} SlicesArePalindromes(text: string, n: nat, m: nat)
    requires n <= |text| && m < 2 * n
    ensures var r := Slices(text, n)[m]; r.0 <= r.1 <= |text| && IsPal(text, r.0, r.1)
    decreases n
  {
    var c := n - 1;
    var before := Slices(text, c);
    assert Slices(text, n) == before + [Grown(text, c, c), Grown(text, c, c + 1)];
    if m < 2 * c {
      assert Slices(text, n)[m] == before[m];
      SlicesArePalindromes(text, c, m);
    } else {
      var end := if m == 2 * c then c else c + 1;
      assert Slices(text, n)[m] == Grown(text, c, end);
      assert IsPal(text, c, end);
    }
  }

  /** `longest_subpalindrome_slice(text)`. */
  function LongestSubpalindromeSlice(text: string): (nat, nat)
  {
    if text == "" then (0, 0) else Slices(text, |text|)[FirstMaxIndex(Slices(text, |text|), Length)]
  }

  /** Growing from a centre that lies inside a palindrome, at equal distance from both of its
      ends, reaches at least that palindrome. */
  lemma {:induction false} GrowCovers(text: string, start: nat, end: nat, i: nat, j: nat)
    requires i <= start <= end <= j <= |text| && start - i == j - end
    requires IsPal(text, i, j)
    ensures Grown(text, start, end).0 <= i && j <= Grown(text, start, end).1
    decreases start - i
  {
    if start > i {
      PalInside(text, i, j, start - 1);
      GrowCovers(text, start - 1, end + 1, i, j);
    }
  }

  /** The slices of a palindrome with the same centre are palindromes. */
  lemma {:induction false} PalInside(text: string, i: nat, j: nat, k: nat)
    requires i <= k && k - i <= (j - i) / 2 && j <= |text| && IsPal(text, i, j)
    ensures IsPal(text, k, j - (k - i))
    decreases k - i
  {
    if k > i {
      PalInside(text, i + 1, j - 1, k);
    }
  }

  /** Every palindrome of the text lies inside the slice grown from its centre. */
  lemma CentreCovers(text: string, i: nat, j: nat) returns (m: nat)
    requires i <= j <= |text| && text != "" && IsPal(text, i, j)
    ensures m < 2 * |text| && j - i <= Length(Slices(text, |text|)[m])
  {
    var h := (j - i) / 2;
    assert 2 * h <= j - i <= 2 * h + 1;
    var c := i + h;
    if c == |text| {
      SliceAt(text, |text|, 0);
      m := 0;
    } else {
      var end := if j - i == 2 * h then c else c + 1;
      GrowCovers(text, c, end, i, j);
      var g := Grown(text, c, end);
      assert j - i <= g.1 - g.0;
      SliceAt(text, |text|, c);
      m := if end == c then 2 * c else 2 * c + 1;
      assert Slices(text, |text|)[m] == g;
    }
  }

  /** The answer is a slice of the text that is a palindrome. */
  lemma LongestIsSlice(text: string)
    ensures var r := LongestSubpalindromeSlice(text); r.0 <= r.1 <= |text| && IsPal(text, r.0, r.1)
  {
    if text != "" {
      SlicesArePalindromes(text, |text|, FirstMaxIndex(Slices(text, |text|), Length));
    }
  }

  /** No palindrome of the text is longer than the answer. */
  lemma LongestBeats(text: string, i: nat, j: nat)
    requires i <= j <= |text| && IsPal(text, i, j)
    ensures j - i <= Length(LongestSubpalindromeSlice(text))
  {
    if text != "" {
      var m := CentreCovers(text, i, j);
      FirstMaxIndexSpec(Slices(text, |text|), Length);
    }
  }

  /** The answer is a palindrome of the text, and none is longer. */
  lemma LongestIsPalindrome(text: string)
    ensures var r := LongestSubpalindromeSlice(text);
      && r.0 <= r.1 <= |text|
      && IsPal(text, r.0, r.1)
      && forall i, j :: 0 <= i <= j <= |text| && IsPal(text, i, j) ==> j - i <= r.1 - r.0
  {
    LongestIsSlice(text);
    forall i, j | 0 <= i <= j <= |text| && IsPal(text, i, j)
      ensures j - i <= Length(LongestSubpalindromeSlice(text))
    {
      LongestBeats(text, i, j);
    }
  }

  /** When the whole text is the unique palindrome of its length, the answer is all of it.
      This settles the lesson's tests on "racecar", "Racecar", "xxxxx". */
  lemma WholePalindrome(text: string)
    requires IsPal(text, 0, |text|)
    ensures LongestSubpalindromeSlice(text) == (0, |text|)
  {
    LongestIsSlice(text);
    LongestBeats(text, 0, |text|);
  }

  /** When text minus its last character is a palindrome, the whole text is not, and neither
      is the text minus its first character, the answer is (0, len(text) - 1). This settles
      the tests on "RacecarX" and "Mad am I ma dam.". */
  lemma AllButLast(text: string)
    requires text != "" && IsPal(text, 0, |text| - 1)
    requires !IsPal(text, 0, |text|) && !IsPal(text, 1, |text|)
    ensures LongestSubpalindromeSlice(text) == (0, |text| - 1)
  {
    LongestIsSlice(text);
    LongestBeats(text, 0, |text| - 1);
    var r := LongestSubpalindromeSlice(text);
    assert r.1 - r.0 == |text| - 1;
    assert r != (1, |text|);
  }

  /** The empty text gives (0, 0). */
  lemma EmptyText()
    ensures LongestSubpalindromeSlice("") == (0, 0)
  {
  }

  lemma RacecarTest(text: string)
    requires text == "Racecar"
    ensures LongestSubpalindromeSlice(text) == (0, 7)
  {
    assert Upper('R') == Upper('r');
    assert IsPal(text, 2, 5);
    WholePalindrome(text);
  }

  lemma LowerRacecarTest(text: string)
    requires text == "racecar"
    ensures LongestSubpalindromeSlice(text) == (0, 7)
  {
    assert IsPal(text, 2, 5);
    WholePalindrome(text);
  }

  /** The text has one short palindrome, of two or three characters, and no other slice of
      that length reads the same backwards. */
  predicate OnlyShortPalindrome(text: string, i: nat, j: nat) {
    && i + 2 <= j <= i + 3 && j <= |text| && IsPal(text, i, j)
    && forall k, l :: 0 <= k && k + 2 <= l <= k + 3 && l <= |text| && IsPal(text, k, l) ==> k == i && l == j
  }

  /** Every palindrome of two or more characters has a short palindrome at its centre. So
      when a text has just one short palindrome, every longer one shares its centre, and the
      answer is the slice grown from it. */
  lemma OneCentre(text: string, i: nat, j: nat)
    requires OnlyShortPalindrome(text, i, j)
    ensures LongestSubpalindromeSlice(text) == Grown(text, i, j)
  {
    var g := Grown(text, i, j);
    LongestIsSlice(text);
    LongestBeats(text, g.0, g.1);
    var r := LongestSubpalindromeSlice(text);
    var len := r.1 - r.0;
    var k := r.0 + (if len % 2 == 0 then (len - 2) / 2 else (len - 3) / 2);
    PalInside(text, r.0, r.1, k);
    assert k == i && r.1 - (k - r.0) == j;
    GrowCovers(text, i, j, r.0, r.1);
  }

  lemma RaceCarrTest(text: string)
    requires text == "Race carr"
    ensures LongestSubpalindromeSlice(text) == (7, 9)
  {
    RaceCarrShort(text);
    OneCentre(text, 7, 9);
  }

  lemma SomethingTest(text: string)
    requires text == "something rac e car going"
    ensures LongestSubpalindromeSlice(text) == (8, 21)
  {
    SomethingShort(text);
    OneCentre(text, 13, 16);
    SomethingGrown(text);
  }

  /** Grown from " e ", the slice widens five times, to "g rac e car g". */
  lemma SomethingGrown(text: string)
    requires text == "something rac e car going"
    ensures Grown(text, 13, 16) == (8, 21)
  {
    var u := text[7..22];
    assert u == "ng rac e car go";
    assert Grown(text, 8, 21) == (8, 21) by {
      assert !SameLetter(text[7], text[21]);
    }
    GrowStep(text, 9, 20);
    GrowStep(text, 10, 19);
    GrowStep(text, 11, 18);
    GrowStep(text, 12, 17);
    GrowStep(text, 13, 16);
  }

  lemma GrowStep(text: string, start: nat, end: nat)
    requires 0 < start <= end < |text| && SameLetter(text[start - 1], text[end])
    ensures Grown(text, start, end) == Grown(text, start - 1, end + 1)
  {
  }

  /** "rr" is the only short palindrome of "Race carr". */
  lemma RaceCarrShort(text: string)
    requires text == "Race carr"
    ensures OnlyShortPalindrome(text, 7, 9)
  {
    forall k, l | 0 <= k && k + 2 <= l <= k + 3 && l <= |text| && IsPal(text, k, l) ensures k == 7 && l == 9 {
      assert SameLetter(text[k], text[l - 1]);
    }
  }

  /** " e " is the only short palindrome of "something rac e car going". */
  lemma SomethingShort(text: string)
    requires text == "something rac e car going"
    ensures OnlyShortPalindrome(text, 13, 16)
  {
    assert IsPal(text, 13, 16);
    forall k, l | 0 <= k && k + 2 <= l <= k + 3 && l <= |text| && IsPal(text, k, l) ensures k == 13 && l == 16 {
      assert SameLetter(text[k], text[l - 1]);
    }
  }

  lemma XxxxxTest(text: string)
    requires text == "xxxxx"
    ensures LongestSubpalindromeSlice(text) == (0, 5)
  {
    assert IsPal(text, 1, 4);
    WholePalindrome(text);
  }

  lemma RacecarXTest(text: string)
    requires text == "RacecarX"
    ensures LongestSubpalindromeSlice(text) == (0, 7)
  {
    assert Upper('R') == Upper('r');
    assert !SameLetter(text[0], text[7]);
    assert !SameLetter(text[1], text[7]);
    AllButLast(text);
  }

  lemma MadamTest(text: string)
    requires text == "Mad am I ma dam."
    ensures LongestSubpalindromeSlice(text) == (0, 15)
  {
    assert Upper('M') == Upper('m');
    assert !SameLetter(text[0], text[15]);
    assert !SameLetter(text[1], text[15]);
    AllButLast(text);
  }
}
