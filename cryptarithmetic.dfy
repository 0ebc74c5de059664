/** Cryptarithmetic: a formula such as "ODD + ODD == EVEN" is solved by giving each letter a
    digit of its own. `solve` fills the digits into the text and evaluates it; `compile_formula`
    turns the formula once into a function of the letters, each word becoming the arithmetic
    expression of its positional value. */
module Cryptarithmetic {
  import opened Common
  import opened Permutations

  predicate IsUpperLetter(c: char) { 'A' <= c <= 'Z' }

  predicate IsLowerLetter(c: char) { 'a' <= c <= 'z' }

  predicate IsDigit(c: char) { '0' <= c <= '9' }

  /** What `\w` matches: a letter, a digit or the underscore. */
  predicate IsWordChar(c: char) {
    IsUpperLetter(c) || IsLowerLetter(c) || IsDigit(c) || c == '_'
  }

  /** `str.isupper()`: some upper-case letter and no lower-case one. */
  predicate IsUpper(w: string) {
    (exists i :: 0 <= i < |w| && IsUpperLetter(w[i])) && forall i :: 0 <= i < |w| ==> !IsLowerLetter(w[i])
  }

  /** A word of the formula: one or more of the letters A to Z. */
  predicate IsWord(w: string) {
    w != [] && forall i :: 0 <= i < |w| ==> IsUpperLetter(w[i])
  }

  predicate AllDigits(s: string) {
    forall i :: 0 <= i < |s| ==> IsDigit(s[i])
  }

  function DigitChar(d: nat): char
    requires d < 10
  {
    ('0' as int + d) as char
  }

  function DigitValue(c: char): nat
    requires IsDigit(c)
  {
    c as int - '0' as int
  }

  /** `str(n)`: the decimal numeral of n. */
  function Show(n: nat): string
    decreases n
  {
    if n < 10 then [DigitChar(n)] else Show(n / 10) + [DigitChar(n % 10)]
  }

  /** The number a decimal numeral denotes. */
  function Read(s: string): nat
    requires AllDigits(s)
  {
    if s == [] then 0 else 10 * Read(s[..|s| - 1]) + DigitValue(s[|s| - 1])
  }

  /** A numeral is a non-empty string of digits that reads back as the number it shows. */
  lemma {:induction false} ReadShow(n: nat)
    ensures Show(n) != [] && AllDigits(Show(n)) && Read(Show(n)) == n
    decreases n
  {
    if n >= 10 {
      ReadShow(n / 10);
      var s := Show(n);
      assert s[..|s| - 1] == Show(n / 10);
    }
  }

  /** `10**i`. */
  function Pow10(i: nat): nat {
    if i == 0 then 1 else 10 * Pow10(i - 1)
  }

  /** `sep.join(ts)`. */
  function Join(ts: seq<string>, sep: char): string {
    if ts == [] then [] else if |ts| == 1 then ts[0] else ts[0] + [sep] + Join(ts[1..], sep)
  }

  /** `"".join(ts)`. */
  function Concat(ts: seq<string>): string {
    if ts == [] then [] else ts[0] + Concat(ts[1..])
  }

  /** The term `"%s*%s" % (10**i, d)` for the letter d at place i, counted from the right. */
  function Term(word: string, i: nat): string
    requires i < |word|
  {
    Show(Pow10(i)) + "*" + [word[|word| - 1 - i]]
  }

  /** The terms of `enumerate(word[::-1])`: the units letter first. */
  function Terms(word: string): seq<string> {
    seq(|word|, i requires 0 <= i < |word| => Term(word, i))
  }

  /** `compile_word`: an upper-case word becomes the sum of its letters times their place
      values; anything else is left as it is. */
  function CompileWord(word: string): string {
    if IsUpper(word) then "(" + Join(Terms(word), '+') + ")" else word
  }

  /** The number a word spells when each letter c stands for the digit a(c). */
  function Value(w: string, a: char -> nat): nat {
    if w == [] then 0 else 10 * Value(w[..|w| - 1], a) + a(w[|w| - 1])
  }

  /** `s.split(sep)`. */
  function Split(s: string, sep: char): seq<string>
    decreases |s|
  {
    if sep in s then [s[..FirstIndex(s, sep)]] + Split(s[FirstIndex(s, sep) + 1..], sep) else [s]
  }

  /** The value of a term `n*L` when L stands for a(L); other text counts 0. */
  function TermValue(t: string, a: char -> nat): nat {
    if |t| >= 2 && t[|t| - 2] == '*' && AllDigits(t[..|t| - 2]) then Read(t[..|t| - 2]) * a(t[|t| - 1]) else 0
  }

  function SumValue(ts: seq<string>, a: char -> nat): nat {
    if ts == [] then 0 else SumValue(ts[..|ts| - 1], a) + TermValue(ts[|ts| - 1], a)
  }

  /** The value of a compiled word `(t+...+t)` when each letter c stands for a(c). */
  function Eval(e: string, a: char -> nat): nat {
    if |e| >= 2 && e[0] == '(' && e[|e| - 1] == ')' then SumValue(Split(e[1..|e| - 1], '+'), a) else 0
  }

  /** A position holding c with no c before it is the first occurrence of c. */
  lemma FirstIndexAt(s: string, c: char, i: nat)
    requires i < |s| && s[i] == c && c !in s[..i]
    ensures FirstIndex(s, c) == i
  {
  }

  /** Splitting a join at its separator gives back the parts, when no part holds it. */
  lemma {:induction false} SplitJoin(ts: seq<string>, sep: char)
    requires ts != [] && forall k :: 0 <= k < |ts| ==> sep !in ts[k]
    ensures Split(Join(ts, sep), sep) == ts
  {
    if |ts| > 1 {
      var s := Join(ts, sep);
      var i := |ts[0]|;
      assert s[..i] == ts[0];
      FirstIndexAt(s, sep, i);
      assert s[i + 1..] == Join(ts[1..], sep);
      SplitJoin(ts[1..], sep);
    }
  }

  /** The term of place i is worth the place value times the letter's digit, and holds no '+'. */
  lemma TermRead(w: string, i: nat, a: char -> nat)
    requires IsWord(w) && i < |w|
    ensures TermValue(Term(w, i), a) == Pow10(i) * a(w[|w| - 1 - i])
    ensures '+' !in Term(w, i)
  {
    ReadShow(Pow10(i));
    var t := Term(w, i);
    assert t[..|t| - 2] == Show(Pow10(i));
    assert forall k :: 0 <= k < |t| ==> IsDigit(t[k]) || t[k] == '*' || IsUpperLetter(t[k]);
  }

  /** The value of a word read from its most significant letter. */
  lemma {:induction false} ValueFront(w: string, a: char -> nat)
    requires w != []
    ensures Value(w, a) == Pow10(|w| - 1) * a(w[0]) + Value(w[1..], a)
  {
    if |w| > 1 {
      var p := w[..|w| - 1];
      ValueFront(p, a);
      assert w[1..][..|w| - 2] == p[1..];
      assert Pow10(|w| - 1) == 10 * Pow10(|p| - 1);
    } else {
      assert w[..0] == [] && w[1..] == [];
    }
  }

  /** Below the most significant letter, the terms of a word are those of the rest of it. */
  lemma TermsTail(w: string)
    requires w != []
    ensures Terms(w)[..|w| - 1] == Terms(w[1..])
  {
    forall i | 0 <= i < |w| - 1 ensures Terms(w)[i] == Terms(w[1..])[i] {
      assert w[|w| - 1 - i] == w[1..][|w| - 2 - i];
    }
  }

  /** The terms of a word sum to its value. */
  lemma {:induction false} TermsSum(w: string, a: char -> nat)
    requires IsWord(w)
    ensures SumValue(Terms(w), a) == Value(w, a)
    decreases |w|
  {
    var ts := Terms(w);
    var n := |w|;
    TermsTail(w);
    TermRead(w, n - 1, a);
    assert SumValue(ts, a) == SumValue(Terms(w[1..]), a) + Pow10(n - 1) * a(w[0]);
    if n > 1 {
      TermsSum(w[1..], a);
    } else {
      assert Terms(w[1..]) == [];
    }
    ValueFront(w, a);
  }

  /** A compiled word evaluates to the number the word spells: the positional value. */
  lemma CompiledValue(w: string, a: char -> nat)
    requires IsWord(w)
    ensures Eval(CompileWord(w), a) == Value(w, a)
  {
    assert IsUpperLetter(w[0]);
    var ts := Terms(w);
    forall k | 0 <= k < |ts| ensures '+' !in ts[k] {
      TermRead(w, k, a);
    }
    SplitJoin(ts, '+');
    var e := CompileWord(w);
    assert e[1..|e| - 1] == Join(ts, '+');
    TermsSum(w, a);
  }

  /** `compile_word('YOU')` is `'(1*U+10*O+100*Y)'`. */
  lemma YouTest(w: string)
    requires w == "YOU"
    ensures CompileWord(w) == "(1*U+10*O+100*Y)"
  {
    assert IsUpperLetter(w[0]);
    assert Show(10) == "10" && Show(100) == "100";
    assert Term(w, 0) == "1*U" && Term(w, 1) == "10*O" && Term(w, 2) == "100*Y";
    var ts := Terms(w);
    assert ts == ["1*U", "10*O", "100*Y"];
    assert ts[1..][1..] == ["100*Y"];
    assert Join(ts[1..], '+') == "10*O" + "+" + "100*Y";
    assert Join(ts, '+') == "1*U" + "+" + "10*O+100*Y";
  }

  /** Text without an upper-case letter, such as `' + '`, is not compiled. */
  lemma CompileOther(t: string)
    requires NoUpper(t)
    ensures CompileWord(t) == t
  {
  }

  /** The first index from i on that holds an upper-case letter, or |f|. */
  function UpperFrom(f: string, i: nat): (j: nat)
    requires i <= |f|
    ensures i <= j <= |f| && (j < |f| ==> IsUpperLetter(f[j]))
    ensures forall k :: i <= k < j ==> !IsUpperLetter(f[k])
    decreases |f| - i
  {
    if i == |f| || IsUpperLetter(f[i]) then i else UpperFrom(f, i + 1)
  }

  /** The first index from i on that does not hold an upper-case letter, or |f|. */
  function RunFrom(f: string, i: nat): (j: nat)
    requires i <= |f|
    ensures i <= j <= |f| && (j < |f| ==> !IsUpperLetter(f[j]))
    ensures forall k :: i <= k < j ==> IsUpperLetter(f[k])
    decreases |f| - i
  {
    if i == |f| || !IsUpperLetter(f[i]) then i else RunFrom(f, i + 1)
  }

  /** `re.split("([A-Z]+)", f)`: the text between words, and each word, alternately. */
  function SplitWords(f: string): seq<string>
    decreases |f|
  {
    var i := UpperFrom(f, 0);
    if i == |f| then [f]
    else
      var j := RunFrom(f, i);
      [f[..i], f[i..j]] + SplitWords(f[j..])
  }

  /** No upper-case letter in s. */
  predicate NoUpper(s: string) {
    forall i :: 0 <= i < |s| ==> !IsUpperLetter(s[i])
  }

  /** Where the formula holds a word, `re.split` gives the text before it, the word, and the
      pieces of the rest. */
  lemma SplitWordsCons(f: string) returns (i: nat, j: nat)
    requires UpperFrom(f, 0) < |f|
    ensures i < j <= |f| && SplitWords(f) == [f[..i], f[i..j]] + SplitWords(f[j..])
    ensures NoUpper(f[..i]) && IsWord(f[i..j]) && (j < |f| ==> !IsUpperLetter(f[j]))
  {
    i := UpperFrom(f, 0);
    j := RunFrom(f, i);
    assert forall k :: 0 <= k < i ==> f[..i][k] == f[k];
    assert forall k :: 0 <= k < j - i ==> f[i..j][k] == f[i + k];
  }

  /** Joining two pieces and the rest. */
  lemma ConcatTwo(x: string, y: string, rest: seq<string>)
    ensures Concat([x, y] + rest) == x + (y + Concat(rest))
  {
    var ts := [x, y] + rest;
    assert ts[1..] == [y] + rest && ts[1..][1..] == rest;
  }

  lemma ThreeParts(f: string, i: nat, j: nat)
    requires i <= j <= |f|
    ensures f[..i] + (f[i..j] + f[j..]) == f
  {
  }

  /** The pieces of `re.split` put together give back the formula. */
  lemma {:induction false} SplitWordsConcat(f: string)
    ensures Concat(SplitWords(f)) == f
    decreases |f|
  {
    if UpperFrom(f, 0) < |f| {
      var i, j := SplitWordsCons(f);
      var rest := SplitWords(f[j..]);
      SplitWordsConcat(f[j..]);
      ConcatTwo(f[..i], f[i..j], rest);
      calc {
        Concat(SplitWords(f));
        Concat([f[..i], f[i..j]] + rest);
        f[..i] + (f[i..j] + f[j..]);
        { ThreeParts(f, i, j); }
        f;
      }
    } else {
      assert SplitWords(f) == [f];
      assert Concat([f]) == f + [];
    }
  }

  /** `re.split` gives text, then word and text m times: 2m + 1 pieces for m words. */
  lemma {:induction false} SplitWordsOdd(f: string) returns (m: nat)
    ensures |SplitWords(f)| == 2 * m + 1
    decreases |f|
  {
    if UpperFrom(f, 0) < |f| {
      var i, j := SplitWordsCons(f);
      var m' := SplitWordsOdd(f[j..]);
      m := m' + 1;
    } else {
      m := 0;
    }
  }

  /** The odd pieces are the words of the formula; the even ones hold no upper-case letter. */
  lemma {:induction false} SplitWordsPieces(f: string)
    ensures var ts := SplitWords(f);
      forall k :: 0 <= k < |ts| ==> if k % 2 == 1 then IsWord(ts[k]) else NoUpper(ts[k])
    decreases |f|
  {
    if UpperFrom(f, 0) < |f| {
      var i, j := SplitWordsCons(f);
      var rest := SplitWords(f[j..]);
      SplitWordsPieces(f[j..]);
      var ts := SplitWords(f);
      forall k | 0 <= k < |ts| ensures if k % 2 == 1 then IsWord(ts[k]) else NoUpper(ts[k]) {
        if k >= 2 {
          assert ts[k] == rest[k - 2];
        }
      }
    } else {
      assert forall k :: 0 <= k < |f| ==> !IsUpperLetter(f[k]);
    }
  }

  /** The pieces between two words are not empty: each word is as long as it can be. */
  lemma {:induction false} SplitWordsApart(f: string)
    ensures var ts := SplitWords(f);
      forall k :: 0 < k < |ts| - 1 && k % 2 == 0 ==> ts[k] != []
    decreases |f|
  {
    if UpperFrom(f, 0) < |f| {
      var i, j := SplitWordsCons(f);
      var g := f[j..];
      var rest := SplitWords(g);
      SplitWordsApart(g);
      var ts := SplitWords(f);
      if |rest| > 1 {
        assert g != [] && !IsUpperLetter(g[0]);
        assert UpperFrom(g, 0) < |g|;
        var i', j' := SplitWordsCons(g);
        assert rest[0] == g[..i'] && i' > 0;
      }
      forall k | 0 < k < |ts| - 1 && k % 2 == 0 ensures ts[k] != [] {
        assert ts[k] == rest[k - 2];
      }
    }
  }

  /** The body of the compiled function: every piece of the formula, compiled. */
  function Body(f: string): string {
    var ts := SplitWords(f);
    Concat(seq(|ts|, k requires 0 <= k < |ts| => CompileWord(ts[k])))
  }

  /** Compiling keeps the text between words and puts, in place of each word, an expression
      whose value is the number the word spells. */
  lemma BodyPieces(f: string, a: char -> nat)
    ensures var ts := SplitWords(f);
      forall k :: 0 <= k < |ts| ==>
        && (k % 2 == 0 ==> CompileWord(ts[k]) == ts[k])
        && (k % 2 == 1 ==> Eval(CompileWord(ts[k]), a) == Value(ts[k], a))
  {
    SplitWordsPieces(f);
    var ts := SplitWords(f);
    forall k | 0 <= k < |ts|
      ensures k % 2 == 0 ==> CompileWord(ts[k]) == ts[k]
      ensures k % 2 == 1 ==> Eval(CompileWord(ts[k]), a) == Value(ts[k], a)
    {
      if k % 2 == 1 {
        CompiledValue(ts[k], a);
      } else {
        CompileOther(ts[k]);
      }
    }
  }

  /** `set(re.findall("[A-Z]", f))`. */
  function Letters(f: string): set<char> {
    set c | c in f && IsUpperLetter(c)
  }

  /** `\b` before position i: i starts the text or follows a character that is not `\w`. */
  predicate BoundaryBefore(f: string, i: nat)
    requires i <= |f|
  {
    i == 0 || !IsWordChar(f[i - 1])
  }

  /** `set(re.findall(r"\b([A-Z])[A-Z]", f))`: the first letters of words of two or more
      letters that start a word of the formula. */
  function FirstLetters(f: string): set<char> {
    set i | 0 <= i < |f| - 1 && BoundaryBefore(f, i) && IsUpperLetter(f[i]) && IsUpperLetter(f[i + 1]) :: f[i]
  }

  /** order lists the set s, each element once (the order a Python set iterates in). */
  predicate Lists(order: string, s: set<char>) {
    Distinct(order) && forall c :: c in order <==> c in s
  }

  /** What `compile_formula` builds: the parameters of the lambda, the letters it requires
      to be non-zero, and the arithmetic that follows. */
  datatype Compiled = Compiled(params: string, nonZero: set<char>, body: string)

  /** `compile_formula(formula)`; the Python set of letters is listed as `order`. */
  function CompileFormula(formula: string, order: string): (c: Compiled)
    requires Lists(order, Letters(formula))
  {
    Compiled(order, FirstLetters(formula), Body(formula))
  }

  /** "YOU == ME**2": Y and M are guarded, and no other letter is. */
  lemma FirstLettersTest(f: string)
    requires f == "YOU == ME**2"
    ensures FirstLetters(f) == {'Y', 'M'}
  {
    assert f[0] == 'Y' && f[1] == 'O' && BoundaryBefore(f, 0);
    assert f[7] == 'M' && f[8] == 'E' && BoundaryBefore(f, 7);
    forall c | c in FirstLetters(f) ensures c == 'Y' || c == 'M' {
      var i :| 0 <= i < |f| - 1 && BoundaryBefore(f, i) && IsUpperLetter(f[i]) && IsUpperLetter(f[i + 1]) && f[i] == c;
      assert i == 0 || i == 7;
    }
  }

  /** `re.search(r"\b0[0-9]", f)` finds something: a number with a leading zero. */
  predicate HasLeadingZero(f: string) {
    exists i :: 0 <= i < |f| - 1 && BoundaryBefore(f, i) && f[i] == '0' && IsDigit(f[i + 1])
  }

  /** The character c becomes under `str.maketrans(letters, digits)`. */
  function Assign(letters: string, digits: string, c: char): char
    requires |digits| == |letters|
  {
    if c in letters then digits[FirstIndex(letters, c)] else c
  }

  /** `f.translate(str.maketrans(letters, digits))`. */
  function Translate(f: string, letters: string, digits: string): string
    requires |digits| == |letters|
  {
    seq(|f|, i requires 0 <= i < |f| => Assign(letters, digits, f[i]))
  }

  const DigitPool: string := "1234567890"

  /** `fill_in(formula)`: the formula filled in with every assignment of different digits. */
  function FillIn(formula: string, letters: string): seq<string> {
    var perms := Perms(DigitPool, |letters|);
    seq(|perms|, k requires 0 <= k < |perms| => Translate(formula, letters, PermsLength(letters, k)))
  }

  /** The k-th digit string of `itertools.permutations("1234567890", len(letters))`. */
  function PermsLength(letters: string, k: nat): (digits: string)
    requires k < |Perms(DigitPool, |letters|)|
    ensures |digits| == |letters|
  {
    var d := Perms(DigitPool, |letters|)[k];
    PoolDigits(DigitPool);
    PermsSound(DigitPool, |letters|, d);
    d
  }

  /** The digit pool holds every digit once. */
  lemma PoolDigits(pool: string)
    requires pool == "1234567890"
    ensures Distinct(pool) && forall c :: c in pool <==> IsDigit(c)
  {
  }

  /** Each filling-in gives the letters different digits: `fill_in` never lets two letters
      share one. */
  lemma FillInDistinct(formula: string, letters: string, k: nat, c1: char, c2: char)
    requires Distinct(letters) && k < |Perms(DigitPool, |letters|)|
    requires c1 in letters && c2 in letters && c1 != c2
    ensures var digits := PermsLength(letters, k);
      && IsDigit(Assign(letters, digits, c1))
      && Assign(letters, digits, c1) != Assign(letters, digits, c2)
  {
    var digits := PermsLength(letters, k);
    PoolDigits(DigitPool);
    PermsSound(DigitPool, |letters|, digits);
    var i1, i2 := FirstIndex(letters, c1), FirstIndex(letters, c2);
    assert digits[i1] in digits;
  }

  /** Every assignment of different digits to the letters is among the fillings-in. */
  lemma FillInComplete(formula: string, letters: string, digits: string)
    requires |digits| == |letters| && Distinct(digits) && AllDigits(digits)
    ensures Translate(formula, letters, digits) in FillIn(formula, letters)
  {
    PoolDigits(DigitPool);
    forall x | x in digits ensures x in DigitPool {
      var i :| 0 <= i < |digits| && digits[i] == x;
    }
    PermsComplete(DigitPool, |letters|, digits);
    var perms := Perms(DigitPool, |letters|);
    var k :| 0 <= k < |perms| && perms[k] == digits;
    assert FillIn(formula, letters)[k] == Translate(formula, letters, digits);
  }

  /** Filling in leaves `\w` characters and other characters as they were, and turns each
      letter into a digit. */
  lemma TranslateChar(f: string, letters: string, digits: string, i: nat)
    requires |digits| == |letters| && AllDigits(digits) && i < |f|
    requires forall c :: c in letters ==> IsUpperLetter(c)
    ensures var t := Translate(f, letters, digits);
      && (IsWordChar(t[i]) <==> IsWordChar(f[i]))
      && (f[i] in letters ==> IsDigit(t[i]))
      && (f[i] !in letters ==> t[i] == f[i])
  {
  }

  /** The guards of the compiled function imply the leading-zero rule of `valid`: when the
      first letter of a word of two or more letters gets 0, the filled-in formula has a
      number with a leading zero. */
  lemma GuardZeroLeads(f: string, letters: string, digits: string, c: char)
    requires Lists(letters, Letters(f)) && |digits| == |letters| && AllDigits(digits)
    requires c in FirstLetters(f) && Assign(letters, digits, c) == '0'
    ensures HasLeadingZero(Translate(f, letters, digits))
  {
    var t := Translate(f, letters, digits);
    var i :| 0 <= i < |f| - 1 && BoundaryBefore(f, i) && IsUpperLetter(f[i]) && IsUpperLetter(f[i + 1]) && f[i] == c;
    assert f[i + 1] in Letters(f);
    TranslateChar(f, letters, digits, i + 1);
    if i > 0 {
      TranslateChar(f, letters, digits, i - 1);
    }
    assert BoundaryBefore(t, i) && t[i] == '0' && IsDigit(t[i + 1]);
  }

  /** No digit in s. */
  predicate NoDigits(s: string) {
    forall i :: 0 <= i < |s| ==> !IsDigit(s[i])
  }

  /** In the filling-in of a formula without digits, a digit stands where a letter stood. */
  lemma DigitFromLetter(f: string, letters: string, digits: string, i: nat)
    requires Lists(letters, Letters(f)) && |digits| == |letters| && AllDigits(digits)
    requires NoDigits(f) && i < |f| && IsDigit(Translate(f, letters, digits)[i])
    ensures IsUpperLetter(f[i]) && Assign(letters, digits, f[i]) == Translate(f, letters, digits)[i]
  {
    assert f[i] in letters;
    assert f[i] in Letters(f);
  }

  /** Conversely, when the formula holds no digits of its own, a leading zero in a filling-in
      can only come from a first letter that got 0: the guards and the rule agree. */
  lemma LeadingZeroGuarded(f: string, letters: string, digits: string)
    requires Lists(letters, Letters(f)) && |digits| == |letters| && AllDigits(digits)
    requires NoDigits(f) && HasLeadingZero(Translate(f, letters, digits))
    ensures exists c :: c in FirstLetters(f) && Assign(letters, digits, c) == '0'
  {
    var t := Translate(f, letters, digits);
    var i :| 0 <= i < |t| - 1 && BoundaryBefore(t, i) && t[i] == '0' && IsDigit(t[i + 1]);
    DigitFromLetter(f, letters, digits, i);
    DigitFromLetter(f, letters, digits, i + 1);
    assert BoundaryBefore(f, i) by {
      if i > 0 {
        assert forall c :: c in letters ==> IsUpperLetter(c);
        TranslateChar(f, letters, digits, i - 1);
      }
    }
    FirstLetterAt(f, i);
  }

  lemma FirstLetterAt(f: string, i: nat)
    requires i < |f| - 1 && BoundaryBefore(f, i) && IsUpperLetter(f[i]) && IsUpperLetter(f[i + 1])
    ensures f[i] in FirstLetters(f)
  {
  }

  /** `valid(f)`: no number with a leading zero, and the formula evaluates to True. Python's
      `eval`, with `ArithmeticError` read as False, is the parameter `holds`. */
  predicate Valid(f: string, holds: string -> bool) {
    !HasLeadingZero(f) && holds(f)
  }

  function ValidCandidate(holds: string -> bool): string -> Option<string> {
    (f: string) => if Valid(f, holds) then Some(f) else None
  }

  /** `solve(formula)`: the first filling-in that is valid; None when there is none. The
      letters are listed in the order the Python set iterates in. */
  function Solve(formula: string, letters: string, holds: string -> bool): Option<string> {
    FindFirst(FillIn(formula, letters), ValidCandidate(holds))
  }

  /** A solution is the first valid filling-in, and no word of the formula starts with 0
      in it. */
  lemma SolveFirst(formula: string, letters: string, holds: string -> bool) returns (k: nat)
    requires Lists(letters, Letters(formula)) && Solve(formula, letters, holds).Some?
    ensures var fills := FillIn(formula, letters);
      && k < |fills| && Solve(formula, letters, holds) == Some(fills[k])
      && Valid(fills[k], holds)
      && (forall j :: 0 <= j < k ==> !Valid(fills[j], holds))
      && forall c :: c in FirstLetters(formula) ==> Assign(letters, PermsLength(letters, k), c) != '0'
  {
    var fills := FillIn(formula, letters);
    k := FindFirstAt(fills, ValidCandidate(holds));
    forall j | 0 <= j < k ensures !Valid(fills[j], holds) {
      assert ValidCandidate(holds)(fills[j]) == None;
    }
    var digits := PermsLength(letters, k);
    PoolDigits(DigitPool);
    PermsSound(DigitPool, |letters|, digits);
    forall c | c in FirstLetters(formula) ensures Assign(letters, digits, c) != '0' {
      if Assign(letters, digits, c) == '0' {
        GuardZeroLeads(formula, letters, digits, c);
      }
    }
  }

  /** `solve` returns None only when no filling-in is valid. */
  lemma SolveNone(formula: string, letters: string, holds: string -> bool)
    requires Solve(formula, letters, holds).None?
    ensures forall f :: f in FillIn(formula, letters) ==> !Valid(f, holds)
  {
    var fills := FillIn(formula, letters);
    forall f | f in fills ensures !Valid(f, holds) {
      var k :| 0 <= k < |fills| && fills[k] == f;
      if Valid(f, holds) {
        FindFirstSome(fills, ValidCandidate(holds), k);
      }
    }
  }
}
