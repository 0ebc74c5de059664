/** The second and third recognisers of the regex lesson: patterns as trees, matched by the
    interpreter `matchset` into the set of remainders of the text, and the same patterns
    compiled into matcher closures; `match` and `search` on top of either, and `n_ary`. */
module Matchsets {
  import opened Common

  /** The tuples the constructors `lit`, `seq`, `alt`, `dot`, `oneof`, `eol` and `star` build. */
  datatype Pattern =
    | Lit(s: string)
    | Seq(x: Pattern, y: Pattern)
    | Alt(x: Pattern, y: Pattern)
    | Dot
    | OneOf(chars: string)
    | Eol
    | Star(x: Pattern)

  /** `plus(x)`: one x, then any number. */
  function Plus(x: Pattern): Pattern {
    Seq(x, Star(x))
  }

  /** `opt(x)`: the empty literal or x. */
  function Opt(x: Pattern): Pattern {
    Alt(Lit(""), x)
  }

  /** `text.startswith(s)`. */
  predicate StartsWith(text: string, s: string) {
    |s| <= |text| && text[..|s|] == s
  }

  /** r is what is left of text once a prefix has been consumed. */
  predicate IsSuffix(r: string, text: string) {
    |r| <= |text| && r == text[|text| - |r|..]
  }

  lemma SuffixTrans(r: string, t: string, text: string)
    requires IsSuffix(r, t) && IsSuffix(t, text)
    ensures IsSuffix(r, text)
  {
    assert text[|text| - |r|..] == text[|text| - |t|..][|t| - |r|..];
  }

  /** `matchset`: the remainders the pattern can leave at the start of text, each a suffix. */
  function Matchset(p: Pattern, text: string): (rs: set<string>)
    ensures forall r :: r in rs ==> IsSuffix(r, text)
    decreases p, |text|
  {
    match p
    case Lit(s) => if StartsWith(text, s) then {text[|s|..]} else {}
    case Seq(x, y) =>
      var rs := set t1, t2 | t1 in Matchset(x, text) && t2 in Matchset(y, t1) :: t2;
      assert forall r :: r in rs ==> IsSuffix(r, text) by {
        forall r | r in rs ensures IsSuffix(r, text) {
          var t1 :| t1 in Matchset(x, text) && r in Matchset(y, t1);
          SuffixTrans(r, t1, text);
        }
      }
      rs
    case Alt(x, y) => Matchset(x, text) + Matchset(y, text)
    case Dot => if text != "" then {text[1..]} else {}
    case OneOf(cs) => if text != "" && text[0] in cs then {text[1..]} else {}
    case Eol => if text == "" then {""} else {}
    case Star(x) =>
      var rs := {text} + set t1, t2 | t1 in Matchset(x, text) && t1 != text && t2 in Matchset(p, t1) :: t2;
      assert forall r :: r in rs ==> IsSuffix(r, text) by {
        forall r | r in rs ensures IsSuffix(r, text) {
          if r != text {
            var t1 :| t1 in Matchset(x, text) && t1 != text && r in Matchset(p, t1);
            SuffixTrans(r, t1, text);
          }
        }
      }
      rs
  }

  /** `opt(x)` leaves the text itself or whatever x leaves. */
  lemma OptRemainders(x: Pattern, text: string)
    ensures Matchset(Opt(x), text) == {text} + Matchset(x, text)
  {
    assert StartsWith(text, "") && text[0..] == text;
  }

  /** The star of a non-empty literal at the front of the text leaves the text itself and
      whatever the star leaves after the literal. */
  lemma StarLitFront(s: string, text: string)
    requires s != "" && StartsWith(text, s)
    ensures Matchset(Star(Lit(s)), text) == {text} + Matchset(Star(Lit(s)), text[|s|..])
  {
    assert Matchset(Lit(s), text) == {text[|s|..]};
    assert text[|s|..] != text;
  }

  /** Where the text does not start with the literal, its star leaves only the text. */
  lemma StarLitNone(s: string, text: string)
    requires !StartsWith(text, s)
    ensures Matchset(Star(Lit(s)), text) == {text}
  {
  }

  /** The tails of text after its first 0, 1, ..., n characters. */
  function Tails(text: string, n: nat): set<string>
    requires n <= |text|
  {
    set i | 0 <= i <= n :: text[i..]
  }

  lemma TailsStep(text: string, n: nat)
    requires 0 < n <= |text|
    ensures Tails(text, n) == {text} + Tails(text[1..], n - 1)
  {
    var tail := text[1..];
    forall q | q in Tails(text, n) ensures q in {text} + Tails(tail, n - 1) {
      var i :| 0 <= i <= n && q == text[i..];
      if i > 0 { assert q == tail[i - 1..]; }
    }
    forall q | q in {text} + Tails(tail, n - 1) ensures q in Tails(text, n) {
      if q != text {
        var i :| 0 <= i <= n - 1 && q == tail[i..];
        assert q == text[i + 1..];
      } else {
        assert text[0..] == text;
      }
    }
  }

  /** The star of a one-character literal on a text that opens with a run of n such
      characters leaves the text after each prefix of the run. */
  lemma {:induction false} StarCharRun(s: string, text: string, n: nat)
    requires |s| == 1 && n <= |text| && forall i :: 0 <= i < n ==> text[i] == s[0]
    requires n == |text| || text[n] != s[0]
    ensures Matchset(Star(Lit(s)), text) == Tails(text, n)
    decreases n
  {
    if n == 0 {
      assert !StartsWith(text, s) by {
        if text != "" { assert text[..1][0] != s[0]; }
      }
      StarLitNone(s, text);
      assert text[0..] == text;
    } else {
      assert text[..1] == s;
      StarLitFront(s, text);
      StarCharRun(s, text[1..], n - 1);
      TailsStep(text, n);
    }
  }

  /** A set of suffixes whose member r is no longer than any other yields the text before r. */
  lemma LongestOf(text: string, rems: set<string>, r: string)
    requires forall q :: q in rems ==> IsSuffix(q, text)
    requires r in rems && forall q :: q in rems ==> |r| <= |q|
    ensures LongestMatch(text, rems) == Some(text[..|text| - |r|])
  {
    var m := LongestMatch(text, rems);
    assert IsSuffix(r, text) && IsSuffix(text[|m.value|..], text);
  }

  /** The length of the shortest remainder, found by trying the suffixes of text from
      length k upwards: a remainder is a suffix, so the one of each length is known. */
  function ShortestLen(text: string, rems: set<string>, k: nat): (n: nat)
    requires forall r :: r in rems ==> IsSuffix(r, text)
    requires rems != {} && forall r :: r in rems ==> k <= |r|
    ensures n <= |text| && text[|text| - n..] in rems && forall r :: r in rems ==> n <= |r|
    decreases |text| - k
  {
    assert k <= |text| by {
      var r0 :| r0 in rems;
      assert IsSuffix(r0, text) && k <= |r0|;
    }
    if text[|text| - k..] in rems then k
    else
      assert forall r :: r in rems ==> k < |r| by {
        forall r | r in rems ensures k < |r| {
          assert IsSuffix(r, text) && k <= |r|;
        }
      }
      assert k < |text| by {
        var r0 :| r0 in rems;
        assert IsSuffix(r0, text) && k < |r0|;
      }
      ShortestLen(text, rems, k + 1)
  }

  /** The `match` shared by interpreter and compiler: None when nothing remains, otherwise the
      text up to the shortest remainder, which is the longest prefix any remainder leaves. */
  function LongestMatch(text: string, rems: set<string>): (m: Option<string>)
    requires forall r :: r in rems ==> IsSuffix(r, text)
    ensures m.None? <==> rems == {}
    ensures m.Some? ==> StartsWith(text, m.value) && text[|m.value|..] in rems
    ensures m.Some? ==> forall r :: r in rems ==> |text| - |r| <= |m.value|
  {
    if rems == {} then None
    else
      var n := ShortestLen(text, rems, 0);
      Some(text[..|text| - n])
  }

  /** `match(pattern, text)` of the interpreter. */
  function MatchI(p: Pattern, text: string): Option<string> {
    LongestMatch(text, Matchset(p, text))
  }

  // Compiled patterns.

  /** A compiled pattern: text to the set of remainders. */
  type Matcher = string -> set<string>

  /** Every remainder a matcher leaves is a suffix of its text. */
  ghost predicate Shrinks(m: Matcher) {
    forall t, r :: r in m(t) ==> IsSuffix(r, t)
  }

  function LitC(s: string): (m: Matcher)
    ensures Shrinks(m)
  {
    (t: string) => if StartsWith(t, s) then {t[|s|..]} else {}
  }

  /** `set().union(*map(y, x(t)))`. */
  function SeqC(x: Matcher, y: Matcher): (m: Matcher)
    ensures Shrinks(x) && Shrinks(y) ==> Shrinks(m)
  {
    var m := (t: string) => set t1, t2 | t1 in x(t) && t2 in y(t1) :: t2;
    assert Shrinks(x) && Shrinks(y) ==> Shrinks(m) by {
      if Shrinks(x) && Shrinks(y) {
        forall t, r | r in m(t) ensures IsSuffix(r, t) {
          var t1 :| t1 in x(t) && r in y(t1);
          SuffixTrans(r, t1, t);
        }
      }
    }
    m
  }

  function AltC(x: Matcher, y: Matcher): (m: Matcher)
    ensures Shrinks(x) && Shrinks(y) ==> Shrinks(m)
  {
    (t: string) => x(t) + y(t)
  }

  function DotC(): (m: Matcher)
    ensures Shrinks(m)
  {
    (t: string) => if t != "" then {t[1..]} else {}
  }

  function OneOfC(chars: string): (m: Matcher)
    ensures Shrinks(m)
  {
    (t: string) => if t != "" && t[0] in chars then {t[1..]} else {}
  }

  function EolC(): (m: Matcher)
    ensures Shrinks(m)
  {
    (t: string) => if t == "" then {""} else {}
  }

  /** What `star(x)` returns on t; x must shrink for the recursion on remainders to end. */
  function StarApply(x: Matcher, t: string): (rs: set<string>)
    requires Shrinks(x)
    ensures forall r :: r in rs ==> IsSuffix(r, t)
    decreases |t|
  {
    var rs := {t} + set t1, t2 | t1 in x(t) && t1 != t && t2 in StarApply(x, t1) :: t2;
    assert forall r :: r in rs ==> IsSuffix(r, t) by {
      forall r | r in rs ensures IsSuffix(r, t) {
        if r != t {
          var t1 :| t1 in x(t) && t1 != t && r in StarApply(x, t1);
          SuffixTrans(r, t1, t);
        }
      }
    }
    rs
  }

  function StarC(x: Matcher): (m: Matcher)
    requires Shrinks(x)
    ensures Shrinks(m)
  {
    (t: string) => StarApply(x, t)
  }

  /** The closure the compiling constructors build for a pattern tree. */
  function Compile(p: Pattern): (m: Matcher)
    ensures Shrinks(m)
  {
    match p
    case Lit(s) => LitC(s)
    case Seq(x, y) => SeqC(Compile(x), Compile(y))
    case Alt(x, y) => AltC(Compile(x), Compile(y))
    case Dot => DotC()
    case OneOf(cs) => OneOfC(cs)
    case Eol => EolC()
    case Star(x) => StarC(Compile(x))
  }

  /** The compiler and the interpreter agree: the closure built for a pattern leaves exactly
      the remainders `matchset` computes. */
  lemma {:induction false} CompileAgrees(p: Pattern, text: string)
    ensures Compile(p)(text) == Matchset(p, text)
    decreases p, |text|
  {
    match p
    case Lit(s) =>
    case Seq(x, y) =>
      CompileAgrees(x, text);
      forall t1 | t1 in Matchset(x, text) ensures Compile(y)(t1) == Matchset(y, t1) {
        CompileAgrees(y, t1);
      }
    case Alt(x, y) =>
      CompileAgrees(x, text);
      CompileAgrees(y, text);
    case Dot =>
    case OneOf(cs) =>
    case Eol =>
    case Star(x) =>
      CompileAgrees(x, text);
      forall t1 | t1 in Matchset(x, text) && t1 != text ensures StarApply(Compile(x), t1) == Matchset(p, t1) {
        CompileAgrees(p, t1);
      }
  }

  /** `match(pattern, text)` of the compiler: the same longest match over the closure's
      remainders. */
  function MatchC(m: Matcher, text: string): Option<string>
    requires Shrinks(m)
  {
    LongestMatch(text, m(text))
  }

  /** So compiled and interpreted matching give the same answer. */
  lemma MatchesAgree(p: Pattern, text: string)
    ensures MatchC(Compile(p), text) == MatchI(p, text)
  {
    CompileAgrees(p, text);
  }

  /** A compiled literal matches exactly itself, at the start of a text that begins with it. */
  lemma LitMatch(s: string, text: string)
    ensures MatchC(LitC(s), text) == if StartsWith(text, s) then Some(s) else None
  {
    if StartsWith(text, s) {
      LongestOf(text, LitC(s)(text), text[|s|..]);
    }
  }

  /** A compiled `oneof` matches the first character when it is one of the choices. */
  lemma OneOfMatch(chars: string, text: string)
    ensures MatchC(OneOfC(chars), text) == if text != "" && text[0] in chars then Some(text[..1]) else None
  {
    if text != "" && text[0] in chars {
      LongestOf(text, OneOfC(chars)(text), text[1..]);
    }
  }

  /** The interpreter seen as a matcher. */
  function Interpret(p: Pattern): (m: Matcher)
    ensures Shrinks(m) && forall t :: m(t) == Matchset(p, t)
  {
    (t: string) => Matchset(p, t)
  }

  /** `search`, written the same way for interpreter and compiler: the first position i before
      the end of the text at which the pattern matches gives the answer; the empty tail at the
      end is never tried. */
  method Search(m: Matcher, text: string) returns (r: Option<string>)
    requires Shrinks(m)
    ensures r.None? <==> forall i :: 0 <= i < |text| ==> MatchC(m, text[i..]).None?
    ensures r.Some? ==>
      exists i :: (0 <= i < |text| && MatchC(m, text[i..]) == r && forall j :: 0 <= j < i ==> MatchC(m, text[j..]).None?)
  {
    for i := 0 to |text|
      invariant forall j :: 0 <= j < i ==> MatchC(m, text[j..]).None?
    {
      var found := MatchC(m, text[i..]);
      if found.Some? {
        return found;
      }
    }
    return None;
  }

  // `n_ary`.

  /** `n_ary(f)(x, *args)`: x alone, or f of x and the n-ary f of the rest. */
  function NAry<T>(f: (T, T) -> T, xs: seq<T>): T
    requires |xs| >= 1
    decreases |xs|
  {
    if |xs| == 1 then xs[0] else f(xs[0], NAry(f, xs[1..]))
  }

  /** The fold groups to the right: a new last argument joins the old last one first. */
  lemma {:induction false} NArySnoc<T>(f: (T, T) -> T, xs: seq<T>, y: T)
    requires |xs| >= 1
    ensures NAry(f, xs + [y]) == NAry(f, xs[..|xs| - 1] + [f(xs[|xs| - 1], y)])
    decreases |xs|
  {
    if |xs| == 1 {
      assert xs + [y] == [xs[0], y];
      assert xs[..0] + [f(xs[0], y)] == [f(xs[0], y)];
    } else {
      NArySnoc(f, xs[1..], y);
      assert (xs + [y])[1..] == xs[1..] + [y];
      assert (xs[..|xs| - 1] + [f(xs[|xs| - 1], y)])[1..] == xs[1..][..|xs| - 2] + [f(xs[|xs| - 1], y)];
    }
  }

  function SeqOf(x: Pattern, y: Pattern): Pattern {
    Seq(x, y)
  }

  /** Grouping of a sequence of patterns does not change what it matches. */
  lemma SeqAssoc(a: Pattern, b: Pattern, c: Pattern, text: string)
    ensures Matchset(Seq(Seq(a, b), c), text) == Matchset(Seq(a, Seq(b, c)), text)
  {
    var l := Matchset(Seq(Seq(a, b), c), text);
    var r := Matchset(Seq(a, Seq(b, c)), text);
    forall t | t in l ensures t in r {
      var t12 :| t12 in Matchset(Seq(a, b), text) && t in Matchset(c, t12);
      var t1 :| t1 in Matchset(a, text) && t12 in Matchset(b, t1);
      assert t in Matchset(Seq(b, c), t1);
    }
    forall t | t in r ensures t in l {
      var t1 :| t1 in Matchset(a, text) && t in Matchset(Seq(b, c), t1);
      var t2 :| t2 in Matchset(b, t1) && t in Matchset(c, t2);
      assert t2 in Matchset(Seq(a, b), text);
    }
  }

  /** So an n-ary `seq` made by `n_ary` matches as the pattern chains do, however split: the
      n-ary sequence of xs + ys is the sequence of the n-ary sequences of xs and of ys. */
  lemma {:induction false} NArySeqSplit(xs: seq<Pattern>, ys: seq<Pattern>, text: string)
    requires |xs| >= 1 && |ys| >= 1
    ensures Matchset(NAry(SeqOf, xs + ys), text) == Matchset(Seq(NAry(SeqOf, xs), NAry(SeqOf, ys)), text)
    decreases |xs|
  {
    if |xs| == 1 {
      assert (xs + ys)[1..] == ys;
    } else {
      assert (xs + ys)[1..] == xs[1..] + ys;
      var rest := NAry(SeqOf, xs[1..] + ys);
      forall t1 | t1 in Matchset(xs[0], text)
        ensures Matchset(rest, t1) == Matchset(Seq(NAry(SeqOf, xs[1..]), NAry(SeqOf, ys)), t1)
      {
        NArySeqSplit(xs[1..], ys, t1);
      }
      SeqAssoc(xs[0], NAry(SeqOf, xs[1..]), NAry(SeqOf, ys), text);
    }
  }
}
