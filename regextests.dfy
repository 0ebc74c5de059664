/** The assertions of the lesson's `test()` functions for the interpreter and the compiler. */
module RegexTests {
  import opened Common
  import opened Matchsets

  lemma LitTest()
    ensures Matchset(Lit("abc"), "abcdef") == {"def"}
  {
  }

  lemma SeqTest()
    ensures Matchset(Seq(Lit("hi "), Lit("there ")), "hi there nice to meet you") == {"nice to meet you"}
  {
    assert Matchset(Lit("hi "), "hi there nice to meet you") == {"there nice to meet you"};
    assert Matchset(Lit("there "), "there nice to meet you") == {"nice to meet you"};
    SeqOfSingles(Lit("hi "), Lit("there "), "hi there nice to meet you", "there nice to meet you", "nice to meet you");
  }

  /** A sequence of two patterns that each leave one remainder leaves one remainder. */
  lemma SeqOfSingles(x: Pattern, y: Pattern, text: string, t1: string, t2: string)
    requires Matchset(x, text) == {t1} && Matchset(y, t1) == {t2}
    ensures Matchset(Seq(x, y), text) == {t2}
  {
  }

  lemma AltTest()
    ensures Matchset(Alt(Lit("dog"), Lit("cat")), "dog and cat") == {" and cat"}
  {
    assert !StartsWith("dog and cat", "cat") by {
      assert "dog and cat"[..3][0] == 'd';
    }
  }

  lemma DotTest()
    ensures Matchset(Dot, "am i missing something?") == {"m i missing something?"}
  {
  }

  lemma OneOfTest()
    ensures Matchset(OneOf("a"), "aabc123") == {"abc123"}
  {
  }

  lemma EolTests()
    ensures Matchset(Eol, "") == {""}
    ensures Matchset(Eol, "not end of line") == {}
  {
  }

  // The texts and literals of the remaining tests are parameters fixed by the requires, so
  // that the verifier reasons about the matcher's general lemmas rather than unfolding it on
  // constants.

  /** Where "hey" starts "heyhey!" and its tails. */
  lemma HeyPrefixes(hey: string, text: string)
    requires hey == "hey" && text == "heyhey!"
    ensures StartsWith(text, hey) && text[3..] == "hey!"
    ensures StartsWith(text[3..], hey) && text[3..][3..] == "!"
    ensures !StartsWith(text[3..][3..], hey)
  {
    assert text[3..][3..][0] != hey[0];
  }

  lemma StarTest(hey: string, text: string)
    requires hey == "hey" && text == "heyhey!"
    ensures Matchset(Star(Lit(hey)), text) == {"!", "heyhey!", "hey!"}
  {
    HeyPrefixes(hey, text);
    StarLitFront(hey, text);
    StarLitFront(hey, text[3..]);
    StarLitNone(hey, text[3..][3..]);
  }

  lemma CompiledStarTest(a: string, text: string)
    requires a == "a" && text == "aaaaabbbaa"
    ensures MatchC(StarC(LitC(a)), text) == Some("aaaaa")
  {
    assert forall i :: 0 <= i < 5 ==> text[i] == a[0];
    assert text[5] != a[0] && text[..5] == "aaaaa";
    StarCharRun(a, text, 5);
    MatchesAgree(Star(Lit(a)), text);
    LongestOf(text, Matchset(Star(Lit(a)), text), text[5..]);
  }

  lemma CompiledLitTests(hello: string, x: string, text: string)
    requires hello == "hello" && x == "x" && text == "hello how are you?"
    ensures MatchC(LitC(hello), text) == Some("hello")
    ensures MatchC(LitC(x), text) == None
  {
    LitMatch(hello, text);
    LitMatch(x, text);
    assert text[..5] == hello;
    assert text[..1] != x by { assert text[..1][0] == 'h'; }
  }

  lemma CompiledOneOfFound(xyz: string, text: string)
    requires xyz == "xyz" && text == "x**2 + y**2 = r**2"
    ensures MatchC(OneOfC(xyz), text) == Some("x")
  {
    OneOfMatch(xyz, text);
    assert text[0] == xyz[0] && text[..1] == "x";
  }

  lemma CompiledOneOfMissing(xyz: string, text: string)
    requires xyz == "xyz" && text == "   x is here!"
    ensures MatchC(OneOfC(xyz), text) == None
  {
    OneOfMatch(xyz, text);
    assert text[0] !in xyz;
  }
}
