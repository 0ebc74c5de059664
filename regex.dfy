/** The first regular-expression recogniser of the regex lesson: `search` and `match` over the
    string notation in which `.` is any character, `c*` repeats c, `c?` makes c optional, a
    leading `^` anchors at the start and a final `$` at the end. */
module RegexString {

  /** `text[1:]`, which Python gives as "" for the empty text. */
  function Rest(text: string): string {
    if text == "" then "" else text[1..]
  }

  /** `match1`: text has a first character and p is it or the wildcard. */
  predicate Match1(p: char, text: string) {
    text != "" && (p == text[0] || p == '.')
  }

  /** `match`: the pattern matches at the start of text. */
  predicate Match(pattern: string, text: string)
    decreases |pattern|, 0
  {
    if pattern == "" then true
    else if pattern == "$" then text == ""
    else if |pattern| > 1 && pattern[1] in "*?" then
      if pattern[1] == '*' then MatchStar(pattern[0], pattern[2..], text)
      else if Match1(pattern[0], text) && Match(pattern[2..], Rest(text)) then true
      else Match(pattern[2..], text)
    else Match1(pattern[0], text) && Match(pattern[1..], Rest(text))
  }

  /** `match_star`: any number of characters matching p, then the rest of the pattern. */
  predicate MatchStar(p: char, pattern: string, text: string)
    decreases |pattern| + 1, |text|
  {
    Match(pattern, text) || (Match1(p, text) && MatchStar(p, pattern, Rest(text)))
  }

  /** `search`: a pattern with `^` matches at the start, any other one after a `.*`. */
  predicate Search(pattern: string, text: string) {
    if |pattern| > 0 && pattern[0] == '^' then Match(pattern[1..], text) else Match(".*" + pattern, text)
  }

  /** Every character of s is matched by p. */
  predicate AllMatch1(p: char, s: string) {
    forall i :: 0 <= i < |s| ==> p == s[i] || p == '.'
  }

  /** `c*` followed by a pattern matches exactly when some run of characters matched by c,
      however long, is followed by text the pattern matches. */
  lemma MatchStarRuns(p: char, pattern: string, text: string)
    ensures MatchStar(p, pattern, text) <==>
      exists k :: 0 <= k <= |text| && AllMatch1(p, text[..k]) && Match(pattern, text[k..])
  {
    if MatchStar(p, pattern, text) {
      var k := StarRun(p, pattern, text);
    }
    if exists k :: 0 <= k <= |text| && AllMatch1(p, text[..k]) && Match(pattern, text[k..]) {
      var k :| 0 <= k <= |text| && AllMatch1(p, text[..k]) && Match(pattern, text[k..]);
      RunStar(p, pattern, text, k);
    }
  }

  /** The run a successful `match_star` consumed. */
  lemma {:induction false} StarRun(p: char, pattern: string, text: string) returns (k: nat)
    requires MatchStar(p, pattern, text)
    ensures k <= |text| && AllMatch1(p, text[..k]) && Match(pattern, text[k..])
    decreases |text|
  {
    if Match(pattern, text) {
      k := 0;
      assert text[0..] == text;
    } else {
      var tail := text[1..];
      var j := StarRun(p, pattern, tail);
      k := j + 1;
      assert text[k..] == tail[j..];
      var run := text[..k];
      forall i | 0 <= i < k ensures p == run[i] || p == '.' {
        if i > 0 {
          assert run[i] == tail[..j][i - 1];
        }
      }
    }
  }

  /** A run of characters matched by p, then text the pattern matches, satisfies `match_star`. */
  lemma {:induction false} RunStar(p: char, pattern: string, text: string, k: nat)
    requires k <= |text| && AllMatch1(p, text[..k]) && Match(pattern, text[k..])
    ensures MatchStar(p, pattern, text)
    decreases k
  {
    if k == 0 {
      assert text[0..] == text;
    } else {
      var tail := text[1..];
      assert text[..k][0] == text[0];
      assert tail[k - 1..] == text[k..];
      var run := tail[..k - 1];
      forall i | 0 <= i < k - 1 ensures p == run[i] || p == '.' {
        assert run[i] == text[..k][i + 1];
      }
      RunStar(p, pattern, tail, k - 1);
    }
  }

  /** A pattern with `^` matches only at the start; any other one matches when it matches at
      the start of some tail of the text, the empty tail included. */
  lemma SearchAnywhere(pattern: string, text: string)
    ensures |pattern| > 0 && pattern[0] == '^' ==> (Search(pattern, text) <==> Match(pattern[1..], text))
    ensures !(|pattern| > 0 && pattern[0] == '^') ==>
      (Search(pattern, text) <==> exists i :: 0 <= i <= |text| && Match(pattern, text[i..]))
  {
    if !(|pattern| > 0 && pattern[0] == '^') {
      var q := ".*" + pattern;
      assert q[1] == '*' && q[0] == '.' && q[2..] == pattern;
      MatchStarRuns('.', pattern, text);
      forall i | 0 <= i <= |text| ensures AllMatch1('.', text[..i]) {}
    }
  }

  /** A pattern with no `*`, `?` or `$` matches a text exactly when the text is at least as
      long and agrees with it wherever the pattern is not the wildcard. */
  predicate Plain(pattern: string) {
    forall i :: 0 <= i < |pattern| ==> pattern[i] !in "*?$"
  }

  predicate Agrees(pattern: string, text: string)
    requires |pattern| <= |text|
  {
    forall i :: 0 <= i < |pattern| ==> pattern[i] == text[i] || pattern[i] == '.'
  }

  lemma {:induction false} PlainMatch(pattern: string, text: string)
    requires Plain(pattern)
    ensures Match(pattern, text) <==> |pattern| <= |text| && Agrees(pattern, text)
    decreases |pattern|
  {
    if pattern != "" {
      assert pattern[0] !in "*?$";
      if |pattern| > 1 {
        assert pattern[1] !in "*?$";
      }
      PlainTail(pattern);
      PlainMatch(pattern[1..], Rest(text));
      if text != "" && |pattern| <= |text| {
        AgreesStep(pattern, text);
      }
    }
  }

  lemma PlainTail(pattern: string)
    requires Plain(pattern) && pattern != ""
    ensures Plain(pattern[1..])
  {
    forall i | 0 <= i < |pattern[1..]| ensures pattern[1..][i] !in "*?$" {
      assert pattern[1..][i] == pattern[i + 1];
    }
  }

  /** Agreement is agreement of the first characters and of the rest. */
  lemma AgreesStep(pattern: string, text: string)
    requires pattern != "" && |pattern| <= |text|
    ensures Agrees(pattern, text) <==> Match1(pattern[0], text) && Agrees(pattern[1..], text[1..])
  {
    if Match1(pattern[0], text) && Agrees(pattern[1..], text[1..]) {
      forall i | 0 <= i < |pattern| ensures pattern[i] == text[i] || pattern[i] == '.' {
        if i > 0 {
          assert pattern[1..][i - 1] == pattern[i] && text[1..][i - 1] == text[i];
        }
      }
    }
    if Agrees(pattern, text) {
      forall i | 0 <= i < |pattern[1..]| ensures pattern[1..][i] == text[1..][i] || pattern[1..][i] == '.' {
        assert pattern[1..][i] == pattern[i + 1] && text[1..][i] == text[i + 1];
      }
    }
  }

  /** With a final `$`, such a pattern matches only texts of exactly its own length. */
  lemma {:induction false} PlainMatchEnd(pattern: string, text: string)
    requires Plain(pattern)
    ensures Match(pattern + "$", text) <==> |pattern| == |text| && Agrees(pattern, text)
    decreases |pattern|
  {
    var q := pattern + "$";
    if pattern == "" {
      assert q == "$";
    } else {
      assert q[0] == pattern[0] && q[1..] == pattern[1..] + "$";
      assert pattern[0] !in "*?$";
      if |pattern| > 1 {
        assert q[1] == pattern[1] && pattern[1] !in "*?$";
      } else {
        assert q[1] == '$';
      }
      PlainTail(pattern);
      PlainMatchEnd(pattern[1..], Rest(text));
      if text != "" && |pattern| == |text| {
        AgreesStep(pattern, text);
      }
    }
  }

  /** `c?` either matches c and goes on after it, or skips it. */
  lemma MatchOptional(c: char, pattern: string, text: string)
    ensures Match([c, '?'] + pattern, text) <==>
      (text != "" && (c == text[0] || c == '.') && Match(pattern, text[1..])) || Match(pattern, text)
  {
    var q := [c, '?'] + pattern;
    assert q[0] == c && q[1] == '?' && q[2..] == pattern;
  }

  /** The four searches the lesson runs on "abc" all succeed. */
  lemma SearchStarExample()
    ensures Search("a*c", "abc")
  {
    SearchAnywhere("a*c", "abc");
    assert "abc"[2..] == "c";
    assert Match("c", "c") by {
      assert Match("", "");
    }
    assert Match("a*c", "c");
  }

  lemma SearchAnchoredExample()
    ensures Search("^a*", "abc")
  {
    assert "^a*"[1..] == "a*";
    assert Match("", "abc");
    assert Match("a*", "abc");
  }

  lemma SearchEndExample()
    ensures Search("c$", "abc")
  {
    SearchAnywhere("c$", "abc");
    assert "abc"[2..] == "c" && "c$"[1..] == "$";
    assert Match("c$", "c");
  }

  lemma SearchOptionalExample()
    ensures Search("abd?c", "abc")
  {
    SearchAnywhere("abd?c", "abc");
    assert "abc"[0..] == "abc";
    assert "abd?c"[1..] == "bd?c" && "bd?c"[1..] == "d?c" && "d?c"[2..] == "c";
    assert Match("c", "c") by {
      assert Match("", "");
    }
    assert Match("d?c", "c");
    assert Match("bd?c", "bc");
    assert Match("abd?c", "abc");
  }
}
