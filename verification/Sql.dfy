/** Pattern matching as the database does it. */
module Sql {

  function Lower(c: char): char {
    if 'A' <= c <= 'Z' then c - 'A' + 'a' else c
  }

  /** SQL's LIKE: `%` any text, `_` any one character, ASCII letters in either case. */
  predicate Like(s: string, pattern: string)
    decreases |pattern|, |s|
  {
    if pattern == [] then s == []
    else if pattern[0] == '%' then Like(s, pattern[1..]) || (s != [] && Like(s[1..], pattern))
    else s != [] && (pattern[0] == '_' || Lower(s[0]) == Lower(pattern[0])) && Like(s[1..], pattern[1..])
  }

  predicate Begins(s: string, prefix: string) {
    |prefix| <= |s| && forall i :: 0 <= i < |prefix| ==> Lower(s[i]) == Lower(prefix[i])
  }

  lemma {:induction false} AnyTail(s: string)
    ensures Like(s, "%")
  {
    assert "%"[1..] == "";
    if s != [] {
      AnyTail(s[1..]);
    }
  }

  /** Without wildcards of its own, a short form names the identifiers it begins, in either case. */
  lemma {:induction false} LikeIsPrefix(s: string, short: string)
    requires '%' !in short && '_' !in short
    ensures Like(s, short + "%") <==> Begins(s, short)
  {
    if short == [] {
      assert short + "%" == "%";
      AnyTail(s);
    } else if s != [] {
      assert (short + "%")[1..] == short[1..] + "%";
      LikeIsPrefix(s[1..], short[1..]);
      assert Begins(s, short) <==> Lower(s[0]) == Lower(short[0]) && Begins(s[1..], short[1..]) by {
        assert forall i :: 1 <= i < |short| && i < |s| ==> short[i] == short[1..][i - 1] && s[i] == s[1..][i - 1];
        assert forall i :: 0 <= i < |short| - 1 && i < |s| - 1 ==> short[1..][i] == short[i + 1] && s[1..][i] == s[i + 1];
      }
    }
  }

  /** Without `%` a pattern matches the texts of its length, character by character. */
  lemma {:induction false} LikeByCharacter(s: string, pattern: string)
    requires '%' !in pattern
    ensures Like(s, pattern) <==>
              |s| == |pattern| && forall i :: 0 <= i < |s| ==> pattern[i] == '_' || Lower(s[i]) == Lower(pattern[i])
    decreases |pattern|
  {
    if pattern != "" && s != "" {
      LikeByCharacter(s[1..], pattern[1..]);
      assert forall i :: 1 <= i < |s| ==> s[i] == s[1..][i - 1];
      assert forall i :: 1 <= i < |pattern| ==> pattern[i] == pattern[1..][i - 1];
    }
  }

  /** Some beginning of the text matches the pattern. */
  predicate Opens(s: string, pattern: string) {
    exists k :: 0 <= k <= |s| && Like(s[..k], pattern)
  }

  lemma {:induction false} TailSteps(s: string, pattern: string)
    requires s != ""
    ensures Opens(s[1..], pattern) ==> exists k :: 0 < k <= |s| && Like(s[..k][1..], pattern)
    ensures (exists k :: 0 < k <= |s| && Like(s[..k][1..], pattern)) ==> Opens(s[1..], pattern)
  {
    if Opens(s[1..], pattern) {
      var k :| 0 <= k <= |s[1..]| && Like(s[1..][..k], pattern);
      assert s[..k + 1][1..] == s[1..][..k];
    }
    if k :| 0 < k <= |s| && Like(s[..k][1..], pattern) {
      assert s[..k][1..] == s[1..][..k - 1];
    }
  }

  /** A pattern with any tail matches exactly the texts that have a beginning matching the pattern. */
  lemma {:induction false} LikeOpens(s: string, pattern: string)
    ensures Like(s, pattern + "%") <==> Opens(s, pattern)
    decreases |pattern|, |s|
  {
    if pattern == "" {
      assert pattern + "%" == "%";
      AnyTail(s);
      assert s[..0] == "" && Like(s[..0], pattern);
    } else {
      var rest := pattern[1..];
      assert (pattern + "%")[1..] == rest + "%";
      if pattern[0] == '%' {
        LikeOpens(s, rest);
        if s != "" {
          LikeOpens(s[1..], pattern);
          TailSteps(s, pattern);
        }
        ManySteps(s, pattern);
      } else if s != "" {
        LikeOpens(s[1..], rest);
        TailSteps(s, rest);
        OneStepPrefixes(s, pattern);
      } else {
        assert s[..0] == "";
      }
    }
  }

  lemma ManySteps(s: string, pattern: string)
    requires pattern != "" && pattern[0] == '%'
    ensures Opens(s, pattern) <==> Opens(s, pattern[1..]) || exists k :: 0 < k <= |s| && Like(s[..k][1..], pattern)
  {
    var rest := pattern[1..];
    assert forall k :: 0 <= k <= |s| ==>
        (Like(s[..k], pattern) <==> Like(s[..k], rest) || (k > 0 && Like(s[..k][1..], pattern)));
    hide Like;
    if Opens(s, pattern) {
      var k :| 0 <= k <= |s| && Like(s[..k], pattern);
    }
    if Opens(s, rest) {
      var k :| 0 <= k <= |s| && Like(s[..k], rest);
      assert Like(s[..k], pattern);
    }
    if k :| 0 < k <= |s| && Like(s[..k][1..], pattern) {
      assert Like(s[..k], pattern);
    }
  }

  lemma OneStepPrefixes(s: string, pattern: string)
    requires s != "" && pattern != "" && pattern[0] != '%'
    ensures Opens(s, pattern) <==>
              (pattern[0] == '_' || Lower(s[0]) == Lower(pattern[0])) && exists k :: 0 < k <= |s| && Like(s[..k][1..], pattern[1..])
  {
    assert forall k :: 0 <= k <= |s| ==>
        (Like(s[..k], pattern) <==> k > 0 && (pattern[0] == '_' || Lower(s[0]) == Lower(pattern[0])) && Like(s[..k][1..], pattern[1..]));
    hide Like;
    if k :| 0 < k <= |s| && Like(s[..k][1..], pattern[1..]) {
      assert Like(s[..k], pattern) <==> pattern[0] == '_' || Lower(s[0]) == Lower(pattern[0]);
    }
  }
}
