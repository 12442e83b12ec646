/** When word splitting leaves the kept part of a label as extraction alone would give it. */
module LabelSplitting {
  import opened ShellLabels
  import opened LabelSafety

  /**
   Before the first expansion no `$` or backquote is escaped, and an escaped backslash is
   followed by the end of the label or by an ordinary character.
   */
  predicate KeepsPrefix(literal: string)
    decreases |literal|
  {
    if |literal| <= 1 || Expands(literal[0]) then true
    else if literal[0] != '\\' || !Escapable(literal[1]) then KeepsPrefix(literal[1..])
    else if literal[1] == '"' then KeepsPrefix(literal[2..])
    else if literal[1] == '\\' then |literal| == 2 || (!Escapable(literal[2]) && KeepsPrefix(literal[2..]))
    else false
  }

  /** A run of backslashes left by splitting is halved, unless it is one before an ordinary character. */
  lemma RunIsHalved(m: nat, t: string, p: string)
    requires m > 0 && (t == "" || t[0] != '\\')
    ensures if m == 1 && (t == "" || !Escapable(t[0])) then Prefix(Slashes(m) + t) == Slashes(m) + Prefix(t)
            else Prefix(Slashes(m) + t) != Slashes(m) + p
  {
    PrefixOfSlashes(m, t);
    var left := Prefix(Slashes(m) + t);
    if m == 1 && (t == "" || !Escapable(t[0])) {
    } else {
      PrefixHead(t);
      var k := if m % 2 == 0 || (t != "" && Escapable(t[0])) then m / 2 else m / 2 + 1;
      assert k < m && (Slashes(m) + p)[k] == '\\';
      assert |left| > k ==> left[k] != '\\';
    }
  }

  lemma PrefixHead(t: string)
    requires t == "" || t[0] != '\\'
    ensures Prefix(t) != "" ==> Prefix(t)[0] != '\\'
  {
  }

  /** A run of escaped backslashes as splitting and as extraction leaves it. */
  lemma {:induction false} EscapedRunParts(literal: string)
    ensures var run := EscapedRun(literal);
            var rest := literal[2 * run..];
            && Unescape(literal) == Slashes(run) + Unescape(rest)
            && Prefix(literal) == Slashes(run) + Prefix(rest)
            && EscapedRun(rest) == 0
  {
    var run := EscapedRun(literal);
    if run == 0 {
      assert literal[0..] == literal;
    } else {
      EscapedRunParts(literal[2..]);
      var rest := literal[2 * run..];
      assert literal[2..][2 * (run - 1)..] == rest;
      SlashFirst(run - 1, Unescape(rest));
      SlashFirst(run - 1, Prefix(rest));
    }
  }

  /** After an escaped backslash, all depends on the next character. */
  lemma AfterEscapedBackslash(literal: string)
    requires |literal| > 1 && literal[0] == '\\' && literal[1] == '\\'
    ensures var rest := literal[2..];
            Prefix(Unescape(literal)) == Prefix(literal) <==>
              rest == "" || (!Escapable(rest[0]) && Prefix(Unescape(rest)) == Prefix(rest))
  {
    var run := EscapedRun(literal);
    var rest := literal[2 * run..];
    EscapedRunParts(literal);
    if rest != "" && rest[0] == '\\' && (|rest| == 1 || !Escapable(rest[1])) {
      var t := Unescape(rest)[1..];
      StayingBackslash(rest);
      SlashLast(run, Unescape(rest));
      SlashLast(run, Prefix(rest));
      RunIsHalved(run + 1, t, Prefix(rest)[1..]);
      assert literal[2] == '\\';
    } else {
      AfterRunShape(rest);
      if rest != "" {
        UnescapeHead(rest);
      }
      RunIsHalved(run, Unescape(rest), Prefix(rest));
      if run > 1 {
        assert literal[2] == '\\';
      } else {
        OneSlash(Prefix(Unescape(rest)), Prefix(rest));
      }
    }
  }

  lemma StayingBackslash(rest: string)
    requires rest != "" && rest[0] == '\\' && (|rest| == 1 || !Escapable(rest[1]))
    ensures Unescape(rest) != "" && Unescape(rest)[0] == '\\'
    ensures Unescape(rest)[1..] != "" ==> Unescape(rest)[1] != '\\'
    ensures Prefix(rest) != "" && Prefix(rest)[0] == '\\'
  {
  }

  lemma OneSlash(p: string, q: string)
    ensures Slashes(1) + p == Slashes(1) + q <==> p == q
  {
    assert (Slashes(1) + p)[1..] == p && (Slashes(1) + q)[1..] == q;
  }

  lemma SameHead(c: char, p: string, q: string)
    ensures [c] + p == [c] + q <==> p == q
  {
    assert ([c] + p)[1..] == p && ([c] + q)[1..] == q;
  }

  /**
   Splitting a label first changes nothing in what extraction keeps if and only if every
   backslash in it is of that kind.
   */
  lemma {:induction false} KeepsPrefixExactly(literal: string)
    ensures Prefix(Unescape(literal)) == Prefix(literal) <==> KeepsPrefix(literal)
    decreases |literal|
  {
    if |literal| <= 1 || Expands(literal[0]) {
      ShortOrExpanding(literal);
    } else if literal[0] != '\\' || !Escapable(literal[1]) {
      KeepsPrefixExactly(literal[1..]);
      hide Unescape, Prefix;
      PlainUnescape(literal);
      PlainPrefix(literal[0], Unescape(literal[1..]));
      PlainPrefix(literal[0], literal[1..]);
      assert literal == [literal[0]] + literal[1..];
      SameHead(literal[0], Prefix(Unescape(literal[1..])), Prefix(literal[1..]));
    } else if literal[1] == '\\' {
      AfterEscapedBackslash(literal);
      KeepsPrefixExactly(literal[2..]);
    } else {
      KeepsPrefixExactly(literal[2..]);
      EscapedPair(literal);
    }
  }

  lemma ShortOrExpanding(literal: string)
    requires |literal| <= 1 || Expands(literal[0])
    ensures Prefix(Unescape(literal)) == Prefix(literal)
  {
  }

  lemma EscapedPair(literal: string)
    requires |literal| > 1 && literal[0] == '\\' && Escapable(literal[1]) && literal[1] != '\\'
    ensures Prefix(Unescape(literal)) == Prefix(literal) <==>
              literal[1] == '"' && Prefix(Unescape(literal[2..])) == Prefix(literal[2..])
  {
    var u := Unescape(literal[2..]);
    assert Unescape(literal) == [literal[1]] + u && ([literal[1]] + u)[1..] == u;
    SameHead(literal[1], Prefix(u), Prefix(literal[2..]));
  }

  // ----- without escaped backslashes -----------------------------------------------------------

  /** A `$` or backquote is escaped before the first one that is not. */
  predicate EscapesDollarFirst(literal: string) {
    |literal| > 1 && !Expands(literal[0]) &&
    if literal[0] == '\\' && Escapable(literal[1]) then Expands(literal[1]) || EscapesDollarFirst(literal[2..])
    else EscapesDollarFirst(literal[1..])
  }

  /**
   On a label without an escaped backslash, extraction after splitting keeps what extraction
   alone keeps if and only if no `$` or backquote is escaped before the first expansion.
   */
  lemma EscapedDollarExactly(literal: string)
    requires Quotable(literal) && !HasEscapedBackslash(literal)
    ensures Prefix(Unescape(literal)) == Prefix(literal) <==> !EscapesDollarFirst(literal)
  {
    KeepsPrefixExactly(literal);
    NoEscapedBackslashKeeps(literal);
  }

  lemma {:induction false} NoEscapedBackslashKeeps(literal: string)
    requires Quotable(literal) && !HasEscapedBackslash(literal)
    ensures KeepsPrefix(literal) <==> !EscapesDollarFirst(literal)
    decreases |literal|
  {
    if |literal| > 1 && !Expands(literal[0]) {
      if literal[0] != '\\' {
        NoEscapedBackslashKeeps(literal[1..]);
      } else {
        NoEscapedBackslashKeeps(literal[2..]);
        if !Escapable(literal[1]) && |literal| > 2 {
          assert literal[1..][1..] == literal[2..];
        }
      }
    }
  }
}
