/**
 What becomes of a label on its way through word splitting and prefix extraction: when the
 identity that is kept is still the beginning of the label the shell will print.
 */
module LabelSafety {
  import opened ShellLabels

  // ----- from a call's text to its label words ---------------------------------

  /** The text can stand between double quotes: every quote in it is escaped. */
  predicate Quotable(literal: string) {
    if literal == "" then true
    else if literal[0] == '\\' then |literal| > 1 && Quotable(literal[2..])
    else literal[0] != '"' && Quotable(literal[1..])
  }

  /** What word splitting keeps of a double-quoted literal. */
  function Unescape(literal: string): string {
    if literal == "" then ""
    else if literal[0] == '\\' && |literal| > 1 then Kept(literal[1]) + Unescape(literal[2..])
    else [literal[0]] + Unescape(literal[1..])
  }

  /** The arguments of a call, each in double quotes and after one blank. */
  function Quote(literal: string): string {
    "\"" + literal + "\""
  }

  function Render(literals: seq<string>): string {
    if literals == [] then "" else " " + Quote(literals[0]) + Render(literals[1..])
  }

  /** The text after the arguments starts a new word or ends the command. */
  predicate Boundary(tail: string) {
    tail == "" || Blank(tail[0]) || CommandEnds(tail)
  }

  lemma {:induction false} BodyOfLiteral(literal: string, tail: string)
    requires Quotable(literal)
    ensures DoubleBody(literal + "\"" + tail) == (Unescape(literal), tail)
  {
    hide DoubleBody, Unescape;
    if literal == "" {
      QuoteCloses(tail);
      assert "" + "\"" + tail == "\"" + tail;
    } else if literal[0] == '\\' {
      var rest := literal[2..];
      assert literal == ['\\', literal[1]] + rest;
      BodyOfLiteral(rest, tail);
      PairRead(literal[1], rest, rest + "\"" + tail);
      assert literal + "\"" + tail == ['\\', literal[1]] + (rest + "\"" + tail);
    } else {
      var rest := literal[1..];
      assert literal == [literal[0]] + rest;
      BodyOfLiteral(rest, tail);
      PlainRead(literal[0], rest, rest + "\"" + tail);
      assert literal + "\"" + tail == [literal[0]] + (rest + "\"" + tail);
    }
  }

  lemma QuoteCloses(tail: string)
    ensures DoubleBody("\"" + tail) == ("", tail) && Unescape("") == ""
  {
  }

  lemma PairRead(c: char, rest: string, s: string)
    ensures DoubleBody(['\\', c] + s) == (Kept(c) + DoubleBody(s).0, DoubleBody(s).1)
    ensures Unescape(['\\', c] + rest) == Kept(c) + Unescape(rest)
  {
    assert (['\\', c] + s)[2..] == s && (['\\', c] + rest)[2..] == rest;
  }

  lemma PlainRead(c: char, rest: string, s: string)
    requires c != '\\' && c != '"'
    ensures DoubleBody([c] + s) == ([c] + DoubleBody(s).0, DoubleBody(s).1)
    ensures Unescape([c] + rest) == [c] + Unescape(rest)
  {
    assert ([c] + s)[1..] == s && ([c] + rest)[1..] == rest;
  }

  lemma {:induction false} WordOfLiteral(literal: string, tail: string)
    requires Quotable(literal) && Boundary(tail)
    ensures WordBody(Quote(literal) + tail, 0) == (Unescape(literal), tail)
  {
    var s := Quote(literal) + tail;
    assert s[1..] == literal + "\"" + tail;
    BodyOfLiteral(literal, tail);
    assert WordBody(tail, 0) == ("", tail);
    assert Unescape(literal) + "" == Unescape(literal);
  }

  function LabelWords(literals: seq<string>): seq<Word> {
    if literals == [] then [] else [Word(DoubleQuoted, Unescape(literals[0]))] + LabelWords(literals[1..])
  }

  lemma FirstWord(literal: string, rest: string)
    requires Quotable(literal) && Boundary(rest)
    ensures Words(" " + Quote(literal) + rest) == [Word(DoubleQuoted, Unescape(literal))] + Words(rest)
  {
    var s := " " + Quote(literal) + rest;
    var q := Quote(literal) + rest;
    assert s[1..] == q && q[0] == '"';
    assert SkipBlanks(s) == q;
    WordOfLiteral(literal, rest);
  }

  lemma RenderedBoundary(literals: seq<string>, tail: string)
    requires Boundary(tail)
    ensures Boundary(Render(literals) + tail)
  {
    if literals == [] {
      assert Render(literals) + tail == tail;
    }
  }

  lemma RenderStep(literals: seq<string>, tail: string)
    requires literals != []
    ensures Render(literals) + tail == " " + Quote(literals[0]) + (Render(literals[1..]) + tail)
    ensures LabelWords(literals) == [Word(DoubleQuoted, Unescape(literals[0]))] + LabelWords(literals[1..])
  {
    hide Unescape, Quote;
  }

  /** Splitting the written arguments gives them back, in order, followed by the words after them. */
  lemma {:induction false} SplitOfRendered(literals: seq<string>, tail: string)
    requires forall k :: 0 <= k < |literals| ==> Quotable(literals[k])
    requires Boundary(tail)
    ensures Words(Render(literals) + tail) == LabelWords(literals) + Words(tail)
  {
    hide Words, Quotable, Unescape, Boundary, Quote;
    if literals == [] {
      assert Render(literals) + tail == tail;
    } else {
      RenderedBoundary(literals[1..], tail);
      RenderStep(literals, tail);
      SplitOfRendered(literals[1..], tail);
      hide Render, LabelWords;
      FirstWord(literals[0], Render(literals[1..]) + tail);
    }
  }

  function Closings(s: string): nat {
    if s == "" then 0 else (if s[0] == ')' then 1 else 0) + Closings(s[1..])
  }

  lemma {:induction false} ClosingsAfterQuote(s: string)
    ensures Closings(DoubleBody(s).1) <= Closings(s) && Closings(SingleBody(s).1) <= Closings(s)
  {
    if s != "" {
      ClosingsAfterQuote(s[1..]);
      if s[0] == '\\' && |s| > 1 {
        ClosingsAfterQuote(s[2..]);
        assert s[1..][1..] == s[2..];
      }
    }
  }

  /** A word with more parentheses open than can still close takes all the text there is. */
  lemma {:induction false} DeepWordTakesAll(s: string, depth: nat)
    requires Closings(s) < depth
    ensures WordBody(s, depth).1 == ""
    decreases |s|
  {
    if s != "" {
      ClosingsAfterQuote(s[1..]);
      if s[0] == '"' {
        DeepWordTakesAll(DoubleBody(s[1..]).1, depth);
      } else if s[0] == '\'' {
        DeepWordTakesAll(SingleBody(s[1..]).1, depth);
      } else {
        DeepWordTakesAll(s[1..], NextDepth(s, depth));
      }
    }
  }

  /**
   The opening of a command substitution counts twice, so one closing parenthesis does not
   end it: a label written after an unquoted `$(…)` argument is never a word of its own.
   */
  lemma SubstitutionSwallowsLabel(rest: string)
    requires Closings(rest) <= 1
    ensures |Words("$(" + rest)| == 1 && Words("$(" + rest)[0].kind == Bare
  {
    var s := "$(" + rest;
    assert s[1..] == "(" + rest && s[1..][1..] == rest;
    assert NextDepth(s, 0) == 1 && NextDepth(s[1..], 1) == 2;
    DeepWordTakesAll(rest, 2);
    assert WordBody(s, 0).1 == WordBody(s[1..], 1).1 == WordBody(rest, 2).1 == "";
    assert SkipBlanks(s) == s && !CommandEnds(s);
    assert Words("") == [];
  }

  // ----- word splitting followed by prefix extraction ----------------------------

  function Slashes(n: nat): string {
    seq(n, _ => '\\')
  }

  /** How many escaped backslashes the literal begins with. */
  function EscapedRun(literal: string): (n: nat)
    ensures 2 * n <= |literal|
  {
    if |literal| > 1 && literal[0] == '\\' && literal[1] == '\\' then 1 + EscapedRun(literal[2..]) else 0
  }

  /** The first thing in the literal is a `$` or backquote, escaped or not. */
  predicate AtDollar(literal: string) {
    literal != "" && (Expands(literal[0]) || (literal[0] == '\\' && |literal| > 1 && Expands(literal[1])))
  }

  /**
   The literals for which splitting and extraction keep the start of the printed label:
   a run of escaped backslashes must stand at the end, or be of even length just before a
   `$` or backquote, or be a single one before an ordinary character; nothing after the
   first `$` or backquote outside such a run matters.
   */
  predicate SafeEscapes(literal: string)
    decreases |literal|
  {
    var run := EscapedRun(literal);
    var rest := literal[2 * run..];
    if |literal| == 0 || (|literal| == 1 && literal[0] == '\\') then true
    else if run > 0 then
      if |rest| == 0 || (|rest| == 1 && rest[0] == '\\') then true
      else if AtDollar(rest) then run % 2 == 0
      else run == 1 && rest[0] != '\\' && rest[0] != '"' && SafeEscapes(rest)
    else if AtDollar(literal) then true
    else if literal[0] == '\\' && Escapable(literal[1]) then SafeEscapes(literal[2..])
    else SafeEscapes(literal[1..])
  }

  lemma SlashFirst(n: nat, x: string)
    ensures ['\\'] + (Slashes(n) + x) == Slashes(n + 1) + x
  {
  }

  lemma SlashLast(n: nat, x: string)
    requires x != "" && x[0] == '\\'
    ensures Slashes(n) + x == Slashes(n + 1) + x[1..]
  {
  }

  lemma {:induction false} PrefixOfSlashPairs(pairs: nat, t: string)
    ensures Prefix(Slashes(2 * pairs) + t) == Slashes(pairs) + Prefix(t)
  {
    var s := Slashes(2 * pairs) + t;
    if pairs == 0 {
      assert s == t;
    } else {
      assert s[2..] == Slashes(2 * (pairs - 1)) + t;
      PrefixOfSlashPairs(pairs - 1, t);
      SlashFirst(pairs - 1, Prefix(t));
    }
  }

  lemma PrefixOfSlashes(m: nat, t: string)
    requires t == "" || t[0] != '\\'
    ensures var p := Prefix(Slashes(m) + t);
            if m % 2 == 0 then p == Slashes(m / 2) + Prefix(t)
            else if t != "" && Escapable(t[0]) then p == Slashes(m / 2) + ([t[0]] + Prefix(t[1..]))
            else p == Slashes(m / 2 + 1) + Prefix(t)
  {
    if m % 2 == 0 {
      PrefixOfSlashPairs(m / 2, t);
    } else {
      var u := ['\\'] + t;
      assert Slashes(m) + t == Slashes(2 * (m / 2)) + u;
      PrefixOfSlashPairs(m / 2, u);
      assert u[1..] == t && (t != "" ==> u[2..] == t[1..]);
      SlashLast(m / 2, ['\\'] + Prefix(t));
      assert (['\\'] + Prefix(t))[1..] == Prefix(t);
    }
  }

  lemma SlashesBefore(a: nat, b: nat, p: string, x: string)
    requires p == "" || p[0] != '\\'
    ensures a == b ==> (Slashes(a) + p <= Slashes(b) + x <==> p <= x)
    ensures a < b ==> (Slashes(a) + p <= Slashes(b) + x <==> p == "")
  {
    var l, r := Slashes(a) + p, Slashes(b) + x;
    if a == b {
      assert l[a..] == p && r[a..] == x;
      if l <= r {
        assert r[..|l|][a..] == x[..|p|];
      }
      if p <= x {
        assert r[..|l|] == l;
      }
    } else if a < b {
      if p == "" {
        assert l == Slashes(a) == r[..a];
      } else {
        assert l[a] == p[0] && r[a] == '\\';
      }
    }
  }

  /** A run of backslashes decides, or hands the question on to what follows it. */
  lemma RunVerdict(m: nat, t: string, x: string)
    requires m > 0 && (t == "" || t[0] != '\\')
    ensures Prefix(Slashes(m) + t) <= Slashes(m) + x <==>
            || t == ""
            || (Expands(t[0]) && m % 2 == 0)
            || (m == 1 && !Escapable(t[0]) && Prefix(t) <= x)
  {
    PrefixOfSlashes(m, t);
    if t == "" || m % 2 == 0 || !Escapable(t[0]) {
      SlashesBefore(if m % 2 == 0 then m / 2 else m / 2 + 1, m, Prefix(t), x);
    } else {
      SlashesBefore(m / 2, m, [t[0]] + Prefix(t[1..]), x);
    }
  }

  lemma {:induction false} RunParts(literal: string, env: Environment)
    requires '\n' !in literal
    ensures var run := EscapedRun(literal);
            var rest := literal[2 * run..];
            && Unescape(literal) == Slashes(run) + Unescape(rest)
            && Expand(literal, env) == Slashes(run) + Expand(rest, env)
            && EscapedRun(rest) == 0
  {
    var run := EscapedRun(literal);
    if run == 0 {
      assert literal[0..] == literal;
      assert Slashes(0) == "";
    } else {
      RunParts(literal[2..], env);
      PairParts(literal, env);
      hide Unescape, Expand, EscapedRun, Slashes;
      var rest := literal[2 * run..];
      assert literal[2..][2 * (run - 1)..] == rest;
      SlashFirst(run - 1, Unescape(rest));
      SlashFirst(run - 1, Expand(rest, env));
    }
  }

  lemma PairParts(literal: string, env: Environment)
    requires '\n' !in literal && EscapedRun(literal) > 0
    ensures EscapedRun(literal) == EscapedRun(literal[2..]) + 1
    ensures Unescape(literal) == "\\" + Unescape(literal[2..]) && Expand(literal, env) == "\\" + Expand(literal[2..], env)
  {
  }

  lemma KeptBackslash(rest: string, env: Environment)
    requires '\n' !in rest && rest != "" && rest[0] == '\\' && (|rest| == 1 || !Escapable(rest[1]))
    ensures var u, e := Unescape(rest), Expand(rest, env);
            && u != "" && e != "" && u[0] == '\\' && e[0] == '\\'
            && (|rest| == 1 ==> u[1..] == "")
            && (|rest| > 1 ==> u[1..] != "" && u[1] == rest[1])
  {
    if |rest| > 1 {
      assert rest[1] in rest;
    }
  }

  /** A backslash that stays joins the run before it. */
  lemma KeptBackslashJoinsRun(run: nat, rest: string, env: Environment)
    requires run > 0 && '\n' !in rest && rest != "" && rest[0] == '\\' && (|rest| == 1 || !Escapable(rest[1]))
    ensures Prefix(Slashes(run) + Unescape(rest)) <= Slashes(run) + Expand(rest, env) <==> |rest| == 1
  {
    KeptBackslash(rest, env);
    hide Unescape, Expand, Prefix, Slashes;
    SlashLast(run, Unescape(rest));
    SlashLast(run, Expand(rest, env));
    RunVerdict(run + 1, Unescape(rest)[1..], Expand(rest, env)[1..]);
  }

  /** The first character kept of a literal that does not begin with a backslash that stays. */
  lemma UnescapeHead(rest: string)
    requires rest != "" && (rest[0] == '\\' ==> |rest| > 1 && Escapable(rest[1]))
    ensures Unescape(rest) != "" && Unescape(rest)[0] == if rest[0] == '\\' then rest[1] else rest[0]
  {
  }

  lemma AfterRunHead(run: nat, rest: string, u: string, e: string)
    requires run > 0 && rest != "" && (rest[0] == '\\' ==> |rest| > 1 && Escapable(rest[1]) && rest[1] != '\\')
    requires u != "" && u[0] == if rest[0] == '\\' then rest[1] else rest[0]
    ensures Prefix(Slashes(run) + u) <= Slashes(run) + e <==>
            if AtDollar(rest) then run % 2 == 0
            else run == 1 && rest[0] != '\\' && rest[0] != '"' && Prefix(u) <= e
  {
    hide Prefix, Slashes;
    RunVerdict(run, u, e);
  }

  lemma AfterRunShape(rest: string)
    requires EscapedRun(rest) == 0
    ensures |rest| > 1 && rest[0] == '\\' ==> rest[1] != '\\'
    ensures rest == "" ==> Unescape(rest) == ""
  {
  }

  lemma AfterRun(run: nat, rest: string, env: Environment)
    requires run > 0 && '\n' !in rest && EscapedRun(rest) == 0
    ensures Prefix(Slashes(run) + Unescape(rest)) <= Slashes(run) + Expand(rest, env) <==>
            if |rest| == 0 || (|rest| == 1 && rest[0] == '\\') then true
            else if AtDollar(rest) then run % 2 == 0
            else run == 1 && rest[0] != '\\' && rest[0] != '"' && Prefix(Unescape(rest)) <= Expand(rest, env)
  {
    hide Unescape, Expand, Prefix, Slashes, EscapedRun;
    AfterRunShape(rest);
    if rest == "" {
      RunVerdict(run, Unescape(rest), Expand(rest, env));
    } else if rest[0] == '\\' && (|rest| == 1 || !Escapable(rest[1])) {
      KeptBackslashJoinsRun(run, rest, env);
    } else {
      UnescapeHead(rest);
      AfterRunHead(run, rest, Unescape(rest), Expand(rest, env));
    }
  }

  lemma SameFirst(c: char, p: string, x: string)
    ensures [c] + p <= [c] + x <==> p <= x
  {
    var l, r := [c] + p, [c] + x;
    assert l[1..] == p && r[1..] == x;
    if l <= r {
      assert r[..|l|][1..] == x[..|p|];
    }
    if p <= x {
      assert r[..|l|] == l;
    }
  }

  /** An escaped quote is passed on without its backslash by the shell and by splitting alike. */
  lemma EscapedQuoteStep(literal: string, env: Environment)
    requires |literal| > 1 && literal[0] == '\\' && literal[1] == '"'
    ensures Prefix(Unescape(literal)) <= Expand(literal, env) <==>
            Prefix(Unescape(literal[2..])) <= Expand(literal[2..], env)
  {
    var u := Unescape(literal[2..]);
    assert Unescape(literal) == ['"'] + u && (['"'] + u)[1..] == u;
    SameFirst('"', Prefix(u), Expand(literal[2..], env));
  }

  /** Splitting keeps an ordinary character, or a backslash that stays. */
  lemma PlainUnescape(literal: string)
    requires literal != "" && (literal[0] == '\\' ==> |literal| > 1 && !Escapable(literal[1]))
    ensures Unescape(literal) == [literal[0]] + Unescape(literal[1..])
    ensures literal[0] == '\\' ==> Unescape(literal[1..]) != "" && Unescape(literal[1..])[0] == literal[1]
  {
    if literal[0] == '\\' {
      var rest := literal[1..];
      assert rest[0] == literal[1] && rest[1..] == literal[2..];
      assert Unescape(rest) == [rest[0]] + Unescape(literal[2..]);
    }
  }

  /** So does extraction. */
  lemma PlainPrefix(c: char, u: string)
    requires !Expands(c) && (c == '\\' ==> u == "" || !Escapable(u[0]))
    ensures Prefix([c] + u) == [c] + Prefix(u)
  {
    assert ([c] + u)[1..] == u;
  }

  /** So does the shell. */
  lemma PlainExpand(literal: string, env: Environment)
    requires literal != "" && '\n' !in literal && !Expands(literal[0])
    requires literal[0] == '\\' ==> |literal| > 1 && !Escapable(literal[1])
    ensures Expand(literal, env) == [literal[0]] + Expand(literal[1..], env)
  {
    assert |literal| > 1 ==> literal[1] in literal;
  }

  /** An ordinary character, or a backslash that stays, is passed on as it is. */
  lemma PlainStep(literal: string, env: Environment)
    requires literal != "" && '\n' !in literal && !Expands(literal[0])
    requires literal[0] == '\\' ==> |literal| > 1 && !Escapable(literal[1])
    ensures Prefix(Unescape(literal)) <= Expand(literal, env) <==>
            Prefix(Unescape(literal[1..])) <= Expand(literal[1..], env)
  {
    hide Prefix, Unescape, Expand;
    PlainUnescape(literal);
    PlainPrefix(literal[0], Unescape(literal[1..]));
    PlainExpand(literal, env);
    SameFirst(literal[0], Prefix(Unescape(literal[1..])), Expand(literal[1..], env));
  }

  /**
   On a one-line label the identity kept after splitting begins the printed label exactly
   for the literals above, and then in every environment.
   */
  lemma {:induction false} SplitPrefixIsExact(literal: string, env: Environment)
    requires '\n' !in literal
    ensures Prefix(Unescape(literal)) <= Expand(literal, env) <==> SafeEscapes(literal)
    decreases |literal|
  {
    var run := EscapedRun(literal);
    var rest := literal[2 * run..];
    if |literal| == 0 || (|literal| == 1 && literal[0] == '\\') {
    } else if run > 0 {
      RunParts(literal, env);
      AfterRun(run, rest, env);
      SplitPrefixIsExact(rest, env);
    } else if AtDollar(literal) {
      if literal[0] == '\\' {
        assert Unescape(literal)[0] == literal[1];
      }
    } else if literal[0] == '\\' && Escapable(literal[1]) {
      EscapedQuoteStep(literal, env);
      SplitPrefixIsExact(literal[2..], env);
    } else {
      PlainStep(literal, env);
      SplitPrefixIsExact(literal[1..], env);
    }
  }

  /** Without an escaped backslash every label keeps its identity. */
  lemma {:induction false} NoEscapedBackslashIsSafe(literal: string)
    requires Quotable(literal) && !HasEscapedBackslash(literal)
    ensures SafeEscapes(literal)
    decreases |literal|
  {
    if literal != "" && !AtDollar(literal) {
      if literal[0] == '\\' && Escapable(literal[1]) {
        NoEscapedBackslashIsSafe(literal[2..]);
      } else if literal[0] == '\\' {
        NoEscapedBackslashIsSafe(literal[2..]);
        assert literal[1..][1..] == literal[2..];
        assert EscapedRun(literal[1..]) == 0;
        assert literal[1..] != "\\" ==> literal[1..][0] != '\\';
      } else {
        NoEscapedBackslashIsSafe(literal[1..]);
      }
    }
  }

  predicate HasEscapedBackslash(literal: string) {
    |literal| > 1 &&
    if literal[0] == '\\' then literal[1] == '\\' || HasEscapedBackslash(literal[2..])
    else HasEscapedBackslash(literal[1..])
  }

  /**
   An escaped dollar does not survive splitting: the identity stops before it, although the
   printed label has it and extraction alone would have kept it.
   */
  lemma {:induction false} EscapedDollarIsCut(before: string, after: string)
    requires forall k :: 0 <= k < |before| ==> !Escapable(before[k])
    ensures Prefix(before + "\\$" + after) == before + "$" + Prefix(after)
    ensures Prefix(Unescape(before + "\\$" + after)) == before
  {
    hide Prefix, Unescape;
    var s := before + "\\$" + after;
    if before == "" {
      DollarIsCut(after);
      assert s == "\\$" + after && before + "$" + Prefix(after) == "$" + Prefix(after);
    } else {
      EscapedDollarIsCut(before[1..], after);
      assert s == [before[0]] + s[1..] && s[1..] == before[1..] + "\\$" + after;
      PlainUnescape(s);
      PlainPrefix(before[0], s[1..]);
      PlainPrefix(before[0], Unescape(s[1..]));
    }
  }

  lemma DollarIsCut(after: string)
    ensures Prefix("\\$" + after) == "$" + Prefix(after)
    ensures Prefix(Unescape("\\$" + after)) == ""
  {
    var s := "\\$" + after;
    assert s[2..] == after;
    assert Unescape(s)[0] == '$';
  }
}
