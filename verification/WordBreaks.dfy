/** Which characters break a line into words, end a command, are escaped, or begin an expansion: all of them, one by one. */
module WordBreaks {
  import opened ShellLabels
  import opened LabelSafety

  lemma Letter(c: char, rest: string)
    requires c == 'a' || c == 'b'
    ensures Words([c] + rest) == [Word(Bare, [c] + WordBody(rest, 0).0)] + Words(WordBody(rest, 0).1)
  {
    var s := [c] + rest;
    assert s[0] == c && s[1..] == rest && SkipBlanks(s) == s && !CommandEnds(s) && NextDepth(s, 0) == 0;
    LetterBody(c, rest);
    hide WordBody;
    WordBodyAdvances(s);
  }

  lemma LetterBody(c: char, rest: string)
    requires c == 'a' || c == 'b'
    ensures WordBody([c] + rest, 0) == ([c] + WordBody(rest, 0).0, WordBody(rest, 0).1)
  {
    assert ([c] + rest)[1..] == rest;
  }

  lemma LastLetter(c: char)
    requires c == 'a' || c == 'b'
    ensures Words([c]) == [Word(Bare, [c])] && WordBody([c], 0) == ([c], "")
  {
    assert [c] + "" == [c] && [c][1..] == "";
    Letter(c, "");
    assert [Word(Bare, [c])] + [] == [Word(Bare, [c])];
  }

  /**
   Between two letters, of all characters but quotes, exactly the blank and the tabulator make two
   words, and exactly the semicolon and the bar end the command.
   */
  lemma SeparatorsExactly(c: char)
    requires c != '"' && c != '\''
    ensures Words(['a', c, 'b']) ==
            if c == ' ' || c == '\t' then [Word(Bare, "a"), Word(Bare, "b")]
            else if c == ';' || c == '|' then [Word(Bare, "a")]
            else [Word(Bare, ['a', c, 'b'])]
  {
    var rest := [c, 'b'];
    assert ['a'] + rest == ['a', c, 'b'];
    Letter('a', rest);
    assert rest[0] == c && rest[1..] == ['b'];
    LastLetter('b');
    if c == ' ' || c == '\t' {
      assert WordBody(rest, 0) == ("", rest);
      assert SkipBlanks(rest) == SkipBlanks(['b']) == ['b'];
      assert Words(rest) == Words(['b']);
      assert ['a'] + "" == "a" && ['b'] == "b";
      assert [Word(Bare, "a")] + [Word(Bare, "b")] == [Word(Bare, "a"), Word(Bare, "b")];
    } else if c == ';' || c == '|' {
      assert WordBody(rest, 0) == ("", rest) && SkipBlanks(rest) == rest && Words(rest) == [];
      assert ['a'] + "" == "a" && [Word(Bare, "a")] + [] == [Word(Bare, "a")];
    } else {
      assert NextDepth(rest, 0) == 0 && !CommandEnds(rest);
      assert WordBody(rest, 0) == ([c] + ['b'], "");
      assert Words("") == [];
      assert ['a'] + ([c] + ['b']) == ['a', c, 'b'];
      assert [Word(Bare, ['a', c, 'b'])] + [] == [Word(Bare, ['a', c, 'b'])];
    }
  }

  /** Two ampersands end the command too. */
  lemma AndEnds()
    ensures Words("a&&b") == [Word(Bare, "a")]
  {
    assert ['a'] + "&&b" == "a&&b" && "&&" <= "&&b";
    Letter('a', "&&b");
    assert WordBody("&&b", 0) == ("", "&&b") && SkipBlanks("&&b") == "&&b" && Words("&&b") == [];
    assert ['a'] + "" == "a" && [Word(Bare, "a")] + [] == [Word(Bare, "a")];
  }

  /** Behind a backslash exactly the dollar sign, the backquote, the double quote and the backslash stand for themselves. */
  lemma EscapesExactly(c: char, env: Environment)
    requires c != '\n'
    ensures var kept := if c == '$' || c == '`' || c == '"' || c == '\\' then [c] else ['\\', c];
            Unescape(['\\', c]) == Prefix(['\\', c]) == Expand(['\\', c], env) == kept
  {
    var s := ['\\', c];
    assert s[2..] == "" && s[1..] == [c] && [c][1..] == "";
    assert Prefix("") == "" && Expand("", env) == "" && Unescape("") == "";
    if !Escapable(c) {
      assert Prefix([c]) == [c] + "" && Expand([c], env) == [c] + "";
    }
    assert [c] + "" == [c] && ['\\', c] + "" == ['\\', c] && ['\\'] + [c] == ['\\', c];
  }

  /** Extraction stops at a dollar sign and at a backquote only. */
  lemma StopsExactly(c: char)
    ensures Prefix([c]) == if c == '$' || c == '`' then "" else [c]
  {
    assert [c][1..] == "" && [c] + "" == [c];
  }

  /** A text in single quotes is a word of its own kind, as it stands. */
  lemma SingleQuotedWord(text: string)
    requires '\'' !in text
    ensures Words("'" + text + "'") == [Word(SingleQuoted, text)]
  {
    var s := "'" + text + "'";
    SingleRead(text);
    assert s[0] == '\'' && s[1..] == text + "'";
    assert SkipBlanks(s) == s && WordBody("", 0) == ("", "") && text + "" == text;
    assert Words("") == [];
  }

  lemma {:induction false} SingleRead(text: string)
    requires '\'' !in text
    ensures SingleBody(text + "'") == (text, "")
  {
    var s := text + "'";
    if text == "" {
      assert s[1..] == "";
    } else {
      SingleRead(text[1..]);
      assert text[0] in text && s[0] == text[0] && s[1..] == text[1..] + "'" && [text[0]] + text[1..] == text;
    }
  }
}
