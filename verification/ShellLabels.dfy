/**
 Labels of check calls: splitting a call's arguments into words and keeping the part of
 a label that is fixed when the script is written. Expansion inside double quotes follows
 section 2.2.3 of the POSIX.1-2017 Shell Command Language; what an unescaped `$` or
 backquote expands to is left to the environment (section 2.6).
 */
module ShellLabels {

  predicate Escapable(c: char) {
    c == '$' || c == '`' || c == '"' || c == '\\'
  }

  predicate Expands(c: char) {
    c == '$' || c == '`'
  }

  /** The environment says what the rest of a literal, from its first expansion on, becomes. */
  type Environment = string -> string

  /** What the shell makes of a double-quoted literal. */
  function Expand(literal: string, env: Environment): string {
    if literal == "" then ""
    else if literal[0] == '\\' && |literal| > 1 && literal[1] == '\n' then Expand(literal[2..], env)
    else if literal[0] == '\\' && |literal| > 1 && Escapable(literal[1]) then
      [literal[1]] + Expand(literal[2..], env)
    else if Expands(literal[0]) then env(literal)
    else [literal[0]] + Expand(literal[1..], env)
  }

  /** The part of a literal that is kept as a check's identity. */
  function Prefix(literal: string): string {
    if literal == "" then ""
    else if literal[0] == '\\' && |literal| > 1 && Escapable(literal[1]) then [literal[1]] + Prefix(literal[2..])
    else if Expands(literal[0]) then ""
    else [literal[0]] + Prefix(literal[1..])
  }

  lemma PrefixStep(literal: string, i: nat)
    requires i <= |literal|
    ensures var here := Prefix(literal[i..]);
            if i == |literal| || Expands(literal[i]) then here == ""
            else if literal[i] == '\\' && i + 1 < |literal| && Escapable(literal[i + 1]) then
              here == [literal[i + 1]] + Prefix(literal[i + 2..])
            else here == [literal[i]] + Prefix(literal[i + 1..])
  {
    var rest := literal[i..];
    if i < |literal| {
      assert rest[1..] == literal[i + 1..];
    }
    if i + 1 < |literal| {
      assert rest[2..] == literal[i + 2..];
    }
  }

  method StaticPrefix(literal: string) returns (out: string)
    ensures out == Prefix(literal)
  {
    hide Prefix;
    out := "";
    var i := 0;
    assert literal[0..] == literal;
    while i < |literal|
      invariant 0 <= i <= |literal|
      invariant out + Prefix(literal[i..]) == Prefix(literal)
    {
      var c := literal[i];
      PrefixStep(literal, i);
      if c == '\\' && i + 1 < |literal| {
        var nxt := literal[i + 1];
        if Escapable(nxt) {
          out := out + [nxt];
          i := i + 2;
          continue;
        }
        out := out + [c];
        i := i + 1;
        continue;
      }
      if Expands(c) {
        return;
      }
      out := out + [c];
      i := i + 1;
    }
    PrefixStep(literal, |literal|);
  }

  /** A backslash and a newline, which the shell removes, come before the first expansion. */
  predicate JoinsLines(literal: string) {
    if literal == "" then false
    else if literal[0] == '\\' && |literal| > 1 && literal[1] == '\n' then true
    else if literal[0] == '\\' && |literal| > 1 && Escapable(literal[1]) then JoinsLines(literal[2..])
    else if Expands(literal[0]) then false
    else JoinsLines(literal[1..])
  }

  lemma {:induction false} OneLineHasNoJoin(literal: string)
    requires '\n' !in literal
    ensures !JoinsLines(literal)
  {
    if literal != "" && !Expands(literal[0]) {
      if literal[0] == '\\' && |literal| > 1 && Escapable(literal[1]) {
        OneLineHasNoJoin(literal[2..]);
      } else {
        assert |literal| > 1 ==> literal[1] in literal;
        OneLineHasNoJoin(literal[1..]);
      }
    }
  }

  lemma {:induction false} PrefixOfExpansion(literal: string, env: Environment)
    requires !JoinsLines(literal)
    ensures Prefix(literal) <= Expand(literal, env)
  {
    if literal != "" && !Expands(literal[0]) {
      if literal[0] == '\\' && |literal| > 1 && Escapable(literal[1]) {
        PrefixOfExpansion(literal[2..], env);
      } else {
        PrefixOfExpansion(literal[1..], env);
      }
    }
  }

  const SILENT: Environment := _ => ""

  /** With every expansion empty, the shell's text is the kept prefix less the joined lines. */
  lemma {:induction false} SilentExpansion(literal: string)
    ensures |Expand(literal, SILENT)| <= |Prefix(literal)|
    ensures if JoinsLines(literal) then |Expand(literal, SILENT)| < |Prefix(literal)|
            else Expand(literal, SILENT) == Prefix(literal)
  {
    if literal != "" && !Expands(literal[0]) {
      if literal[0] == '\\' && |literal| > 1 && literal[1] == '\n' {
        SilentExpansion(literal[2..]);
        assert literal[1..][1..] == literal[2..];
        assert Prefix(literal) == ['\\'] + (['\n'] + Prefix(literal[2..]));
      } else if literal[0] == '\\' && |literal| > 1 && Escapable(literal[1]) {
        SilentExpansion(literal[2..]);
      } else {
        SilentExpansion(literal[1..]);
      }
    }
  }

  /** `p` begins the literal's expansion whatever the environment. */
  ghost predicate FixedPart(p: string, literal: string) {
    forall env: Environment :: p <= Expand(literal, env)
  }

  /**
   The kept part of a raw literal begins its expansion in every environment exactly when
   no joined line comes before the first expansion; it is then the longest such text.
   */
  lemma RawPrefixIsExact(literal: string)
    ensures FixedPart(Prefix(literal), literal) <==> !JoinsLines(literal)
    ensures !JoinsLines(literal) ==>
              forall p: string :: FixedPart(p, literal) ==> p <= Prefix(literal)
  {
    SilentExpansion(literal);
    if JoinsLines(literal) {
      assert !(Prefix(literal) <= Expand(literal, SILENT));
    } else {
      forall env: Environment ensures Prefix(literal) <= Expand(literal, env) {
        PrefixOfExpansion(literal, env);
      }
    }
  }

  // ----- words ----------------------------------------------------------------

  datatype Kind = DoubleQuoted | SingleQuoted | Bare
  datatype Word = Word(kind: Kind, value: string)

  predicate Blank(c: char) {
    c == ' ' || c == '\t'
  }

  predicate StartsWith(s: string, lead: string) {
    lead <= s
  }

  /** The command ends here, outside every command substitution. */
  predicate CommandEnds(s: string) {
    s != "" && (s[0] == ';' || s[0] == '|' || StartsWith(s, "&&"))
  }

  function SkipBlanks(s: string): (rest: string)
    ensures |rest| <= |s| && (rest == "" || !Blank(rest[0]))
  {
    if s != "" && Blank(s[0]) then SkipBlanks(s[1..]) else s
  }

  /** Read to the closing double quote: the text kept and what follows. */
  function DoubleBody(s: string): (r: (string, string))
    ensures |r.1| <= |s|
  {
    if s == "" then ("", "")
    else if s[0] == '\\' && |s| > 1 then
      var r := DoubleBody(s[2..]);
      ((if Escapable(s[1]) then [s[1]] else ['\\', s[1]]) + r.0, r.1)
    else if s[0] == '"' then ("", s[1..])
    else
      var r := DoubleBody(s[1..]);
      ([s[0]] + r.0, r.1)
  }

  function SingleBody(s: string): (r: (string, string))
    ensures |r.1| <= |s|
  {
    if s == "" then ("", "")
    else if s[0] == '\'' then ("", s[1..])
    else
      var r := SingleBody(s[1..]);
      ([s[0]] + r.0, r.1)
  }

  /** Read on inside a word that has `depth` parentheses open. */
  function WordBody(s: string, depth: nat): (r: (string, string))
    ensures |r.1| <= |s|
    decreases |s|
  {
    if s == "" || (depth == 0 && (Blank(s[0]) || CommandEnds(s))) then ("", s)
    else if s[0] == '"' then
      var q := DoubleBody(s[1..]);
      var r := WordBody(q.1, depth);
      (q.0 + r.0, r.1)
    else if s[0] == '\'' then
      var q := SingleBody(s[1..]);
      var r := WordBody(q.1, depth);
      (q.0 + r.0, r.1)
    else
      var deeper := NextDepth(s, depth);
      var r := WordBody(s[1..], deeper);
      ([s[0]] + r.0, r.1)
  }

  /** Parentheses open after the first character of `s`. */
  function NextDepth(s: string, depth: nat): nat
    requires s != ""
  {
    if StartsWith(s, "$(") then depth + 1
    else if s[0] == '(' && depth > 0 then depth + 1
    else if s[0] == ')' && depth > 0 then depth - 1
    else depth
  }

  function KindOf(c: char): Kind {
    if c == '"' then DoubleQuoted else if c == '\'' then SingleQuoted else Bare
  }

  /** The words of one command's argument list. */
  function Words(s: string): seq<Word>
    decreases |s|
  {
    var t := SkipBlanks(s);
    if t == "" || CommandEnds(t) then []
    else
      var r := WordBody(t, 0);
      WordBodyAdvances(t);
      [Word(KindOf(t[0]), r.0)] + Words(r.1)
  }

  lemma WordBodyAdvances(t: string)
    requires t != "" && !Blank(t[0]) && !CommandEnds(t)
    ensures |WordBody(t, 0).1| < |t|
  {
  }

  function From(text: string, i: nat): string {
    if i <= |text| then text[i..] else ""
  }

  lemma FromStep(text: string, i: nat)
    requires i < |text|
    ensures From(text, i)[1..] == From(text, i + 1) && From(text, i)[0] == text[i]
    ensures i + 1 < |text| ==> From(text, i)[2..] == From(text, i + 2) && From(text, i)[1] == text[i + 1]
  {
  }

  function Kept(c: char): string {
    if Escapable(c) then [c] else ['\\', c]
  }

  lemma DoubleStep(text: string, i: nat)
    requires i < |text|
    ensures var here := DoubleBody(From(text, i));
            if text[i] == '\\' && i + 1 < |text| then
              here == (Kept(text[i + 1]) + DoubleBody(From(text, i + 2)).0, DoubleBody(From(text, i + 2)).1)
            else if text[i] == '"' then here == ("", From(text, i + 1))
            else here == ([text[i]] + DoubleBody(From(text, i + 1)).0, DoubleBody(From(text, i + 1)).1)
  {
    FromStep(text, i);
  }

  lemma Regroup(a: string, b: string, c: string)
    ensures a + (b + c) == (a + b) + c
  {
  }

  method ReadDouble(text: string, at: nat, before: string) returns (buf: string, i: nat)
    requires at <= |text|
    ensures at <= i <= |text|
    ensures buf == before + DoubleBody(From(text, at)).0 && From(text, i) == DoubleBody(From(text, at)).1
  {
    buf, i := before, at;
    while i < |text|
      invariant at <= i <= |text|
      invariant buf + DoubleBody(From(text, i)).0 == before + DoubleBody(From(text, at)).0
      invariant DoubleBody(From(text, i)).1 == DoubleBody(From(text, at)).1
    {
      DoubleStep(text, i);
      if text[i] == '\\' && i + 1 < |text| {
        Regroup(buf, Kept(text[i + 1]), DoubleBody(From(text, i + 2)).0);
        buf := buf + if Escapable(text[i + 1]) then [text[i + 1]] else ['\\', text[i + 1]];
        i := i + 2;
        continue;
      }
      if text[i] == '"' {
        i := i + 1;
        return;
      }
      Regroup(buf, [text[i]], DoubleBody(From(text, i + 1)).0);
      buf := buf + [text[i]];
      i := i + 1;
    }
  }

  lemma SingleStep(text: string, i: nat)
    requires i < |text|
    ensures var here := SingleBody(From(text, i));
            if text[i] == '\'' then here == ("", From(text, i + 1))
            else here == ([text[i]] + SingleBody(From(text, i + 1)).0, SingleBody(From(text, i + 1)).1)
  {
    FromStep(text, i);
  }

  method ReadSingle(text: string, at: nat, before: string) returns (buf: string, i: nat)
    requires at <= |text|
    ensures at <= i <= |text| + 1
    ensures buf == before + SingleBody(From(text, at)).0 && From(text, i) == SingleBody(From(text, at)).1
  {
    buf, i := before, at;
    while i < |text| && text[i] != '\''
      invariant at <= i <= |text|
      invariant buf + SingleBody(From(text, i)).0 == before + SingleBody(From(text, at)).0
      invariant SingleBody(From(text, i)).1 == SingleBody(From(text, at)).1
    {
      SingleStep(text, i);
      Regroup(buf, [text[i]], SingleBody(From(text, i + 1)).0);
      buf := buf + [text[i]];
      i := i + 1;
    }
    if i < |text| {
      SingleStep(text, i);
    }
    i := i + 1;
  }

  predicate WordEnds(text: string, i: nat, depth: nat)
    requires i < |text|
  {
    depth == 0 && (Blank(text[i]) || CommandEnds(From(text, i)))
  }

  /** What was read so far and what reading on from `rest` gives make up the whole word. */
  ghost predicate Reads(buf: string, rest: string, depth: nat, whole: (string, string)) {
    buf + WordBody(rest, depth).0 == whole.0 && WordBody(rest, depth).1 == whole.1
  }

  lemma ReadsNothing(rest: string)
    ensures Reads("", rest, 0, WordBody(rest, 0))
  {
    hide WordBody;
  }

  lemma ReadsDouble(buf: string, rest: string, depth: nat, whole: (string, string))
    requires Reads(buf, rest, depth, whole) && rest != "" && rest[0] == '"'
    ensures Reads(buf + DoubleBody(rest[1..]).0, DoubleBody(rest[1..]).1, depth, whole)
  {
    var q := DoubleBody(rest[1..]);
    Regroup(buf, q.0, WordBody(q.1, depth).0);
  }

  lemma ReadsSingle(buf: string, rest: string, depth: nat, whole: (string, string))
    requires Reads(buf, rest, depth, whole) && rest != "" && rest[0] == '\''
    ensures Reads(buf + SingleBody(rest[1..]).0, SingleBody(rest[1..]).1, depth, whole)
  {
    var q := SingleBody(rest[1..]);
    Regroup(buf, q.0, WordBody(q.1, depth).0);
  }

  lemma ReadsPlain(buf: string, rest: string, depth: nat, whole: (string, string))
    requires Reads(buf, rest, depth, whole) && rest != "" && rest[0] != '"' && rest[0] != '\''
    requires !(depth == 0 && (Blank(rest[0]) || CommandEnds(rest)))
    ensures Reads(buf + [rest[0]], rest[1..], NextDepth(rest, depth), whole)
  {
    Regroup(buf, [rest[0]], WordBody(rest[1..], NextDepth(rest, depth)).0);
  }

  lemma ReadsEnd(buf: string, rest: string, depth: nat, whole: (string, string))
    requires Reads(buf, rest, depth, whole)
    requires rest == "" || (depth == 0 && (Blank(rest[0]) || CommandEnds(rest)))
    ensures buf == whole.0 && rest == whole.1
  {
  }

  method ReadWord(text: string, start: nat) returns (kind: Kind, buf: string, i: nat)
    requires start < |text| && !WordEnds(text, start, 0)
    ensures kind == KindOf(text[start])
    ensures start < i <= |text| + 1
    ensures buf == WordBody(From(text, start), 0).0 && From(text, i) == WordBody(From(text, start), 0).1
  {
    hide WordBody, DoubleBody, SingleBody, Reads, NextDepth, CommandEnds;
    kind, buf, i := Bare, "", start;
    var depth := 0;
    ghost var whole, rest := WordBody(From(text, start), 0), From(text, start);
    ReadsNothing(rest);
    while i < |text| && !WordEnds(text, i, depth)
      invariant start <= i <= |text| + 1
      invariant rest == From(text, i)
      invariant Reads(buf, rest, depth, whole)
      invariant if i == start then depth == 0 && kind == Bare else kind == KindOf(text[start])
      decreases |text| + 1 - i
    {
      FromStep(text, i);
      if text[i] == '"' {
        if i == start {
          kind := DoubleQuoted;
        }
        ReadsDouble(buf, rest, depth, whole);
        rest := DoubleBody(rest[1..]).1;
        buf, i := ReadDouble(text, i + 1, buf);
      } else if text[i] == '\'' {
        if i == start {
          kind := SingleQuoted;
        }
        ReadsSingle(buf, rest, depth, whole);
        rest := SingleBody(rest[1..]).1;
        buf, i := ReadSingle(text, i + 1, buf);
      } else {
        ReadsPlain(buf, rest, depth, whole);
        depth := NextDepth(From(text, i), depth);
        rest := rest[1..];
        buf := buf + [text[i]];
        i := i + 1;
      }
    }
    ReadsEnd(buf, rest, depth, whole);
  }

  /** Split a shell fragment into words, keeping how each word begins. */
  method SplitWords(text: string) returns (words: seq<Word>)
    ensures words == Words(text)
  {
    words := [];
    var i := 0;
    while i < |text|
      invariant 0 <= i <= |text| + 1
      invariant words + Words(From(text, i)) == Words(text)
      decreases |text| + 1 - i
    {
      ghost var before := i;
      while i < |text| && Blank(text[i])
        invariant before <= i <= |text|
        invariant SkipBlanks(From(text, i)) == SkipBlanks(From(text, before))
      {
        FromStep(text, i);
        i := i + 1;
      }
      if i >= |text| || CommandEnds(From(text, i)) {
        assert SkipBlanks(From(text, i)) == From(text, i);
        return;
      }
      assert SkipBlanks(From(text, i)) == text[i..];
      var kind, value, next := ReadWord(text, i);
      words := words + [Word(kind, value)];
      i := next;
    }
  }
}
