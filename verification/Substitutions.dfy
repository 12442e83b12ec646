/**
 Command substitutions in word splitting. The opening of one is counted as two parentheses, so
 its closing parenthesis leaves the word open.
 */
module Substitutions {
  import opened Wrappers
  import opened ShellLabels
  import opened LabelSafety

  /** A piece of a command line: one character, or a whole quotation. */
  datatype Piece = Char(c: char) | DoubleQuote(literal: string) | SingleQuote(text: string)

  predicate WellQuoted(pieces: seq<Piece>) {
    forall i :: 0 <= i < |pieces| ==>
      match pieces[i]
      case Char(c) => c != '"' && c != '\''
      case DoubleQuote(literal) => Quotable(literal)
      case SingleQuote(text) => '\'' !in text
  }

  function PieceText(p: Piece): (s: string)
    ensures s != ""
  {
    match p
    case Char(c) => [c]
    case DoubleQuote(literal) => Quote(literal)
    case SingleQuote(text) => "'" + text + "'"
  }

  function TextOf(pieces: seq<Piece>): string {
    if pieces == [] then "" else PieceText(pieces[0]) + TextOf(pieces[1..])
  }

  /** Parentheses open after reading on inside one word, or nothing if the word ends before. */
  function Through(pieces: seq<Piece>, depth: nat): Option<nat> {
    if pieces == [] then Some(depth)
    else if !pieces[0].Char? then Through(pieces[1..], depth)
    else
      var s := TextOf(pieces);
      if depth == 0 && (Blank(s[0]) || CommandEnds(s)) then None
      else Through(pieces[1..], NextDepth(s, depth))
  }

  /** The text that follows cannot complete a `$(` or a `&&`. */
  predicate StartsAfresh(t: string) {
    t == "" || (t[0] != '(' && t[0] != '&')
  }

  lemma LookAhead(s: string, t: string, depth: nat)
    requires s != "" && StartsAfresh(t)
    ensures CommandEnds(s + t) == CommandEnds(s) && NextDepth(s + t, depth) == NextDepth(s, depth)
  {
    assert |s| > 1 ==> (s + t)[..2] == s[..2];
    assert |s| == 1 && t != "" ==> (s + t)[1] == t[0];
  }

  lemma {:induction false} SingleThen(text: string, t: string)
    requires '\'' !in text
    ensures SingleBody(text + "'" + t) == (text, t)
  {
    var s := text + "'" + t;
    if text == "" {
      assert s[1..] == t;
    } else {
      assert text[0] in text && forall c :: c in text[1..] ==> c in text;
      SingleThen(text[1..], t);
      assert text == [text[0]] + text[1..];
      assert s[0] == text[0] && s[1..] == text[1..] + "'" + t;
    }
  }

  function PieceKept(p: Piece): string {
    match p
    case Char(c) => [c]
    case DoubleQuote(literal) => Unescape(literal)
    case SingleQuote(text) => text
  }

  /** What a word keeps of its pieces. */
  function KeptOf(pieces: seq<Piece>): string {
    if pieces == [] then "" else PieceKept(pieces[0]) + KeptOf(pieces[1..])
  }

  /** A quotation is read to its end and leaves the depth as it was. */
  lemma QuotationRead(p: Piece, t: string, depth: nat)
    requires !p.Char? && WellQuoted([p])
    ensures WordBody(PieceText(p) + t, depth) == (PieceKept(p) + WordBody(t, depth).0, WordBody(t, depth).1)
  {
    assert [p][0] == p;
    match p
    case DoubleQuote(literal) => DoubleRead(literal, t, depth);
    case SingleQuote(text) => SingleRead(text, t, depth);
  }

  lemma DoubleRead(literal: string, t: string, depth: nat)
    requires Quotable(literal)
    ensures WordBody(Quote(literal) + t, depth) == (Unescape(literal) + WordBody(t, depth).0, WordBody(t, depth).1)
  {
    var s := Quote(literal) + t;
    assert s[1..] == literal + "\"" + t;
    BodyOfLiteral(literal, t);
    hide Unescape, DoubleBody;
    assert s[0] == '"';
  }

  lemma SingleRead(text: string, t: string, depth: nat)
    requires '\'' !in text
    ensures WordBody("'" + text + "'" + t, depth) == (text + WordBody(t, depth).0, WordBody(t, depth).1)
  {
    var s := "'" + text + "'" + t;
    assert s[1..] == text + "'" + t;
    SingleThen(text, t);
    hide SingleBody;
    assert s[0] == '\'';
  }

  lemma CharRead(c: char, rest: string, depth: nat)
    requires c != '"' && c != '\'' && !(depth == 0 && (Blank(c) || CommandEnds([c] + rest)))
    ensures var after := WordBody(rest, NextDepth([c] + rest, depth));
            WordBody([c] + rest, depth) == ([c] + after.0, after.1)
  {
    assert ([c] + rest)[1..] == rest;
  }

  /** One piece is read, and the word goes on behind it. */
  lemma PieceRead(pieces: seq<Piece>, t: string, depth: nat)
    requires pieces != [] && WellQuoted(pieces) && StartsAfresh(t) && Through(pieces, depth).Some?
    ensures TextOf(pieces) != ""
    ensures var next := if pieces[0].Char? then NextDepth(TextOf(pieces), depth) else depth;
            var after := WordBody(TextOf(pieces[1..]) + t, next);
            && Through(pieces, depth) == Through(pieces[1..], next)
            && WordBody(TextOf(pieces) + t, depth) == (PieceKept(pieces[0]) + after.0, after.1)
  {
    hide WordBody, Quotable, NextDepth, CommandEnds;
    var rest := TextOf(pieces[1..]) + t;
    assert TextOf(pieces) + t == PieceText(pieces[0]) + rest;
    if pieces[0].Char? {
      LookAhead(TextOf(pieces), t, depth);
      assert PieceText(pieces[0]) == [pieces[0].c];
      CharRead(pieces[0].c, rest, depth);
    } else {
      QuotationRead(pieces[0], rest, depth);
    }
  }

  /** Reading on through well-quoted pieces keeps their text and ends where the depth says. */
  lemma {:induction false} ReadThrough(pieces: seq<Piece>, t: string, depth: nat)
    requires WellQuoted(pieces) && StartsAfresh(t) && Through(pieces, depth).Some?
    ensures var after := WordBody(t, Through(pieces, depth).value);
            WordBody(TextOf(pieces) + t, depth) == (KeptOf(pieces) + after.0, after.1)
    decreases |pieces|
  {
    hide WordBody, TextOf, Through, NextDepth, PieceKept;
    if pieces == [] {
      NothingRead(t, depth);
      assert KeptOf(pieces) + WordBody(t, depth).0 == WordBody(t, depth).0;
    } else {
      PieceRead(pieces, t, depth);
      ReadThrough(pieces[1..], t, if pieces[0].Char? then NextDepth(TextOf(pieces), depth) else depth);
      var after := WordBody(t, Through(pieces, depth).value).0;
      assert PieceKept(pieces[0]) + (KeptOf(pieces[1..]) + after) == KeptOf(pieces) + after;
    }
  }

  lemma NothingRead(t: string, depth: nat)
    ensures TextOf([]) + t == t && Through([], depth) == Some(depth)
  {
  }

  // ----- a substitution and what follows it ---------------------------------------------------

  /** No parenthesis stands outside quotes. */
  predicate NoParentheses(pieces: seq<Piece>) {
    forall i :: 0 <= i < |pieces| ==> pieces[i] != Char('(') && pieces[i] != Char(')')
  }

  function Substitution(body: seq<Piece>): seq<Piece> {
    [Char('$'), Char('(')] + body + [Char(')')]
  }

  lemma {:induction false} TextOfConcat(a: seq<Piece>, b: seq<Piece>)
    ensures TextOf(a + b) == TextOf(a) + TextOf(b)
  {
    if a == [] {
      assert a + b == b;
    } else {
      assert (a + b)[1..] == a[1..] + b;
      TextOfConcat(a[1..], b);
    }
  }

  /** Without parentheses the depth stays, whatever is in the body. */
  lemma {:induction false} BodyKeepsDepth(body: seq<Piece>, rest: seq<Piece>, depth: nat)
    requires NoParentheses(body) && depth > 0 && (rest == [] || rest[0] != Char('('))
    requires WellQuoted(rest)
    ensures Through(body + rest, depth) == Through(rest, depth)
  {
    if body == [] {
      assert body + rest == rest;
    } else {
      assert (body + rest)[1..] == body[1..] + rest;
      BodyKeepsDepth(body[1..], rest, depth);
      if body[0].Char? {
        NoOpening(body + rest);
      }
    }
  }

  /** A character that is no parenthesis and is not followed by one opens or closes nothing. */
  lemma NoOpening(pieces: seq<Piece>)
    requires pieces != [] && pieces[0].Char? && pieces[0] != Char('(') && pieces[0] != Char(')')
    requires |pieces| > 1 ==> pieces[1] != Char('(')
    ensures forall depth: nat :: NextDepth(TextOf(pieces), depth) == depth
  {
    var s := TextOf(pieces);
    assert s[0] == pieces[0].c;
    if |pieces| > 1 {
      var next := TextOf(pieces[1..]);
      assert next[0] != '(';
      assert s[1] == next[0];
    }
  }

  /** Reading one stretch after another, where the second cannot complete a symbol of the first. */
  lemma {:induction false} ThroughConcat(a: seq<Piece>, b: seq<Piece>, depth: nat)
    requires StartsAfresh(TextOf(b))
    ensures Through(a + b, depth) == match Through(a, depth) case None => None case Some(d) => Through(b, d)
    decreases |a|
  {
    if a == [] {
      assert a + b == b;
    } else {
      assert (a + b)[0] == a[0] && (a + b)[1..] == a[1..] + b;
      TextOfConcat(a, b);
      if a[0].Char? {
        var s := TextOf(a);
        assert TextOf(a + b)[0] == s[0];
        LookAhead(s, TextOf(b), depth);
        ThroughConcat(a[1..], b, NextDepth(s, depth));
      } else {
        ThroughConcat(a[1..], b, depth);
      }
    }
  }

  /** Parentheses left open behind a substitution whose opening counts as two, if the word lasts that long. */
  function AfterSubstitution(body: seq<Piece>): Option<nat> {
    match Through(body, 2)
    case None => None
    case Some(d) => Some(if d > 0 then d - 1 else 0)
  }

  lemma ClosingRead(rest: seq<Piece>, depth: nat)
    ensures Through([Char(')')] + rest, depth) == Through(rest, if depth > 0 then depth - 1 else 0)
    ensures StartsAfresh(TextOf([Char(')')] + rest))
  {
    var all := [Char(')')] + rest;
    assert all[1..] == rest && TextOf(all) == ")" + TextOf(rest);
  }

  /** A substitution with any body, and what follows it in the same word. */
  lemma SubstitutionDepth(body: seq<Piece>, rest: seq<Piece>)
    ensures Through(Substitution(body) + rest, 0)
         == match AfterSubstitution(body) case None => None case Some(d) => Through(rest, d)
  {
    var all := Substitution(body) + rest;
    var inner := body + ([Char(')')] + rest);
    assert all[1..] == [Char('(')] + inner && all[1..][1..] == inner;
    OpeningRead(inner);
    assert all == [Char('$'), Char('(')] + inner;
    ClosingRead(rest, 0);
    ThroughConcat(body, [Char(')')] + rest, 2);
    hide TextOf;
    match Through(body, 2)
    case None =>
    case Some(d) => ClosingRead(rest, d);
  }

  lemma OpeningRead(inner: seq<Piece>)
    ensures Through([Char('$'), Char('(')] + inner, 0) == Through(inner, 2)
  {
    var all := [Char('$'), Char('(')] + inner;
    assert all[1..] == [Char('(')] + inner && all[1..][1..] == inner;
    var s := TextOf(all);
    assert TextOf(all[1..]) == "(" + TextOf(inner);
    assert s == "$" + TextOf(all[1..]) && s[1] == '(';
    assert StartsWith(s, "$(") && NextDepth(s, 0) == 1 && NextDepth(TextOf(all[1..]), 1) == 2;
  }

  /** Without parentheses of its own in the body, a substitution leaves one parenthesis open. */
  lemma SubstitutionLeavesOne(body: seq<Piece>)
    requires NoParentheses(body)
    ensures AfterSubstitution(body) == Some(1)
  {
    BodyKeepsDepth(body, [], 2);
    assert body + [] == body;
  }

  /**
   A word ends with its substitution exactly if the text ends there, or the body has closed both
   parentheses and an end of word follows.
   */
  lemma WordEndsAfterSubstitution(body: seq<Piece>, tail: string)
    requires WellQuoted(body) && StartsAfresh(tail) && AfterSubstitution(body).Some?
    ensures WordBody(TextOf(Substitution(body)) + tail, 0).1 == tail <==>
              tail == "" || (AfterSubstitution(body) == Some(0) && Boundary(tail))
  {
    SubstitutionDepth(body, []);
    assert Substitution(body) + [] == Substitution(body);
    assert WellQuoted(Substitution(body));
    ReadThrough(Substitution(body), tail, 0);
    hide Through, TextOf, Substitution, AfterSubstitution;
    if tail != "" && !(AfterSubstitution(body) == Some(0) && Boundary(tail)) {
      ReadsOn(tail, AfterSubstitution(body).value);
    }
  }

  lemma ReadsOn(t: string, depth: nat)
    requires t != "" && (depth > 0 || !Boundary(t))
    ensures |WordBody(t, depth).1| < |t|
  {
  }

  lemma DeeperReadsOn(t: string, depth: nat)
    requires t != "" && depth > 0
    ensures |WordBody(t, depth).1| < |t|
  {
  }

  /**
   A label after a substitution and some more text of the same word: it becomes a word of its own
   if and only if every parenthesis is closed by then, counting the opening of the substitution
   twice. Otherwise the label is part of the word before it, which goes on into the rest.
   */
  lemma LabelAfterSubstitution(body: seq<Piece>, between: seq<Piece>, literal: string, rest: string)
    requires WellQuoted(body) && WellQuoted(between) && Quotable(literal) && Boundary(rest)
    requires AfterSubstitution(body).Some? && Through(between, AfterSubstitution(body).value).Some?
    ensures var line := TextOf(Substitution(body) + between) + " " + Quote(literal) + rest;
            var depth := Through(between, AfterSubstitution(body).value).value;
            && (WordBody(line, 0).1 == " " + Quote(literal) + rest <==> depth == 0)
            && Words(line) == [Word(Bare, WordBody(line, 0).0)]
                              + if depth == 0 then [Word(DoubleQuoted, Unescape(literal))] + Words(rest)
                                else Words(WordBody(rest, depth).1)
  {
    var first := Substitution(body) + between;
    var after := " " + Quote(literal) + rest;
    var line := TextOf(first) + " " + Quote(literal) + rest;
    var depth := Through(between, AfterSubstitution(body).value).value;
    assert line == TextOf(first) + after;
    SubstitutionDepth(body, between);
    assert WellQuoted(first);
    ReadThrough(first, after, 0);
    assert first[0] == Char('$') && TextOf(first)[0] == '$' && line[0] == '$';
    hide Through, TextOf, Substitution, AfterSubstitution, WellQuoted, Quotable, Unescape, Quote;
    FirstBareWord(line);
    if depth == 0 {
      EndsAtBlank(after);
      FirstWord(literal, rest);
    } else {
      OpenWordTakesLabel(literal, rest, depth);
    }
  }

  lemma FirstBareWord(line: string)
    requires line != "" && line[0] == '$'
    ensures Words(line) == [Word(Bare, WordBody(line, 0).0)] + Words(WordBody(line, 0).1)
  {
    assert SkipBlanks(line) == line && !CommandEnds(line) && KindOf(line[0]) == Bare;
    WordBodyAdvances(line);
  }

  lemma EndsAtBlank(after: string)
    requires after != "" && Blank(after[0])
    ensures WordBody(after, 0).1 == after
  {
  }

  /** Inside an open parenthesis blank and label are read over. */
  lemma OpenWordTakesLabel(literal: string, rest: string, depth: nat)
    requires Quotable(literal) && depth > 0
    ensures WordBody(" " + Quote(literal) + rest, depth).1 == WordBody(rest, depth).1
    ensures WordBody(" " + Quote(literal) + rest, depth).1 != " " + Quote(literal) + rest
  {
    var after := " " + Quote(literal) + rest;
    DeeperReadsOn(after, depth);
    assert after[0] == ' ' && after[1..] == Quote(literal) + rest;
    assert [DoubleQuote(literal)][0] == DoubleQuote(literal);
    QuotationRead(DoubleQuote(literal), rest, depth);
    assert NextDepth(after, depth) == depth;
    hide Quotable, Quote;
    assert WordBody(after, depth).1 == WordBody(after[1..], depth).1;
  }

  /** Directly after a substitution without parentheses a label is not a word of its own; after one more it is. */
  lemma OneMoreParenthesis(body: seq<Piece>)
    requires NoParentheses(body)
    ensures AfterSubstitution(body) == Some(1)
    ensures Through([], 1) == Some(1) && Through([Char(')')], 1) == Some(0)
  {
    SubstitutionLeavesOne(body);
    assert [Char(')')][1..] == [];
    assert TextOf([Char(')')]) == ")";
  }

  // ----- labels with a quoted piece inside --------------------------------------------------------

  /** Extraction stops at an expansion inside the text. */
  predicate Stops(u: string) {
    if u == "" then false
    else if u[0] == '\\' && |u| > 1 && Escapable(u[1]) then Stops(u[2..])
    else Expands(u[0]) || Stops(u[1..])
  }

  lemma {:induction false} PrefixStops(u: string, more: string)
    requires Stops(u)
    ensures Prefix(u + more) == Prefix(u)
    decreases |u|
  {
    var s := u + more;
    assert s[0] == u[0] && s[1..] == u[1..] + more;
    if u[0] == '\\' && |u| > 1 && Escapable(u[1]) {
      assert s[1] == u[1] && s[2..] == u[2..] + more;
      PrefixStops(u[2..], more);
    } else if !Expands(u[0]) {
      assert u[1..] != "";
      assert s[1] == u[1];
      PrefixStops(u[1..], more);
    }
  }

  /** What the shell makes of the literal once more text follows its first expansion. */
  lemma {:induction false} ExpandStops(l: string, more: string, env: Environment)
    requires Stops(l) && '\n' !in l
    ensures Expand(l + more, env) == Expand(l, (x: string) => env(x + more))
    decreases |l|
  {
    var s := l + more;
    assert s[0] == l[0] && s[1..] == l[1..] + more;
    if |l| > 1 {
      assert l[1] in l && s[1] == l[1] && s[2..] == l[2..] + more;
    }
    if l[0] == '\\' && |l| > 1 && Escapable(l[1]) {
      ExpandStops(l[2..], more, env);
    } else if !Expands(l[0]) {
      assert l[1..] != "";
      ExpandStops(l[1..], more, env);
    }
  }

  /**
   A label with quotes inside its first substitution is read as several pieces of one word. What is
   kept of it begins what the shell prints exactly when the part before the inner quote is safe.
   */
  lemma NestedQuoteExactly(l: string, more: string, inner: string, env: Environment)
    requires '\n' !in l && Stops(l) && Stops(Unescape(l))
    ensures Prefix(Unescape(l) + more) <= Expand(l + inner, env) <==> SafeEscapes(l)
  {
    PrefixStops(Unescape(l), more);
    ExpandStops(l, inner, env);
    SplitPrefixIsExact(l, (x: string) => env(x + inner));
  }
}
