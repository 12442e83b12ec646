/** What the quoting automaton marks in a fragment: exactly its quotations, delimiters included. */
module QuoteRegions {
  import opened ShellQuotes
  import opened LabelSafety

  /** A fragment in pieces: a character, one behind a backslash, or a whole quotation. */
  datatype Region = Bare(c: char) | Escaped(c: char) | Doubled(literal: string) | Singled(text: string)

  predicate WellFormed(r: Region) {
    match r
    case Bare(c) => c != '\\' && c != '"' && c != '\''
    case Escaped(_) => true
    case Doubled(literal) => Quotable(literal)
    case Singled(text) => '\'' !in text
  }

  function TextOf(r: Region): string {
    match r
    case Bare(c) => [c]
    case Escaped(c) => ['\\', c]
    case Doubled(literal) => "\"" + literal + "\""
    case Singled(text) => "'" + text + "'"
  }

  function AllText(rs: seq<Region>): string {
    if rs == [] then "" else TextOf(rs[0]) + AllText(rs[1..])
  }

  function Marks(n: nat, quoted: bool): seq<bool> {
    seq(n, _ => quoted)
  }

  /** Which characters stand in quotations. */
  function Mask(rs: seq<Region>): seq<bool> {
    if rs == [] then [] else Marks(|TextOf(rs[0])|, rs[0].Doubled? || rs[0].Singled?) + Mask(rs[1..])
  }

  // ----- the automaton from the front -------------------------------------------------------------

  function StateAfter(s: Scan, text: string): Scan
    decreases |text|
  {
    if text == "" then s else StateAfter(Step(s, text[0]), text[1..])
  }

  function MarksFrom(s: Scan, text: string): (m: seq<bool>)
    ensures |m| == |text|
    decreases |text|
  {
    if text == "" then []
    else [s.Open() != Outside || Step(s, text[0]).Open() != Outside] + MarksFrom(Step(s, text[0]), text[1..])
  }

  lemma {:induction false} StateOneMore(s: Scan, text: string, c: char)
    ensures StateAfter(s, text + [c]) == Step(StateAfter(s, text), c)
    decreases |text|
  {
    if text == "" {
      assert text + [c] == [c] && [c][1..] == "";
    } else {
      assert (text + [c])[1..] == text[1..] + [c];
      StateOneMore(Step(s, text[0]), text[1..], c);
    }
  }

  lemma {:induction false} StateAtIs(text: string, i: nat)
    requires i <= |text|
    ensures StateAt(text, i) == StateAfter(Plain, text[..i])
  {
    if i > 0 {
      StateAtIs(text, i - 1);
      StateOneMore(Plain, text[..i - 1], text[i - 1]);
      assert text[..i] == text[..i - 1] + [text[i - 1]];
    }
  }

  lemma {:induction false} MarkAt(s: Scan, text: string, i: nat)
    requires i < |text|
    ensures MarksFrom(s, text)[i] <==>
              StateAfter(s, text[..i]).Open() != Outside || Step(StateAfter(s, text[..i]), text[i]).Open() != Outside
    decreases |text|
  {
    if i > 0 {
      MarkAt(Step(s, text[0]), text[1..], i - 1);
      assert text[..i][1..] == text[1..][..i - 1] && text[..i][0] == text[0];
    }
  }

  lemma {:induction false} Concat(s: Scan, a: string, b: string)
    ensures StateAfter(s, a + b) == StateAfter(StateAfter(s, a), b)
    ensures MarksFrom(s, a + b) == MarksFrom(s, a) + MarksFrom(StateAfter(s, a), b)
    decreases |a|
  {
    if a == "" {
      assert a + b == b;
    } else {
      assert (a + b)[1..] == a[1..] + b;
      Concat(Step(s, a[0]), a[1..], b);
    }
  }

  // ----- piece by piece ---------------------------------------------------------------------------

  lemma {:induction false} DoubleMarked(literal: string)
    requires Quotable(literal)
    ensures StateAfter(InDouble, literal + "\"") == Plain
    ensures MarksFrom(InDouble, literal + "\"") == Marks(|literal| + 1, true)
    decreases |literal|
  {
    var s := literal + "\"";
    if literal == "" {
      assert s == "\"" && s[1..] == "";
    } else if literal[0] == '\\' {
      DoubleMarked(literal[2..]);
      assert s[1..][1..] == literal[2..] + "\"" && s[1..] != "" && s[0] == '\\';
    } else {
      DoubleMarked(literal[1..]);
      assert s[1..] == literal[1..] + "\"" && s[0] == literal[0];
    }
  }

  lemma {:induction false} SingleMarked(text: string)
    requires '\'' !in text
    ensures StateAfter(InSingle, text + "'") == Plain
    ensures MarksFrom(InSingle, text + "'") == Marks(|text| + 1, true)
    decreases |text|
  {
    var s := text + "'";
    if text == "" {
      assert s == "'" && s[1..] == "";
    } else {
      SingleMarked(text[1..]);
      assert s[1..] == text[1..] + "'" && s[0] == text[0] && text[0] in text;
    }
  }

  lemma RegionMarked(r: Region)
    requires WellFormed(r)
    ensures StateAfter(Plain, TextOf(r)) == Plain
    ensures MarksFrom(Plain, TextOf(r)) == Marks(|TextOf(r)|, r.Doubled? || r.Singled?)
  {
    var s := TextOf(r);
    match r
    case Bare(c) => assert s[1..] == "";
    case Escaped(c) =>
      assert s[0] == '\\' && s[1..] == [c] && [c][1..] == "";
      assert StateAfter(PlainEscape, [c]) == Plain && MarksFrom(PlainEscape, [c]) == [false];
    case Doubled(literal) =>
      DoubleMarked(literal);
      assert s[0] == '"' && s[1..] == literal + "\"";
    case Singled(text) =>
      SingleMarked(text);
      assert s[0] == '\'' && s[1..] == text + "'";
  }

  lemma {:induction false} RegionsMarked(rs: seq<Region>)
    requires forall i :: 0 <= i < |rs| ==> WellFormed(rs[i])
    ensures StateAfter(Plain, AllText(rs)) == Plain && MarksFrom(Plain, AllText(rs)) == Mask(rs)
  {
    if rs != [] {
      hide StateAfter, MarksFrom, WellFormed, TextOf;
      RegionMarked(rs[0]);
      RegionsMarked(rs[1..]);
      Concat(Plain, TextOf(rs[0]), AllText(rs[1..]));
    }
  }

  lemma QuotedAt(text: string, i: nat)
    requires i < |text|
    ensures Quoted(text, i) <==> MarksFrom(Plain, text)[i]
  {
    hide MarksFrom, StateAfter;
    MarkAt(Plain, text, i);
    StateAtIs(text, i);
  }

  /**
   In a fragment made of characters, escaped characters and whole quotations exactly the characters of
   the quotations are marked, and no quote is open at the end.
   */
  lemma MaskExactly(rs: seq<Region>)
    requires forall i :: 0 <= i < |rs| ==> WellFormed(rs[i])
    ensures var text := AllText(rs);
            && |Mask(rs)| == |text| && (forall i :: 0 <= i < |text| ==> (Quoted(text, i) <==> Mask(rs)[i]))
            && OpenAt(text, |text|) == Outside
  {
    var text := AllText(rs);
    RegionsMarked(rs);
    hide AllText, Mask, MarksFrom, StateAfter;
    forall i | 0 <= i < |text|
      ensures Quoted(text, i) <==> Mask(rs)[i]
    {
      QuotedAt(text, i);
    }
    StateAtIs(text, |text|);
    assert text[..|text|] == text;
  }

  /** A quotation that is not closed stays open to the end. */
  lemma OpenToTheEnd(rs: seq<Region>, literal: string)
    requires (forall i :: 0 <= i < |rs| ==> WellFormed(rs[i])) && Quotable(literal)
    ensures var text := AllText(rs) + ("\"" + literal); OpenAt(text, |text|) == Double
    ensures '\'' !in literal ==> var text := AllText(rs) + ("'" + literal); OpenAt(text, |text|) == Single
  {
    RegionsMarked(rs);
    var a, b := AllText(rs) + ("\"" + literal), AllText(rs) + ("'" + literal);
    Concat(Plain, AllText(rs), "\"" + literal);
    Concat(Plain, AllText(rs), "'" + literal);
    StateAtIs(a, |a|);
    StateAtIs(b, |b|);
    assert a[..|a|] == a && b[..|b|] == b;
    assert ("\"" + literal)[1..] == literal && ("'" + literal)[1..] == literal;
    hide AllText;
    StaysDouble(literal);
    if '\'' !in literal {
      StaysSingle(literal);
    }
  }

  lemma {:induction false} StaysDouble(literal: string)
    requires Quotable(literal)
    ensures StateAfter(InDouble, literal) == InDouble
    decreases |literal|
  {
    if literal != "" {
      if literal[0] == '\\' {
        StaysDouble(literal[2..]);
        assert literal[1..][1..] == literal[2..];
      } else {
        StaysDouble(literal[1..]);
      }
    }
  }

  lemma {:induction false} StaysSingle(text: string)
    requires '\'' !in text
    ensures StateAfter(InSingle, text) == InSingle
    decreases |text|
  {
    if text != "" {
      assert text[0] in text;
      StaysSingle(text[1..]);
    }
  }
}
