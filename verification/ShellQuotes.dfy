/**
 Quoting in a shell fragment: which characters sit inside quotes, which quote is
 still open at the end, and splitting a fragment at separators outside quotes.
 */
module ShellQuotes {

  /** The quote that is open at some point of a fragment. */
  datatype Quote = Outside | Double | Single

  /** One state of the character-by-character quoting automaton. */
  datatype Scan = Plain | PlainEscape | InDouble | DoubleEscape | InSingle {
    function Open(): Quote {
      match this
      case Plain | PlainEscape => Outside
      case InDouble | DoubleEscape => Double
      case InSingle => Single
    }
  }

  /** The automaton reads one character. Single quotes know no escape. */
  function Step(s: Scan, c: char): Scan {
    match s
    case Plain =>
      if c == '\\' then PlainEscape
      else if c == '"' then InDouble
      else if c == '\'' then InSingle
      else Plain
    case PlainEscape => Plain
    case InDouble => if c == '\\' then DoubleEscape else if c == '"' then Plain else InDouble
    case DoubleEscape => InDouble
    case InSingle => if c == '\'' then Plain else InSingle
  }

  /** The automaton's state after the first `i` characters. */
  function StateAt(text: string, i: nat): Scan
    requires i <= |text|
  {
    if i == 0 then Plain else Step(StateAt(text, i - 1), text[i - 1])
  }

  function OpenAt(text: string, i: nat): Quote
    requires i <= |text|
  {
    StateAt(text, i).Open()
  }

  /** A character is quoted when a quote is open just before or just after it. */
  predicate Quoted(text: string, i: nat)
    requires i < |text|
  {
    OpenAt(text, i) != Outside || OpenAt(text, i + 1) != Outside
  }

  /** The resting state the scanners keep between characters. */
  function Resting(q: Quote): Scan {
    match q
    case Outside => Plain
    case Double => InDouble
    case Single => InSingle
  }

  lemma {:induction false} StateOfPrefix(text: string, n: nat, i: nat)
    requires i <= n <= |text|
    ensures StateAt(text[..n], i) == StateAt(text, i)
  {
    if i != 0 {
      StateOfPrefix(text, n, i - 1);
    }
  }

  /** Reading a second fragment after one that ends outside quotes starts afresh. */
  lemma {:induction false} StateOfSuffix(a: string, b: string, i: nat)
    requires i <= |b| && StateAt(a, |a|) == Plain
    ensures StateAt(a + b, |a| + i) == StateAt(b, i)
  {
    if i == 0 {
      assert (a + b)[..|a|] == a;
      StateOfPrefix(a + b, |a|, |a|);
    } else {
      StateOfSuffix(a, b, i - 1);
    }
  }

  /** The quoted positions of a fragment. */
  method QuoteMask(text: string) returns (mask: seq<bool>)
    ensures |mask| == |text|
    ensures forall k :: 0 <= k < |text| ==> mask[k] == Quoted(text, k)
  {
    var marks := new bool[|text|](_ => false);
    var i, state := 0, Outside;
    while i < |text|
      invariant 0 <= i <= |text| + 1
      invariant i <= |text| ==> StateAt(text, i) == Resting(state)
      invariant forall k :: 0 <= k < i && k < |text| ==> marks[k] == Quoted(text, k)
      invariant forall k :: i <= k < |text| ==> !marks[k]
    {
      var c := text[i];
      assert StateAt(text, i + 1) == Step(Resting(state), c);
      assert i + 1 < |text| ==> StateAt(text, i + 2) == Step(StateAt(text, i + 1), text[i + 1]);
      if state == Outside {
        if c == '\\' {
          i := i + 2;
          continue;
        }
        if c == '"' || c == '\'' {
          state := if c == '"' then Double else Single;
          marks[i] := true;
        }
      } else if state == Double {
        marks[i] := true;
        if c == '\\' {
          if i + 1 < |text| {
            marks[i + 1] := true;
          }
          i := i + 2;
          continue;
        }
        if c == '"' {
          state := Outside;
        }
      } else {
        marks[i] := true;
        if c == '\'' {
          state := Outside;
        }
      }
      i := i + 1;
    }
    mask := marks[..];
  }

  /** The quote still open at the end of a fragment. */
  method OpenQuote(text: string) returns (state: Quote)
    ensures state == OpenAt(text, |text|)
  {
    state := Outside;
    var i := 0;
    while i < |text|
      invariant 0 <= i <= |text| + 1
      invariant i <= |text| ==> StateAt(text, i) == Resting(state)
      invariant i == |text| + 1 ==> OpenAt(text, |text|) == state
    {
      var c := text[i];
      assert StateAt(text, i + 1) == Step(Resting(state), c);
      assert i + 1 < |text| ==> StateAt(text, i + 2) == Step(StateAt(text, i + 1), text[i + 1]);
      if state == Outside {
        if c == '\\' {
          i := i + 2;
          continue;
        }
        if c == '"' || c == '\'' {
          state := if c == '"' then Double else Single;
        }
      } else if state == Double {
        if c == '\\' {
          i := i + 2;
          continue;
        }
        if c == '"' {
          state := Outside;
        }
      } else {
        if c == '\'' {
          state := Outside;
        }
      }
      i := i + 1;
    }
  }

  // ----- splitting at unquoted separators -----------------------------------

  /** `sep` occurs at `i`, starting on an unquoted character. */
  predicate UnquotedAt(text: string, sep: string, i: nat) {
    i < |text| && |sep| <= |text| - i && text[i..i + |sep|] == sep && !Quoted(text, i)
  }

  function Join(parts: seq<string>, sep: string): string
    requires parts != []
  {
    if |parts| == 1 then parts[0] else parts[0] + sep + Join(parts[1..], sep)
  }

  /**
   `parts` cut the text from `start` on: each part but the last ends at an unquoted
   separator, and no unquoted separator begins inside a part.
   */
  ghost predicate WellCut(text: string, sep: string, start: nat, parts: seq<string>)
    decreases |parts|
  {
    && parts != []
    && var end := start + |parts[0]|;
    && end <= |text|
    && parts[0] == text[start..end]
    && (forall i :: start <= i < end ==> !UnquotedAt(text, sep, i))
    && if |parts| == 1 then end == |text|
       else UnquotedAt(text, sep, end) && WellCut(text, sep, end + |sep|, parts[1..])
  }

  /** The first of several cut parts ends at a separator, behind which the others are cut. */
  lemma FirstCut(text: string, sep: string, start: nat, parts: seq<string>)
    requires |parts| > 1 && WellCut(text, sep, start, parts)
    ensures var end := start + |parts[0]|;
            && end + |sep| <= |text| && parts[0] == text[start..end] && text[end..end + |sep|] == sep
            && UnquotedAt(text, sep, end) && (forall i :: start <= i < end ==> !UnquotedAt(text, sep, i))
            && WellCut(text, sep, end + |sep|, parts[1..])
  {
    hide Quoted;
    assert text[start + |parts[0]|..start + |parts[0]| + |sep|] == sep;
  }

  lemma LastCut(text: string, sep: string, start: nat, part: string)
    requires WellCut(text, sep, start, [part])
    ensures start + |part| == |text| && part == text[start..]
    ensures forall i :: start <= i < |text| ==> !UnquotedAt(text, sep, i)
  {
    hide Quoted;
    assert text[start..] == text[start..|text|];
  }

  lemma ThreeSlices(text: string, a: nat, b: nat, c: nat)
    requires a <= b <= c <= |text|
    ensures text[a..] == text[a..b] + text[b..c] + text[c..]
  {
  }

  lemma JoinMore(parts: seq<string>, sep: string)
    requires |parts| > 1
    ensures Join(parts, sep) == parts[0] + sep + Join(parts[1..], sep)
  {
  }

  /** One part and its separator in front of a text that is joined already. */
  lemma JoinStep(text: string, sep: string, start: nat, end: nat, parts: seq<string>)
    requires start <= end && end + |sep| <= |text| && |parts| > 1
    requires parts[0] == text[start..end] && text[end..end + |sep|] == sep
    requires Join(parts[1..], sep) == text[end + |sep|..]
    ensures Join(parts, sep) == text[start..]
  {
    hide *;
    JoinMore(parts, sep);
    ThreeSlices(text, start, end, end + |sep|);
  }

  /** Cutting at separators and joining with the separator gives the text back. */
  lemma {:induction false} JoinWellCut(text: string, sep: string, start: nat, parts: seq<string>)
    requires WellCut(text, sep, start, parts)
    ensures start <= |text| && Join(parts, sep) == text[start..]
    decreases |parts|
  {
    if |parts| > 1 {
      hide *;
      FirstCut(text, sep, start, parts);
      var end := start + |parts[0]|;
      JoinWellCut(text, sep, end + |sep|, parts[1..]);
      JoinStep(text, sep, start, end, parts);
    } else {
      assert parts == [parts[0]];
      LastCut(text, sep, start, parts[0]);
    }
  }

  /** Two cuts of one text have the same first part, and both go on behind it or neither does. */
  lemma SameFirstCut(text: string, sep: string, start: nat, p: seq<string>, q: seq<string>)
    requires sep != [] && WellCut(text, sep, start, p) && WellCut(text, sep, start, q)
    ensures p[0] == q[0] && (|p| == 1 <==> |q| == 1)
  {
    hide Quoted;
    assert p != [] && q != [];
    hide WellCut;
    CutAtFirst(text, sep, start, p);
    CutAtFirst(text, sep, start, q);
    var i, j := start + |p[0]|, start + |q[0]|;
    assert i < j ==> i < |text|;
    assert j < i ==> j < |text|;
    assert i == j;
  }

  /** A cut begins with the text up to the first unquoted separator, or with all of it. */
  lemma CutAtFirst(text: string, sep: string, start: nat, parts: seq<string>)
    requires sep != [] && WellCut(text, sep, start, parts)
    ensures var end := start + |parts[0]|;
            && end <= |text| && parts[0] == text[start..end]
            && (forall i :: start <= i < end ==> !UnquotedAt(text, sep, i))
            && (UnquotedAt(text, sep, end) <==> |parts| > 1) && (|parts| == 1 ==> end == |text|)
  {
    hide UnquotedAt;
    assert |parts| > 1 ==> UnquotedAt(text, sep, start + |parts[0]|);
    NoneAtEnd(text, sep);
  }

  lemma NoneAtEnd(text: string, sep: string)
    ensures !UnquotedAt(text, sep, |text|)
  {
  }

  /** The text and the separator determine the parts. */
  lemma {:induction false} WellCutIsUnique(text: string, sep: string, start: nat, p: seq<string>, q: seq<string>)
    requires sep != [] && WellCut(text, sep, start, p) && WellCut(text, sep, start, q)
    ensures p == q
    decreases |p|
  {
    hide Quoted, UnquotedAt, Join;
    assert p != [] && q != [];
    hide WellCut;
    SameFirstCut(text, sep, start, p, q);
    if |p| > 1 {
      FirstCut(text, sep, start, p);
      FirstCut(text, sep, start, q);
      WellCutIsUnique(text, sep, start + |p[0]| + |sep|, p[1..], q[1..]);
      assert p == [p[0]] + p[1..] && q == [q[0]] + q[1..];
    } else {
      assert p == [p[0]] && q == [q[0]];
    }
  }

  /** The parts still to come when the piece that began at `start` has been read up to `i`. */
  function Pieces(text: string, sep: string, start: nat, i: nat): seq<string>
    requires sep != [] && start <= i <= |text|
    decreases |text| - i
  {
    if i > |text| - |sep| then [text[start..]]
    else if UnquotedAt(text, sep, i) then
      [text[start..i]] + Pieces(text, sep, i + |sep|, i + |sep|)
    else Pieces(text, sep, start, i + 1)
  }

  lemma {:induction false} PiecesWellCut(text: string, sep: string, start: nat, i: nat)
    requires sep != [] && start <= i <= |text|
    requires forall j :: start <= j < i ==> !UnquotedAt(text, sep, j)
    ensures WellCut(text, sep, start, Pieces(text, sep, start, i))
    decreases |text| - i
  {
    hide Quoted, WellCut, Join;
    if i > |text| - |sep| {
      assert forall j :: i <= j < |text| ==> !UnquotedAt(text, sep, j);
      OnePart(text, sep, start);
    } else if UnquotedAt(text, sep, i) {
      PiecesWellCut(text, sep, i + |sep|, i + |sep|);
      var rest := Pieces(text, sep, i + |sep|, i + |sep|);
      assert Pieces(text, sep, start, i)[1..] == rest;
      CutIsSome(text, sep, i + |sep|, rest);
      PartInFront(text, sep, start, Pieces(text, sep, start, i));
    } else {
      PiecesWellCut(text, sep, start, i + 1);
    }
  }

  lemma CutIsSome(text: string, sep: string, start: nat, parts: seq<string>)
    requires WellCut(text, sep, start, parts)
    ensures parts != []
  {
  }

  lemma OnePart(text: string, sep: string, start: nat)
    requires start <= |text| && forall j :: start <= j < |text| ==> !UnquotedAt(text, sep, j)
    ensures WellCut(text, sep, start, [text[start..]])
  {
    hide UnquotedAt;
  }

  lemma PartInFront(text: string, sep: string, start: nat, parts: seq<string>)
    requires |parts| > 1 && start + |parts[0]| <= |text|
    requires var end := start + |parts[0]|;
             && parts[0] == text[start..end] && UnquotedAt(text, sep, end)
             && (forall i :: start <= i < end ==> !UnquotedAt(text, sep, i))
             && WellCut(text, sep, end + |sep|, parts[1..])
    ensures WellCut(text, sep, start, parts)
  {
    hide UnquotedAt;
  }

  lemma OnePiece(text: string, sep: string, start: nat, i: nat)
    requires sep != [] && start <= i && i + |sep| <= |text|
    ensures Pieces(text, sep, start, i) ==
            if !Quoted(text, i) && text[i..i + |sep|] == sep
            then [text[start..i]] + Pieces(text, sep, i + |sep|, i + |sep|) else Pieces(text, sep, start, i + 1)
  {
    hide Quoted;
  }

  lemma LastPiece(text: string, sep: string, start: nat, i: nat)
    requires sep != [] && start <= i <= |text| && i + |sep| > |text|
    ensures Pieces(text, sep, start, i) == [text[start..]]
  {
    hide Quoted;
  }

  /** Split on `sep` only where it is not inside quotes. */
  method SplitUnquoted(text: string, sep: string) returns (parts: seq<string>)
    requires sep != []
    ensures WellCut(text, sep, 0, parts)
    ensures Join(parts, sep) == text
  {
    hide WellCut, Join, Pieces;
    var mask := QuoteMask(text);
    hide Quoted;
    parts := [];
    var start, i := 0, 0;
    while i <= |text| - |sep|
      invariant 0 <= start <= i <= |text|
      invariant parts + Pieces(text, sep, start, i) == Pieces(text, sep, 0, 0)
      decreases |text| - i
    {
      OnePiece(text, sep, start, i);
      if !mask[i] && text[i..i + |sep|] == sep {
        parts := parts + [text[start..i]];
        i := i + |sep|;
        start := i;
        continue;
      }
      i := i + 1;
    }
    parts := parts + [text[start..]];
    LastPiece(text, sep, start, i);
    PiecesWellCut(text, sep, 0, 0);
    JoinWellCut(text, sep, 0, parts);
    assert text[0..] == text;
  }
}
