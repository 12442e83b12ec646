/**
 Which physical lines make up a logical one, read off the lines and the numbers of its members: no
 reference to how the joiner goes about it.
 */
module JoinedLines {
  import opened Wrappers
  import opened ShellQuotes
  import opened LogicalLines

  // ----- blanks --------------------------------------------------------------------------------

  predicate Blanks(s: string) {
    forall i :: 0 <= i < |s| ==> Space(s[i])
  }

  predicate Trimmed(s: string) {
    s == "" || (!Space(s[0]) && !Space(s[|s| - 1]))
  }

  predicate IsCut(s: string, a: string, kept: string, b: string) {
    Blanks(a) && Blanks(b) && s == a + kept + b
  }

  lemma {:induction false} RightBlanks(s: string) returns (b: string)
    ensures IsCut(s, "", RStrip(s), b)
  {
    b := "";
    if s != "" && Space(s[|s| - 1]) {
      hide RStrip, IsCut, Space;
      var front, last := s[..|s| - 1], s[|s| - 1];
      b := RightBlanks(front);
      SameRStrip(s);
      CutMore(front, RStrip(s), b, last);
      assert s == front + [last];
      b := b + [last];
    }
  }

  lemma CutMore(front: string, kept: string, b: string, last: char)
    requires IsCut(front, "", kept, b) && Space(last)
    ensures IsCut(front + [last], "", kept, b + [last])
  {
    hide Space;
    Regrouped("" + kept, b, [last]);
  }

  lemma {:induction false} LeftBlanks(s: string) returns (a: string)
    ensures IsCut(s, a, LStrip(s), "")
    ensures LStrip(s) != "" ==> !Space(LStrip(s)[0]) && LStrip(s)[|LStrip(s)| - 1] == s[|s| - 1]
  {
    a := "";
    if s != "" && Space(s[0]) {
      hide LStrip, IsCut, Space;
      a := LeftBlanks(s[1..]);
      SameLStrip(s);
      CutInFront(s, a, LStrip(s));
      a := [s[0]] + a;
    }
  }

  lemma CutInFront(s: string, a: string, kept: string)
    requires s != "" && Space(s[0]) && IsCut(s[1..], a, kept, "")
    ensures IsCut(s, [s[0]] + a, kept, "")
    ensures kept != "" ==> |s| > 1 && s[1..][|s[1..]| - 1] == s[|s| - 1]
  {
    hide Space;
    assert s == [s[0]] + s[1..];
    Regrouped([s[0]], a, kept);
  }

  lemma Regrouped(a: string, b: string, c: string)
    ensures a + b + c == a + (b + c) && a + b + c + "" == a + b + c
  {
  }

  lemma SameRStrip(s: string)
    requires s != "" && Space(s[|s| - 1])
    ensures RStrip(s) == RStrip(s[..|s| - 1])
  {
  }

  lemma SameLStrip(s: string)
    requires s != "" && Space(s[0])
    ensures LStrip(s) == LStrip(s[1..])
  {
  }

  /** Stripping takes the blanks away at both ends, and nothing else. */
  lemma StripMeans(s: string)
    ensures Trimmed(Strip(s))
    ensures exists a, b :: Blanks(a) && Blanks(b) && s == a + Strip(s) + b
  {
    var b := RightBlanks(s);
    var a := LeftBlanks(RStrip(s));
    assert s == a + Strip(s) + b;
  }

  // ----- the text of a group of lines -------------------------------------------------------------

  /** Nothing of the shell stands on the line. */
  predicate Idling(line: string) {
    Strip(line) == "" || Strip(line)[0] == '#'
  }

  predicate Numbers(lines: seq<string>, ms: seq<nat>) {
    ms != [] && forall i :: 0 <= i < |ms| ==> 1 <= ms[i] <= |lines|
  }

  /** What is held of a text when the next line comes: a blank in place of a backslash, unless a here-document came in between. */
  function HeldOf(text: string, opens: bool): string {
    if opens || !EndsInBackslash(RStrip(text)) then text else RStrip(text)[..|RStrip(text)| - 1] + " "
  }

  /** What is gathered when the last of these lines has been taken in. A line after a gap follows a here-document. */
  function Gathered(lines: seq<string>, ms: seq<nat>): string
    requires Numbers(lines, ms)
  {
    var n := |ms| - 1;
    if n == 0 then lines[ms[0] - 1]
    else
      HeldOf(Gathered(lines, ms[..n]), ms[n] > ms[n - 1] + 1) + " " + lines[ms[n] - 1]
  }

  function Gaps(ms: seq<nat>): nat {
    if |ms| < 2 then 0
    else Gaps(ms[..|ms| - 1]) + if ms[|ms| - 1] > ms[|ms| - 2] + 1 then 1 else 0
  }

  /** A here-document opened in the text, beyond those already passed, has its body next. */
  predicate Opens(text: string, gaps: nat, heredocs: Heredocs) {
    |heredocs(text)| > gaps
  }

  /** A backslash or an open quote at its end takes the next line in. */
  predicate GoesOn(text: string) {
    EndsInBackslash(RStrip(text)) || OpenAt(text, |text|) != Outside
  }

  function Numbered(lines: seq<string>, n: nat): string
    requires 1 <= n <= |lines|
  {
    lines[n - 1]
  }

  /** Of the lines after `from`, `to` is the first that is the terminator. */
  predicate Closes(lines: seq<string>, from: nat, to: nat, terminator: string) {
    && from < to <= |lines| && Strip(Numbered(lines, to)) == terminator
    && forall i :: from < i < to ==> Strip(Numbered(lines, i)) != terminator
  }

  predicate NoneCloses(lines: seq<string>, from: nat, to: nat, terminator: string) {
    to <= |lines| && forall i :: from < i <= to ==> Strip(Numbered(lines, i)) != terminator
  }

  /** `n` is rightly the member after these. */
  predicate Follows(lines: seq<string>, ms: seq<nat>, n: nat, heredocs: Heredocs)
    requires Numbers(lines, ms)
  {
    var text, gaps, last := Gathered(lines, ms), Gaps(ms), ms[|ms| - 1];
    if Opens(text, gaps, heredocs) then n >= 1 && Closes(lines, last, n - 1, heredocs(text)[gaps])
    else n == last + 1 && GoesOn(text)
  }

  /** The first member has something on it, and each one after it rightly follows. */
  predicate Chained(lines: seq<string>, ms: seq<nat>, heredocs: Heredocs)
    requires Numbers(lines, ms)
  {
    && !Idling(lines[ms[0] - 1])
    && forall i :: 1 <= i < |ms| ==> Numbers(lines, ms[..i]) && Follows(lines, ms[..i], ms[i], heredocs)
  }

  /** No line is to follow. */
  predicate Complete(lines: seq<string>, ms: seq<nat>, heredocs: Heredocs)
    requires Numbers(lines, ms)
  {
    var text := Gathered(lines, ms);
    !Opens(text, Gaps(ms), heredocs) && !GoesOn(text)
  }

  predicate AllIdle(lines: seq<string>, from: nat, to: nat) {
    to <= |lines| && forall n :: from < n <= to ==> Idling(Numbered(lines, n))
  }

  /** A complete logical line. */
  predicate Whole(lines: seq<string>, l: Logical, heredocs: Heredocs) {
    && Numbers(lines, l.members) && Chained(lines, l.members, heredocs) && Complete(lines, l.members, heredocs)
    && l.start == l.members[0] && l.text == Strip(Gathered(lines, l.members))
  }

  /** The number of the last line that went into these. */
  function LastOf(out: seq<Logical>): nat {
    if out == [] || out[|out| - 1].members == [] then 0
    else var ms := out[|out| - 1].members; ms[|ms| - 1]
  }

  /** Only idle lines stand before, and between, these complete logical lines. */
  predicate Wholes(lines: seq<string>, out: seq<Logical>, heredocs: Heredocs) {
    && (forall i :: 0 <= i < |out| ==> Whole(lines, out[i], heredocs))
    && (forall i :: 0 <= i < |out| ==> Behind(lines, out[..i], out[i]))
  }

  /** It begins behind the others, with only idle lines in between. */
  predicate Behind(lines: seq<string>, others: seq<Logical>, l: Logical) {
    LastOf(others) < l.start && AllIdle(lines, LastOf(others), l.start - 1)
  }

  /** The lines up to `k` are all there is of a group that is not complete. */
  predicate Pending(lines: seq<string>, ms: seq<nat>, k: nat, heredocs: Heredocs)
    requires Numbers(lines, ms)
  {
    var text, gaps, last := Gathered(lines, ms), Gaps(ms), ms[|ms| - 1];
    && last <= k <= |lines|
    && if Opens(text, gaps, heredocs) then
         NoneCloses(lines, last, k, heredocs(text)[gaps]) || Closes(lines, last, k, heredocs(text)[gaps])
       else last == k && GoesOn(text)
  }

  // ----- the joiner, line by line --------------------------------------------------------------------

  ghost predicate Agrees(lines: seq<string>, j: Joiner, k: nat, heredocs: Heredocs) {
    && k <= |lines| && Wholes(lines, j.out, heredocs)
    && if j.buf == "" then j.terminator.None? && LastOf(j.out) <= k && AllIdle(lines, LastOf(j.out), k)
       else
         && Numbers(lines, j.members) && Chained(lines, j.members, heredocs) && j.pending == j.members[0]
         && LastOf(j.out) < j.pending && AllIdle(lines, LastOf(j.out), j.pending - 1)
         && Pending(lines, j.members, k, heredocs)
         && var text, gaps, last := Gathered(lines, j.members), Gaps(j.members), j.members[|j.members| - 1];
            var opens := Opens(text, gaps, heredocs);
            && j.buf == HeldOf(text, opens)
            && j.consumed == gaps + (if opens then 1 else 0)
            && j.terminator == (if opens && !Closes(lines, last, k, heredocs(text)[gaps]) then Some(heredocs(text)[gaps]) else None)
  }

  /** The line `k` has just been taken in as the last of the members. */
  ghost predicate Taken(lines: seq<string>, j: Joiner, k: nat, heredocs: Heredocs) {
    && Numbers(lines, j.members) && Chained(lines, j.members, heredocs)
    && j.members[|j.members| - 1] == k && j.pending == j.members[0] && k <= |lines|
    && Wholes(lines, j.out, heredocs) && LastOf(j.out) < j.pending && AllIdle(lines, LastOf(j.out), j.pending - 1)
    && j.buf == Gathered(lines, j.members) != "" && j.consumed == Gaps(j.members) && j.terminator.None?
  }

  lemma FirstTaken(lines: seq<string>, j: Joiner, k: nat, heredocs: Heredocs)
    requires k < |lines| && Agrees(lines, j, k, heredocs) && j.buf == "" && !Idling(lines[k])
    ensures Taken(lines, j.Take(k + 1, lines[k]), k + 1, heredocs)
  {
    hide Wholes, RStrip, LStrip;
    assert lines[k] != "" by {
      StripOfNothing();
    }
  }

  lemma OneMember(lines: seq<string>, ms: seq<nat>, n: nat, heredocs: Heredocs)
    requires Numbers(lines, ms) && Chained(lines, ms, heredocs) && 1 <= n <= |lines| && Follows(lines, ms, n, heredocs)
    ensures Numbers(lines, ms + [n]) && Chained(lines, ms + [n], heredocs)
  {
    hide Follows;
    var more := ms + [n];
    Appended(ms, n);
    forall i | 1 <= i < |more|
      ensures Numbers(lines, more[..i]) && Follows(lines, more[..i], more[i], heredocs)
    {
      if i < |ms| {
        assert more[..i] == ms[..i];
      }
    }
  }

  lemma MayFollow(lines: seq<string>, j: Joiner, k: nat, heredocs: Heredocs)
    requires k < |lines| && Agrees(lines, j, k, heredocs) && j.buf != "" && j.terminator.None?
    ensures Follows(lines, j.members, k + 1, heredocs)
    ensures var gap := k > j.members[|j.members| - 1];
            && (gap <==> Opens(Gathered(lines, j.members), Gaps(j.members), heredocs))
            && j.buf == HeldOf(Gathered(lines, j.members), gap) && j.consumed == Gaps(j.members) + if gap then 1 else 0
  {
    hide Wholes, AllIdle, Chained, OpenAt, StateAt, RStrip, Gathered, Gaps;
  }

  /** A list of lines and one more. */
  lemma GatheredMore(lines: seq<string>, ms: seq<nat>, n: nat, more: seq<nat>)
    requires ms != [] && Numbers(lines, ms) && Numbers(lines, more) && |more| == |ms| + 1 && more[..|ms|] == ms && more[|ms|] == n
    ensures var gap := n > ms[|ms| - 1] + 1;
            && Gaps(more) == Gaps(ms) + (if gap then 1 else 0)
            && Gathered(lines, more) == HeldOf(Gathered(lines, ms), gap) + " " + lines[n - 1]
  {
    hide HeldOf, Gathered, Gaps, Numbers;
    LastGathered(lines, more);
    assert more[|ms| - 1] == ms[|ms| - 1];
  }

  lemma Appended(ms: seq<nat>, n: nat)
    ensures (ms + [n])[..|ms|] == ms && (ms + [n])[|ms|] == n
  {
  }

  lemma LastGathered(lines: seq<string>, ms: seq<nat>)
    requires Numbers(lines, ms) && |ms| > 1
    ensures var n := |ms| - 1;
            var gap := ms[n] > ms[n - 1] + 1;
            && Numbers(lines, ms[..n]) && Gaps(ms) == Gaps(ms[..n]) + (if gap then 1 else 0)
            && Gathered(lines, ms) == HeldOf(Gathered(lines, ms[..n]), gap) + " " + lines[ms[n] - 1]
  {
    hide HeldOf;
  }

  lemma MoreTaken(lines: seq<string>, j: Joiner, k: nat, heredocs: Heredocs)
    requires k < |lines| && Agrees(lines, j, k, heredocs) && j.buf != "" && j.terminator.None?
    ensures Taken(lines, j.Take(k + 1, lines[k]), k + 1, heredocs)
  {
    hide Wholes, AllIdle, Chained, Follows, Pending, HeldOf, Gathered, Gaps, Opens;
    var ms := j.members;
    MayFollow(lines, j, k, heredocs);
    OneMember(lines, ms, k + 1, heredocs);
    Appended(ms, k + 1);
    GatheredMore(lines, ms, k + 1, ms + [k + 1]);
    assert (ms + [k + 1])[0] == ms[0];
  }

  lemma OneWhole(lines: seq<string>, out: seq<Logical>, l: Logical, heredocs: Heredocs)
    requires Wholes(lines, out, heredocs) && Whole(lines, l, heredocs)
    requires Behind(lines, out, l)
    ensures Wholes(lines, out + [l], heredocs)
  {
    hide Whole, Behind;
    var more := out + [l];
    forall i | 0 <= i < |more|
      ensures Whole(lines, more[i], heredocs) && Behind(lines, more[..i], more[i])
    {
      if i < |out| {
        assert more[i] == out[i] && more[..i] == out[..i];
      } else {
        assert more[i] == l && more[..i] == out;
      }
    }
  }

  lemma SettleAgrees(lines: seq<string>, j: Joiner, k: nat, heredocs: Heredocs)
    requires Taken(lines, j, k, heredocs)
    ensures Agrees(lines, j.Settle(heredocs), k, heredocs)
  {
    hide Wholes, AllIdle, Chained, OpenAt, StateAt, Gathered, Gaps, RStrip, LStrip;
    var r := j.Settle(heredocs);
    if r.buf == "" {
      var l := Logical(j.pending, Strip(j.buf), j.members);
      assert j.Flush() == j.out + [l] && r.out == j.out + [l];
      OneWhole(lines, j.out, l, heredocs);
      assert LastOf(r.out) == k;
      NoneIdle(lines, k);
    }
  }

  lemma NoneIdle(lines: seq<string>, k: nat)
    requires k <= |lines|
    ensures AllIdle(lines, k, k)
  {
  }

  lemma NextCases(j: Joiner, n: nat, line: string, heredocs: Heredocs)
    ensures j.terminator.Some? ==>
              j.Next(n, line, heredocs) == if Strip(line) == j.terminator.value then j.(terminator := None) else j
    ensures j.terminator.None? && j.buf == "" && Idling(line) ==> j.Next(n, line, heredocs) == j
    ensures j.terminator.None? && !(j.buf == "" && Idling(line)) ==>
              j.Next(n, line, heredocs) == j.Take(n, line).Settle(heredocs)
  {
    hide Strip, Joiner.Take, Joiner.Settle;
  }

  /** Each line keeps the agreement. */
  lemma NextAgrees(lines: seq<string>, j: Joiner, k: nat, heredocs: Heredocs)
    requires k < |lines| && Agrees(lines, j, k, heredocs)
    ensures Agrees(lines, j.Next(k + 1, lines[k], heredocs), k + 1, heredocs)
  {
    hide Agrees, Taken, Idling, Strip, Joiner.Next, Joiner.Take, Joiner.Settle;
    var line := lines[k];
    NextCases(j, k + 1, line, heredocs);
    if j.terminator.Some? {
      BodyAgrees(lines, j, k, heredocs);
    } else if j.buf == "" && Idling(line) {
      IdlingAgrees(lines, j, k, heredocs);
    } else {
      if j.buf == "" {
        FirstTaken(lines, j, k, heredocs);
      } else {
        MoreTaken(lines, j, k, heredocs);
      }
      SettleAgrees(lines, j.Take(k + 1, line), k + 1, heredocs);
    }
  }

  lemma IdlingAgrees(lines: seq<string>, j: Joiner, k: nat, heredocs: Heredocs)
    requires k < |lines| && Agrees(lines, j, k, heredocs) && j.buf == "" && Idling(lines[k])
    ensures Agrees(lines, j, k + 1, heredocs)
  {
    hide Wholes, Idling;
    assert Numbered(lines, k + 1) == lines[k];
  }

  /** A line of a here-document's body, or its terminator. */
  lemma BodyAgrees(lines: seq<string>, j: Joiner, k: nat, heredocs: Heredocs)
    requires k < |lines| && Agrees(lines, j, k, heredocs) && j.terminator.Some?
    ensures Agrees(lines, if Strip(lines[k]) == j.terminator.value then j.(terminator := None) else j, k + 1, heredocs)
  {
    hide Wholes, AllIdle, Chained, OpenAt, StateAt, Gathered, Gaps, RStrip, LStrip;
    assert Numbered(lines, k + 1) == lines[k];
  }

  lemma {:induction false} AgreesAlways(lines: seq<string>, k: nat, heredocs: Heredocs)
    requires k <= |lines|
    ensures Agrees(lines, After(lines, k, heredocs), k, heredocs)
  {
    hide Agrees, After, Joiner.Next;
    if k == 0 {
      Idle(lines, heredocs);
      IdleAgrees(lines, heredocs);
    } else {
      AgreesAlways(lines, k - 1, heredocs);
      OneMore(lines, k, heredocs);
      NextAgrees(lines, After(lines, k - 1, heredocs), k - 1, heredocs);
    }
  }

  lemma IdleAgrees(lines: seq<string>, heredocs: Heredocs)
    ensures Agrees(lines, IDLE, 0, heredocs)
  {
  }

  // ----- the main result --------------------------------------------------------------------------------------

  /** A group the file ends in before it is complete. */
  predicate CutOff(lines: seq<string>, l: Logical, heredocs: Heredocs) {
    && Numbers(lines, l.members) && Chained(lines, l.members, heredocs) && Pending(lines, l.members, |lines|, heredocs)
    && l.start == l.members[0]
    && var text := Gathered(lines, l.members);
       l.text == Strip(HeldOf(text, Opens(text, Gaps(l.members), heredocs)))
  }

  /**
   The lines outside all groups are exactly the idle ones; a group begins with any other line; the
   next line belongs to it after a backslash or in a quote, and after a here-document the line behind
   the first terminator; it ends as soon as neither is so, or with the file.
   */
  lemma JoinedExactly(lines: seq<string>, heredocs: Heredocs)
    ensures var out := Joined(lines, heredocs);
            || (Wholes(lines, out, heredocs) && LastOf(out) <= |lines| && AllIdle(lines, LastOf(out), |lines|))
            || (out != []
                && var n, l := |out| - 1, out[|out| - 1];
                   Wholes(lines, out[..n], heredocs) && CutOff(lines, l, heredocs) && Behind(lines, out[..n], l))
  {
    AgreesAlways(lines, |lines|, heredocs);
    hide Wholes, AllIdle, Chained, Pending, HeldOf, OpenAt, StateAt, Gathered, Gaps, Opens, Strip, After;
    var j := After(lines, |lines|, heredocs);
    Flushed(j);
    hide Joiner.Flush;
    if j.buf != "" {
      assert CutOff(lines, Logical(j.pending, Strip(j.buf), j.members), heredocs);
    }
  }

  lemma Flushed(j: Joiner)
    ensures j.buf == "" ==> j.Flush() == j.out
    ensures j.buf != "" ==>
              var out, l := j.Flush(), Logical(j.pending, Strip(j.buf), j.members);
              |out| == |j.out| + 1 && out[..|j.out|] == j.out && out[|j.out|] == l
  {
    hide Strip;
  }

  /**
   The line behind a here-document is joined to the line that opened it, even if that was complete: a
   check on it no longer stands at the beginning of a line.
   */
  lemma AfterHereDocument(opener: string, word: string, next: string, heredocs: Heredocs)
    requires !Idling(opener) && heredocs(opener) == [Strip(word)]
    requires var text := opener + " " + next; |heredocs(text)| <= 1 && !GoesOn(text)
    ensures Joined([opener, word, next], heredocs) == [Logical(1, Strip(opener + " " + next), [1, 3])]
  {
    hide RStrip, Strip, OpenAt, StateAt, After;
    StripOfNothing();
    var lines, text := [opener, word, next], opener + " " + next;
    Idle(lines, heredocs);
    OneMore(lines, 1, heredocs);
    assert After(lines, 1, heredocs) == Joiner([], opener, 1, [1], Some(Strip(word)), 1);
    OneMore(lines, 2, heredocs);
    assert After(lines, 2, heredocs) == Joiner([], opener, 1, [1], None, 1);
    OneMore(lines, 3, heredocs);
    var j := Joiner([], text, 1, [1] + [3], None, 1);
    assert After(lines, 3, heredocs) == j.Settle(heredocs);
    assert [1] + [3] == [1, 3] && text != "";
    SettleShape(j, heredocs);
    assert j.Settle(heredocs).buf == "";
    assert j.Settle(heredocs).out == [] + [Logical(1, Strip(text), [1, 3])];
    Flushed(j.Settle(heredocs));
  }
}
