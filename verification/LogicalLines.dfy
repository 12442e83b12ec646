/**
 Joining the physical lines of a script into logical ones. Where a here-document is opened
 is decided by a pattern that stays outside the model: `heredocs` gives the terminator words
 a text opens, in order.
 */
module LogicalLines {
  import opened ShellQuotes
  import opened Wrappers

  type Heredocs = string -> seq<string>

  /** What Python strips: the blanks of ASCII and of Unicode. */
  predicate Space(c: char) {
    var n := c as int;
    || c == ' ' || 9 <= n <= 13 || 28 <= n <= 31
    || n == 0x85 || n == 0xA0 || n == 0x1680 || 0x2000 <= n <= 0x200A
    || n == 0x2028 || n == 0x2029 || n == 0x202F || n == 0x205F || n == 0x3000
  }

  function RStrip(s: string): (r: string)
    ensures r <= s
    ensures r == "" || !Space(r[|r| - 1])
  {
    if s != "" && Space(s[|s| - 1]) then RStrip(s[..|s| - 1]) else s
  }

  function LStrip(s: string): string {
    if s != "" && Space(s[0]) then LStrip(s[1..]) else s
  }

  function Strip(s: string): string {
    LStrip(RStrip(s))
  }

  predicate EndsInBackslash(s: string) {
    s != "" && s[|s| - 1] == '\\'
  }

  /** A logical line: where it starts, its text, and the physical lines that went into it. */
  datatype Logical = Logical(start: nat, text: string, members: seq<nat>)

  /** The joiner between two physical lines. An empty buffer means no logical line is under way. */
  datatype Joiner = Joiner(
    out: seq<Logical>,
    buf: string,
    pending: nat,
    members: seq<nat>,
    terminator: Option<string>,
    consumed: nat)
  {
    predicate Skips(line: string) {
      terminator.Some? || (buf == "" && (Strip(line) == "" || Strip(line)[0] == '#'))
    }

    function Flush(): seq<Logical> {
      out + if buf == "" then [] else [Logical(pending, Strip(buf), members)]
    }

    /** The joiner with the line taken into its buffer. */
    function Take(n: nat, line: string): Joiner {
      if buf == "" then this.(buf := line, pending := n, members := [n], consumed := 0)
      else this.(buf := buf + " " + line, members := members + [n])
    }

    /** Decide whether the logical line under way goes on. */
    function Settle(heredocs: Heredocs): Joiner {
      var terms := heredocs(buf);
      if |terms| > consumed then this.(terminator := Some(terms[consumed]), consumed := consumed + 1)
      else if EndsInBackslash(RStrip(buf)) then this.(buf := RStrip(buf)[..|RStrip(buf)| - 1] + " ")
      else if OpenAt(buf, |buf|) != Outside then this
      else this.(out := Flush(), buf := "", members := [], consumed := 0)
    }

    function Next(n: nat, line: string, heredocs: Heredocs): Joiner {
      if terminator.Some? then (if Strip(line) == terminator.value then this.(terminator := None) else this)
      else if Skips(line) then this
      else Take(n, line).Settle(heredocs)
    }
  }

  const IDLE := Joiner([], "", 0, [], None, 0)

  /** The joiner after the first `k` physical lines, which are numbered from 1. */
  function After(lines: seq<string>, k: nat, heredocs: Heredocs): Joiner
    requires k <= |lines|
  {
    if k == 0 then IDLE else After(lines, k - 1, heredocs).Next(k, lines[k - 1], heredocs)
  }

  lemma Idle(lines: seq<string>, heredocs: Heredocs)
    ensures After(lines, 0, heredocs) == IDLE
  {
  }

  lemma OneMore(lines: seq<string>, k: nat, heredocs: Heredocs)
    requires 0 < k <= |lines|
    ensures After(lines, k, heredocs) == After(lines, k - 1, heredocs).Next(k, lines[k - 1], heredocs)
  {
  }

  function Joined(lines: seq<string>, heredocs: Heredocs): seq<Logical> {
    After(lines, |lines|, heredocs).Flush()
  }

  method JoinLines(lines: seq<string>, heredocs: Heredocs) returns (out: seq<(nat, string)>)
    ensures var joined := Joined(lines, heredocs);
            |out| == |joined| && forall k :: 0 <= k < |out| ==> out[k] == (joined[k].start, joined[k].text)
  {
    hide RStrip, Strip, StateAt, After;
    Idle(lines, heredocs);
    out := [];
    var buf, pending, consumed := "", 0, 0;
    var terminator: Option<string> := None;
    ghost var members: seq<nat> := [];
    ghost var done: seq<Logical> := [];
    for k := 0 to |lines|
      invariant After(lines, k, heredocs) == Joiner(done, buf, pending, members, terminator, consumed)
      invariant |out| == |done| && forall i :: 0 <= i < |out| ==> out[i] == (done[i].start, done[i].text)
    {
      var line, n := lines[k], k + 1;
      ghost var before := After(lines, k, heredocs);
      OneMore(lines, n, heredocs);
      if terminator.Some? {
        if Strip(line) == terminator.value {
          terminator := None;
        }
        continue;
      }
      if buf == "" {
        var stripped := Strip(line);
        if stripped == "" || stripped[0] == '#' {
          continue;
        }
        buf, pending, consumed, members := line, n, 0, [n];
      } else {
        buf, members := buf + " " + line, members + [n];
      }
      ghost var taken := before.Take(n, line);
      StripOfNothing();
      assert taken == Joiner(done, buf, pending, members, None, consumed);
      assert buf != "" && After(lines, n, heredocs) == taken.Settle(heredocs);
      var terms := heredocs(buf);
      if |terms| > consumed {
        terminator := Some(terms[consumed]);
        consumed := consumed + 1;
        continue;
      }
      var trimmed := RStrip(buf);
      if EndsInBackslash(trimmed) {
        buf := trimmed[..|trimmed| - 1] + " ";
        continue;
      }
      var open := OpenQuote(buf);
      if open != Outside {
        continue;
      }
      out, done := out + [(pending, Strip(buf))], done + [Logical(pending, Strip(buf), members)];
      buf, consumed, members := "", 0, [];
    }
    if buf != "" {
      out := out + [(pending, Strip(buf))];
    }
  }

  // ----- every physical line is accounted for -----------------------------------

  /** The numbers of the physical lines that are not skipped, in order. */
  function Kept(lines: seq<string>, k: nat, heredocs: Heredocs): seq<nat>
    requires k <= |lines|
  {
    if k == 0 then []
    else Kept(lines, k - 1, heredocs)
         + if After(lines, k - 1, heredocs).Skips(lines[k - 1]) then [] else [k]
  }

  function Members(out: seq<Logical>): seq<nat> {
    if out == [] then [] else Members(out[..|out| - 1]) + out[|out| - 1].members
  }

  /** Settling keeps the line under way, or completes it. */
  lemma SettleShape(j: Joiner, heredocs: Heredocs)
    requires j.buf != ""
    ensures var r := j.Settle(heredocs);
            if r.buf != "" then r.out == j.out && r.members == j.members && r.pending == j.pending
            else r.out == j.out + [Logical(j.pending, Strip(j.buf), j.members)] && r.members == []
                 && OpenAt(j.buf, |j.buf|) == Outside
  {
    hide RStrip, LStrip, StateAt;
  }

  /** One line later the joiner skipped the line, or took and settled it. */
  lemma NextShape(j: Joiner, n: nat, line: string, heredocs: Heredocs)
    ensures var r := j.Next(n, line, heredocs);
            if j.Skips(line) then r.out == j.out && r.buf == j.buf && r.members == j.members && r.pending == j.pending
            else r == j.Take(n, line).Settle(heredocs) && j.Take(n, line).buf != ""
  {
    hide RStrip, LStrip, StateAt;
    StripOfNothing();
  }

  lemma MembersOfFlush(j: Joiner)
    requires j.buf == "" ==> j.members == []
    ensures Members(j.Flush()) == Members(j.out) + j.members
  {
    if j.buf != "" {
      assert j.Flush()[..|j.out|] == j.out;
    } else {
      assert j.Flush() == j.out;
    }
  }

  lemma StripOfNothing()
    ensures Strip("") == ""
  {
  }

  lemma MembersAppend(out: seq<Logical>, l: Logical)
    ensures Members(out + [l]) == Members(out) + l.members
  {
    assert (out + [l])[..|out|] == out;
  }

  ghost predicate Accounts(j: Joiner, kept: seq<nat>) {
    (j.buf == "" <==> j.members == []) && Members(j.out) + j.members == kept
  }

  lemma SettleAccounts(j: Joiner, kept: seq<nat>, heredocs: Heredocs)
    requires j.buf != "" && Accounts(j, kept)
    ensures Accounts(j.Settle(heredocs), kept)
  {
    hide Joiner.Settle, Members, Strip, StateAt;
    SettleShape(j, heredocs);
    MembersAppend(j.out, Logical(j.pending, Strip(j.buf), j.members));
  }

  lemma TakeAccounts(j: Joiner, n: nat, line: string, kept: seq<nat>)
    requires Accounts(j, kept) && j.Take(n, line).buf != ""
    ensures Accounts(j.Take(n, line), kept + [n])
  {
    hide Members;
    assert j.Take(n, line).members == j.members + [n];
  }

  lemma NextAccounts(j: Joiner, n: nat, line: string, kept: seq<nat>, heredocs: Heredocs)
    requires Accounts(j, kept)
    ensures Accounts(j.Next(n, line, heredocs), kept + if j.Skips(line) then [] else [n])
  {
    hide Joiner.Settle, Joiner.Take, Joiner.Next, Joiner.Skips, Members;
    NextShape(j, n, line, heredocs);
    if j.Skips(line) {
      assert kept + [] == kept;
    } else {
      TakeAccounts(j, n, line, kept);
      SettleAccounts(j.Take(n, line), kept + [n], heredocs);
    }
  }

  lemma {:induction false} EveryKeptLineOnce(lines: seq<string>, k: nat, heredocs: Heredocs)
    requires k <= |lines|
    ensures Accounts(After(lines, k, heredocs), Kept(lines, k, heredocs))
  {
    hide After, Joiner.Next, Joiner.Skips, Accounts;
    Idle(lines, heredocs);
    if k > 0 {
      EveryKeptLineOnce(lines, k - 1, heredocs);
      OneMore(lines, k, heredocs);
      NextAccounts(After(lines, k - 1, heredocs), k, lines[k - 1], Kept(lines, k - 1, heredocs), heredocs);
    } else {
      IdleAccounts();
    }
  }

  lemma IdleAccounts()
    ensures Accounts(IDLE, [])
  {
  }

  /** Each physical line that is not skipped goes into exactly one logical line, in order. */
  lemma LinesAreCovered(lines: seq<string>, heredocs: Heredocs)
    ensures Members(Joined(lines, heredocs)) == Kept(lines, |lines|, heredocs)
  {
    EveryKeptLineOnce(lines, |lines|, heredocs);
    MembersOfFlush(After(lines, |lines|, heredocs));
  }

  // ----- order and quoting ---------------------------------------------------------

  ghost predicate Rising(out: seq<Logical>, bound: nat) {
    && (forall i :: 0 <= i < |out| ==> out[i].members != [] && out[i].start == out[i].members[0] <= bound)
    && (forall i, j :: 0 <= i < j < |out| ==> out[i].start < out[j].start)
  }

  ghost predicate InOrder(j: Joiner, k: nat) {
    && Rising(j.out, k)
    && (j.buf != "" ==>
          && j.members != [] && j.pending == j.members[0] <= k
          && forall i :: 0 <= i < |j.out| ==> j.out[i].start < j.pending)
  }

  lemma OrderTaken(j: Joiner, k: nat, line: string)
    requires k > 0 && InOrder(j, k - 1) && j.Take(k, line).buf != ""
    ensures InOrder(j.Take(k, line), k)
  {
    var t := j.Take(k, line);
    assert t.out == j.out;
    assert Rising(t.out, k);
  }

  lemma OrderSettled(j: Joiner, k: nat, heredocs: Heredocs)
    requires InOrder(j, k) && j.buf != ""
    ensures InOrder(j.Settle(heredocs), k)
  {
    hide Joiner.Settle, Strip;
    SettleShape(j, heredocs);
    var r := j.Settle(heredocs);
    if r.buf == "" {
      assert forall i :: 0 <= i < |j.out| ==> r.out[i] == j.out[i];
    }
  }

  lemma {:induction false} OrderKept(lines: seq<string>, k: nat, heredocs: Heredocs)
    requires k <= |lines|
    ensures InOrder(After(lines, k, heredocs), k)
  {
    hide After, Joiner.Next, Joiner.Skips, Joiner.Settle, Joiner.Take, Strip;
    Idle(lines, heredocs);
    if k > 0 {
      OrderKept(lines, k - 1, heredocs);
      OneMore(lines, k, heredocs);
      var j, line := After(lines, k - 1, heredocs), lines[k - 1];
      NextShape(j, k, line, heredocs);
      if !j.Skips(line) {
        OrderTaken(j, k, line);
        OrderSettled(j.Take(k, line), k, heredocs);
      }
    }
  }

  lemma {:induction false} TrailingSpaceKeepsState(s: string)
    requires OpenAt(s, |s|) == Outside
    ensures OpenAt(RStrip(s), |RStrip(s)|) == Outside
  {
    if s != "" && Space(s[|s| - 1]) {
      StateOfPrefix(s, |s| - 1, |s| - 1);
      TrailingSpaceKeepsState(s[..|s| - 1]);
    }
  }

  lemma {:induction false} LeadingSpaceKeepsState(s: string)
    ensures OpenAt(LStrip(s), |LStrip(s)|) == OpenAt(s, |s|)
  {
    if s != "" && Space(s[0]) {
      LeadingSpaceKeepsState(s[1..]);
      assert s == [s[0]] + s[1..];
      assert StateAt([s[0]], 1) == Step(StateAt([s[0]], 0), s[0]);
      StateOfSuffix([s[0]], s[1..], |s| - 1);
    }
  }

  lemma {:induction false} SettledOutsideQuotes(lines: seq<string>, k: nat, heredocs: Heredocs)
    requires k <= |lines|
    ensures forall l :: l in After(lines, k, heredocs).out ==> OpenAt(l.text, |l.text|) == Outside
  {
    hide After, Joiner.Next, Joiner.Skips, Joiner.Settle, LStrip, RStrip, StateAt;
    Idle(lines, heredocs);
    if k > 0 {
      SettledOutsideQuotes(lines, k - 1, heredocs);
      OneMore(lines, k, heredocs);
      var j, line := After(lines, k - 1, heredocs), lines[k - 1];
      NextShape(j, k, line, heredocs);
      if !j.Skips(line) {
        var t := j.Take(k, line);
        SettleShape(t, heredocs);
        if OpenAt(t.buf, |t.buf|) == Outside {
          TrailingSpaceKeepsState(t.buf);
          LeadingSpaceKeepsState(RStrip(t.buf));
        }
      }
    }
  }

  /**
   Logical lines start at strictly increasing physical lines, and each but one flushed at
   the end of the file ends outside quotes.
   */
  lemma LinesAreOrdered(lines: seq<string>, heredocs: Heredocs)
    ensures var out := Joined(lines, heredocs);
            && Rising(out, |lines|)
            && forall i :: 0 <= i < |out| - 1 ==> OpenAt(out[i].text, |out[i].text|) == Outside
  {
    OrderKept(lines, |lines|, heredocs);
    SettledOutsideQuotes(lines, |lines|, heredocs);
    hide StateAt, Strip;
    var j := After(lines, |lines|, heredocs);
    assert forall i :: 0 <= i < |j.Flush()| - 1 ==> j.Flush()[i] in j.out;
  }

  // ----- nothing but blanks and continuation backslashes is added or lost ----------

  predicate Filler(c: char) {
    Space(c) || c == '\\'
  }

  function Squeeze(s: string): string {
    if s == "" then "" else Squeeze(s[..|s| - 1]) + if Filler(s[|s| - 1]) then "" else [s[|s| - 1]]
  }

  lemma {:induction false} SqueezeConcat(a: string, b: string)
    ensures Squeeze(a + b) == Squeeze(a) + Squeeze(b)
  {
    if b == "" {
      assert a + b == a;
    } else {
      var front := b[..|b| - 1];
      assert (a + b)[..|a + b| - 1] == a + front;
      SqueezeConcat(a, front);
    }
  }

  lemma {:induction false} SqueezeRight(s: string)
    ensures Squeeze(RStrip(s)) == Squeeze(s)
  {
    if s != "" && Space(s[|s| - 1]) {
      SqueezeRight(s[..|s| - 1]);
    }
  }

  lemma {:induction false} SqueezeLeft(s: string)
    ensures Squeeze(LStrip(s)) == Squeeze(s)
  {
    if s != "" && Space(s[0]) {
      SqueezeLeft(s[1..]);
      assert Squeeze([s[0]]) == "";
      hide Squeeze;
      assert s == [s[0]] + s[1..];
      SqueezeConcat([s[0]], s[1..]);
    }
  }

  lemma SqueezeStripped(s: string)
    ensures Squeeze(Strip(s)) == Squeeze(s) == Squeeze(RStrip(s))
  {
    SqueezeRight(s);
    SqueezeLeft(RStrip(s));
  }

  /** The physical lines of a group, squeezed and put together. */
  function Content(lines: seq<string>, members: seq<nat>): string {
    if members == [] then ""
    else
      var m := members[|members| - 1];
      Content(lines, members[..|members| - 1]) + if 1 <= m <= |lines| then Squeeze(lines[m - 1]) else ""
  }

  lemma ContentAppend(lines: seq<string>, members: seq<nat>, n: nat)
    requires 1 <= n <= |lines|
    ensures Content(lines, members + [n]) == Content(lines, members) + Squeeze(lines[n - 1])
  {
    hide Squeeze;
    var all := members + [n];
    assert all != [] && all[|all| - 1] == n && all[..|all| - 1] == members;
  }

  lemma TakeConserves(lines: seq<string>, j: Joiner, n: nat)
    requires 1 <= n <= |lines|
    requires j.buf == "" <==> j.members == []
    requires Squeeze(j.buf) == Content(lines, j.members)
    ensures Squeeze(j.Take(n, lines[n - 1]).buf) == Content(lines, j.Take(n, lines[n - 1]).members)
  {
    var line := lines[n - 1];
    ContentAppend(lines, j.members, n);
    NothingSqueezes(lines);
    assert Squeeze(" ") == "";
    hide Squeeze, Content;
    SqueezeConcat(j.buf + " ", line);
    SqueezeConcat(j.buf, " ");
    if j.buf == "" {
      assert [n] == [] + [n] && "" + Squeeze(line) == Squeeze(line);
    } else {
      assert Squeeze(j.buf) + "" == Squeeze(j.buf);
    }
  }

  lemma ContinuationConserves(buf: string)
    requires EndsInBackslash(RStrip(buf))
    ensures Squeeze(RStrip(buf)[..|RStrip(buf)| - 1] + " ") == Squeeze(buf)
  {
    var r := RStrip(buf);
    SqueezeStripped(buf);
    SqueezeConcat(r[..|r| - 1], " ");
    assert Squeeze(" ") == "";
    assert Squeeze(r) == Squeeze(r[..|r| - 1]) + "";
  }

  ghost predicate Conserves(lines: seq<string>, j: Joiner) {
    && (forall l :: l in j.out ==> Squeeze(l.text) == Content(lines, l.members))
    && Squeeze(j.buf) == Content(lines, j.members)
  }

  lemma {:induction false} ContentKept(lines: seq<string>, k: nat, heredocs: Heredocs)
    requires k <= |lines|
    ensures Conserves(lines, After(lines, k, heredocs))
  {
    hide After, Joiner.Next, Kept, Members, Squeeze, Content, Conserves;
    Idle(lines, heredocs);
    if k > 0 {
      ContentKept(lines, k - 1, heredocs);
      EveryKeptLineOnce(lines, k - 1, heredocs);
      OneMore(lines, k, heredocs);
      NextConserves(lines, After(lines, k - 1, heredocs), k, heredocs);
    } else {
      IdleConserves(lines);
    }
  }

  lemma IdleConserves(lines: seq<string>)
    ensures Conserves(lines, IDLE)
  {
  }

  lemma NextConserves(lines: seq<string>, j: Joiner, n: nat, heredocs: Heredocs)
    requires 1 <= n <= |lines| && Conserves(lines, j) && (j.buf == "" <==> j.members == [])
    ensures Conserves(lines, j.Next(n, lines[n - 1], heredocs))
  {
    var line := lines[n - 1];
    hide Squeeze, Content, Strip, Joiner.Settle, Joiner.Take, Joiner.Next, Joiner.Skips;
    NextShape(j, n, line, heredocs);
    if !j.Skips(line) {
      TakeConserves(lines, j, n);
      TakeKeepsOut(j, n, line);
      SettleConserves(lines, j.Take(n, line), heredocs);
    }
  }

  lemma TakeKeepsOut(j: Joiner, n: nat, line: string)
    ensures j.Take(n, line).out == j.out
  {
  }

  lemma SettleConserves(lines: seq<string>, j: Joiner, heredocs: Heredocs)
    requires j.buf != "" && Conserves(lines, j)
    ensures Conserves(lines, j.Settle(heredocs))
  {
    NothingSqueezes(lines);
    hide Squeeze, Content, RStrip, LStrip, StateAt;
    SqueezeStripped(j.buf);
    if EndsInBackslash(RStrip(j.buf)) {
      ContinuationConserves(j.buf);
    }
  }

  lemma NothingSqueezes(lines: seq<string>)
    ensures Squeeze("") == "" == Content(lines, [])
  {
  }

  /**
   Apart from blanks and backslashes a logical line holds exactly the characters of its
   physical lines, in order.
   */
  lemma TextIsConserved(lines: seq<string>, heredocs: Heredocs)
    ensures forall l :: l in Joined(lines, heredocs) ==> Squeeze(l.text) == Content(lines, l.members)
  {
    ContentKept(lines, |lines|, heredocs);
    var j := After(lines, |lines|, heredocs);
    hide Squeeze, Content, RStrip, LStrip, StateAt;
    SqueezeStripped(j.buf);
  }

  // ----- a logical line is one line ----------------------------------------------

  lemma {:induction false} StripOfOneLine(s: string)
    requires '\n' !in s
    ensures '\n' !in RStrip(s) && '\n' !in LStrip(s)
    decreases |s|
  {
    if s != "" {
      if Space(s[0]) {
        StripOfOneLine(s[1..]);
      }
      if Space(s[|s| - 1]) {
        StripOfOneLine(s[..|s| - 1]);
      }
    }
  }

  ghost predicate Single(j: Joiner) {
    '\n' !in j.buf && forall l :: l in j.out ==> '\n' !in l.text
  }

  lemma SettleStaysSingle(j: Joiner, heredocs: Heredocs)
    requires Single(j)
    ensures Single(j.Settle(heredocs)) && forall l :: l in j.Flush() ==> '\n' !in l.text
  {
    hide RStrip, LStrip, StateAt;
    StripOfOneLine(j.buf);
    StripOfOneLine(RStrip(j.buf));
  }

  lemma {:induction false} SingleKept(lines: seq<string>, k: nat, heredocs: Heredocs)
    requires k <= |lines| && forall i :: 0 <= i < |lines| ==> '\n' !in lines[i]
    ensures Single(After(lines, k, heredocs))
  {
    hide After, Joiner.Next, Joiner.Skips, Joiner.Settle, Strip;
    Idle(lines, heredocs);
    if k > 0 {
      SingleKept(lines, k - 1, heredocs);
      OneMore(lines, k, heredocs);
      var j, line := After(lines, k - 1, heredocs), lines[k - 1];
      NextShape(j, k, line, heredocs);
      if !j.Skips(line) {
        SettleStaysSingle(j.Take(k, line), heredocs);
      }
    }
  }

  /** Joining never puts a newline into a line, so no label that is cut from one has a newline. */
  lemma LinesStaySingle(lines: seq<string>, heredocs: Heredocs)
    requires forall i :: 0 <= i < |lines| ==> '\n' !in lines[i]
    ensures forall l :: l in Joined(lines, heredocs) ==> '\n' !in l.text
  {
    SingleKept(lines, |lines|, heredocs);
    SettleStaysSingle(After(lines, |lines|, heredocs), heredocs);
  }
}
