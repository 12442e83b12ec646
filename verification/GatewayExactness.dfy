/**
 The converse of soundness: if every execution of an accepted script emits as many required checks
 as there are sites, the script is pinned.
 */
module GatewayExactness {
  import opened Wrappers
  import opened ShellLists
  import opened GatewaySites
  import opened GatewayLines
  import opened GatewayScript
  import opened GatewayPaths
  import opened GatewayCounts
  import opened GatewaySoundness

  // ----- lines that can run a check at all ---------------------------------------------------------

  predicate CapableLine(c: Checks) {
    HeadSize(c) <= Most(c.line, true)
  }

  /**
   Each scanned line with labels can run one of its checks, and an arm of a one-line conditional
   all of its checks in one execution.
   */
  predicate Capable(s: Script) {
    match s
    case Done => true
    case Then(first, rest) => CapableStmt(first) && Capable(rest)
  }

  predicate CapableStmt(st: Stmt) {
    match st
    case Group(_, _) => true
    case Simple(checks, _) => CapableLine(checks)
    case OneLine(_, yes, no) => |yes.required| <= Most(yes.line, true) && |no.required| <= Most(no.line, true)
    case OneLineLoop(checks) => CapableLine(checks)
    case If(condition, heading, body, tail, _) =>
      HeadSize(condition) <= MostOf(condition) && CapableLine(heading) && Capable(body) && CapableTail(tail)
    case Case(_, arms, _) => CapableArms(arms)
    case Loop(heading, body, _) => CapableLine(heading) && Capable(body)
  }

  predicate CapableTail(t: Tail) {
    match t
    case Fi => true
    case Elif(_, _, body, tail) => Capable(body) && CapableTail(tail)
    case Else(heading, body) => CapableLine(heading) && Capable(body)
  }

  predicate CapableArms(a: Arms) {
    match a
    case Esac => true
    case Arm(_, _, heading, body, next) => CapableLine(heading) && Capable(body) && CapableArms(next)
  }

  /** A line that begins with a command and mixes no optional check in can run its first check. */
  lemma LinesAreCapable(c: Checks)
    requires c.optional == [] && (c.line != [] ==> c.line[0].op.Always?)
    ensures CapableLine(c) && HeadSize(c) <= MostOf(c)
  {
    if c.required != [] {
      FirstIsReached(c.line, false);
    }
  }

  /** An arm of checks joined by `;` or `&&` can run them all. */
  lemma {:induction false} PlainArmsAreCapable(line: seq<Part>)
    requires forall i :: 0 <= i < |line| ==> IsCheck(line[i], false) && !line[i].op.IfFailed?
    ensures Least(line, true) == |line| == |TagsOf(line, false)| == Most(line, true)
  {
    if line != [] {
      PlainArmsAreCapable(line[1..]);
    }
  }

  // ----- an accepted script can emit as many checks as it has sites ------------------------------------

  lemma {:induction false} SizeIsReached(s: Script, ga: string)
    requires Find(s, ga).Some? && Capable(s)
    ensures Within(Size(s), MostRows(s))
    decreases s, 0
  {
    match s
    case Done =>
    case Then(first, rest) =>
      StmtSizeIsReached(first, ga);
      SizeIsReached(rest, FindStmt(first, ga).value.group);
  }

  lemma BodyFound(st: Stmt, ga: string)
    requires st.If? && FindStmt(st, ga).Some?
    ensures Find(st.body, ga).Some?
  {
    FindIf(st, ga);
    hide FindStmt, FindTail, IfBranches, Pair;
  }

  lemma {:induction false} StmtSizeIsReached(st: Stmt, ga: string)
    requires FindStmt(st, ga).Some? && CapableStmt(st)
    ensures Within(SizeStmt(st), MostStmt(st))
    decreases st, 1
  {
    if st.If? {
      var condition, heading, body := st.condition, st.heading, st.body;
      assert Find(body, ga).Some? by { BodyFound(st, ga); }
      SizeIsReached(body, ga);
      JoinLabels(condition, heading);
      hide Find, Capable, CapableTail, MostRows, MostTail, Most, Size, TagsOf, FindStmt, LeastRows;
      assert Within(HeadSize(heading) + Size(body), MostHeaded(heading, body));
    } else {
      InsideSizeIsReached(st, ga);
    }
  }

  /** Some branch of the tail can emit as many as all branches have. */
  lemma TailSizeIsReached(t: Tail, ga: string, n: nat)
    requires FindTail(t, ga).Some? && CapableTail(t) && !t.Fi?
    requires forall b :: 0 <= b < |FindTail(t, ga).value.required| ==> |FindTail(t, ga).value.required[b]| == n
    ensures Within(n, MostTail(t))
  {
    TailSizes(t, ga, n);
    SizeIsReached(t.body, ga);
  }

  /** The first branch of a tail has the size all have, and so have the others. */
  lemma TailSizes(t: Tail, ga: string, n: nat)
    requires FindTail(t, ga).Some? && !t.Fi?
    requires forall b :: 0 <= b < |FindTail(t, ga).value.required| ==> |FindTail(t, ga).value.required[b]| == n
    ensures Find(t.body, ga).Some? && (if t.Elif? then Size(t.body) else HeadSize(t.heading) + Size(t.body)) == n
    ensures t.Elif? ==> FindTail(t.tail, Find(t.body, ga).value.group).Some?
    ensures t.Elif? ==> forall b :: 0 <= b < |FindTail(t.tail, Find(t.body, ga).value.group).value.required| ==>
                          |FindTail(t.tail, Find(t.body, ga).value.group).value.required[b]| == n
  {
    var all := FindTail(t, ga).value.required;
    FoundSize(t.body, ga);
    if t.Elif? {
      var f := Find(t.body, ga).value;
      var next := FindTail(t.tail, f.group).value.required;
      assert all == [f.required] + next && |all[0]| == n;
      assert forall b :: 0 <= b < |next| ==> next[b] == all[b + 1];
    } else {
      assert |all[0]| == n;
    }
  }

  /** In an accepted conditional all branches have the size of its line and first branch. */
  lemma BranchesHaveOneSize(st: Stmt, ga: string, f: Found)
    requires st.If? && FindStmt(st, ga).Some?
    requires Both(CheckSites(Join(st.condition, st.heading), ga), Find(st.body, ga)) == Some(f)
    ensures FindTail(st.tail, f.group).Some?
    ensures forall b :: 0 <= b < |FindTail(st.tail, f.group).value.required| ==>
              |FindTail(st.tail, f.group).value.required[b]| == SizeStmt(st)
    ensures st.tail.Fi? ==> SizeStmt(st) == 0
  {
    FindIf(st, ga);
    hide FindStmt;
    var t := FindTail(st.tail, f.group).value;
    FoundSize(st.body, ga);
    var branches := IfBranches(f, t);
    assert SameSizes(branches) && branches[0] == f.required && |f.required| == SizeStmt(st);
    if t.required != [] {
      assert forall b :: 0 <= b < |t.required| ==> branches[b + 1] == t.required[b];
    }
    if st.tail.Fi? {
      assert branches[1] == [];
    }
  }

  // ----- where both numbers are the size, the script is pinned -----------------------------------------

  lemma RowsInRange(s: Script)
    ensures Within(LeastRows(s), MostRows(s))
  {
    var rows, g2 := LeastRun(s, "");
    RowsBetween(s, "", rows, g2);
  }

  lemma StmtInRange(st: Stmt)
    ensures Within(LeastStmt(st), MostStmt(st))
  {
    var rows, g2 := LeastStmtRun(st, "");
    StmtBetween(st, "", rows, g2);
  }

  /** Two stretches that reach their sizes, and together no more and no less. */
  lemma SumTight(x: Bound, y: Bound, a: nat, b: nat, low: nat, high: nat)
    requires Sum(x, y) == Some(a + b) && Within(a, x) && Within(b, y) && Within(low, x) && Within(high, y) && low + high >= a + b
    ensures x == Some(a) && y == Some(b) && low == a && high == b
  {
  }

  lemma ThenTight(s: Script, ga: string)
    requires s.Then? && Find(s, ga).Some? && Capable(s) && LeastRows(s) >= Size(s) && MostRows(s) == Some(Size(s))
    ensures FindStmt(s.first, ga).Some? && CapableStmt(s.first)
    ensures LeastStmt(s.first) >= SizeStmt(s.first) && MostStmt(s.first) == Some(SizeStmt(s.first))
    ensures var gb := FindStmt(s.first, ga).value.group;
            Find(s.rest, gb).Some? && Capable(s.rest) && LeastRows(s.rest) >= Size(s.rest) && MostRows(s.rest) == Some(Size(s.rest))
  {
    hide FindStmt, CapableStmt, LeastStmt, MostStmt, SizeStmt;
    var first, rest := s.first, s.rest;
    StmtSizeIsReached(first, ga);
    SizeIsReached(rest, FindStmt(first, ga).value.group);
    StmtInRange(first);
    RowsInRange(rest);
    SumTight(MostStmt(first), MostRows(rest), SizeStmt(first), Size(rest), LeastStmt(first), LeastRows(rest));
  }

  lemma {:induction false} Tight(s: Script, ga: string)
    requires Find(s, ga).Some? && Capable(s) && LeastRows(s) >= Size(s) && MostRows(s) == Some(Size(s))
    ensures Pinned(s)
    decreases s, 0
  {
    hide Find, Capable, LeastRows, MostRows, Size, FindStmt, CapableStmt, PinnedStmt, LeastStmt, MostStmt, SizeStmt;
    if s.Then? {
      ThenTight(s, ga);
      TightStmt(s.first, ga);
      Tight(s.rest, FindStmt(s.first, ga).value.group);
    }
  }

  lemma {:induction false} TightStmt(st: Stmt, ga: string)
    requires FindStmt(st, ga).Some? && CapableStmt(st) && LeastStmt(st) >= SizeStmt(st) && MostStmt(st) == Some(SizeStmt(st))
    ensures PinnedStmt(st)
    decreases st, 2
  {
    if st.If? {
      TightIf(st, ga);
    } else {
      hide LeastInside, MostInside, SizeStmt, FindStmt, CapableStmt, PinnedInside, Least, Most;
      LeastIsLess(After(st).line, true);
      LeastIsLess(After(st).line, false);
      LeastIsLess(Before(st).line, true);
      LeastIsLess(Before(st).line, false);
      InsideSizeIsReached(st, ga);
      TightInside(st, ga);
    }
  }

  lemma InsideSizeIsReached(st: Stmt, ga: string)
    requires !st.If? && FindStmt(st, ga).Some? && CapableStmt(st)
    ensures Within(SizeStmt(st), MostInside(st))
  {
  }

  lemma {:induction false} TightInside(st: Stmt, ga: string)
    requires !st.If? && FindStmt(st, ga).Some? && CapableStmt(st)
    requires LeastInside(st) >= SizeStmt(st) && MostInside(st) == Some(SizeStmt(st))
    ensures PinnedInside(st)
    decreases st, 1
  {
    match st
    case Group(_, _) =>
    case Simple(checks, _) => LeastIsLess(checks.line, true);
    case OneLine(_, yes, no) =>
      LeastIsLess(yes.line, true);
      LeastIsLess(no.line, true);
    case OneLineLoop(_) =>
    case Case(word, arms, rest) =>
      CaseIsEmpty(word, arms, rest, ga);
      TightArms(arms, ga);
    case Loop(heading, body, _) =>
      FoundSize(body, ga);
      LeastIsLess(heading.line, true);
      Tight(body, ga);
  }

  /** A branch that can emit exactly `n` checks, all of them its sites. */
  lemma {:induction false} TightHeaded(heading: Checks, body: Script, ga: string)
    requires Find(body, ga).Some? && CapableLine(heading) && Capable(body)
    requires Least(heading.line, true) + LeastRows(body) >= HeadSize(heading) + Size(body)
    requires MostHeaded(heading, body) == Some(HeadSize(heading) + Size(body))
    ensures PinnedLine(heading) && Pinned(body)
    decreases body, 1
  {
    SizeIsReached(body, ga);
    RowsInRange(body);
    LeastIsLess(heading.line, true);
    hide Find, Capable, Pinned, LeastRows, MostRows, Least, Most, Size;
    SumTight(Some(Most(heading.line, true)), MostRows(body), HeadSize(heading), Size(body), Least(heading.line, true), LeastRows(body));
    Tight(body, ga);
  }

  lemma {:induction false} TightIf(st: Stmt, ga: string)
    requires st.If? && FindStmt(st, ga).Some? && CapableStmt(st)
    requires LeastStmt(st) >= SizeStmt(st) && MostStmt(st) == Some(SizeStmt(st))
    ensures PinnedStmt(st)
    decreases st, 1
  {
    hide Find, FindStmt, FindTail, CheckSites, Join, Capable, CapableTail, CapableStmt, LeastRows, MostRows, LeastStmt, MostStmt;
    hide LeastTail, MostTail, Least, Most, Size, SizeStmt, Pinned, PinnedTail, PinnedLine, Quiet, MostHeaded;
    var f := IfParts(st, ga);
    TightHeaded(st.heading, st.body, ga);
    TightTail(st.tail, f.group, SizeStmt(st));
  }

  lemma IfParts(st: Stmt, ga: string) returns (f: Found)
    requires st.If? && FindStmt(st, ga).Some? && CapableStmt(st)
    requires LeastStmt(st) >= SizeStmt(st) && MostStmt(st) == Some(SizeStmt(st))
    ensures var n := SizeStmt(st);
            && st.condition.required == [] && Quiet(After(st)) && n == HeadSize(st.heading) + Size(st.body)
            && Find(st.body, ga).Some? && CapableLine(st.heading) && Capable(st.body) && CapableTail(st.tail)
            && MostHeaded(st.heading, st.body) == Some(n) && Least(st.heading.line, true) + LeastRows(st.body) >= n
            && MostTail(st.tail).Some? && MostTail(st.tail).value <= n && LeastTail(st.tail) >= n
            && FindTail(st.tail, f.group).Some?
            && (forall b :: 0 <= b < |FindTail(st.tail, f.group).value.required| ==>
                  |FindTail(st.tail, f.group).value.required[b]| == n)
    ensures st.heading.required == [] && Size(st.body) == 0 <==> SizeStmt(st) == 0
  {
    FindIf(st, ga);
    f := Both(CheckSites(Join(st.condition, st.heading), ga), Find(st.body, ga)).value;
    BranchesHaveOneSize(st, ga, f);
    ConditionIsEmpty(st, ga, f);
    IfNumbers(st, ga);
    assert st.condition.required == [];
    JoinLabels(st.condition, st.heading);
    hide FindStmt, FindTail, LeastStmt, MostStmt, LeastTail, MostTail, LeastRows, MostRows, Least, Most, Find, Capable, CapableTail;
  }

  /** The first branch takes up all there is, so the tail takes no more and nothing comes after. */
  lemma IfNumbers(st: Stmt, ga: string)
    requires st.If? && Find(st.body, ga).Some? && CapableStmt(st) && st.condition.required == []
    requires LeastStmt(st) >= SizeStmt(st) && MostStmt(st) == Some(SizeStmt(st))
    ensures var n := SizeStmt(st);
            && MostHeaded(st.heading, st.body) == Some(n) && Least(st.heading.line, true) + LeastRows(st.body) >= n
            && MostTail(st.tail).Some? && MostTail(st.tail).value <= n && LeastTail(st.tail) >= n
            && Quiet(After(st))
  {
    hide LeastRows, MostRows, LeastTail, MostTail, Least, Most, Find, Capable, CapableTail, TagsOf, Size, After;
    var n := SizeStmt(st);
    JoinLabels(st.condition, st.heading);
    LeastIsLess(st.condition.line, true);
    LeastIsLess(st.condition.line, false);
    LeastIsLess(After(st).line, true);
    LeastIsLess(After(st).line, false);
    SizeIsReached(st.body, ga);
    assert Within(n, MostHeaded(st.heading, st.body));
  }

  /** A check in the condition would come on top of a branch that already has them all. */
  lemma ConditionIsEmpty(st: Stmt, ga: string, f: Found)
    requires st.If? && FindStmt(st, ga).Some? && CapableStmt(st) && MostStmt(st) == Some(SizeStmt(st))
    requires Both(CheckSites(Join(st.condition, st.heading), ga), Find(st.body, ga)) == Some(f)
    ensures st.condition.required == []
  {
    var n := SizeStmt(st);
    BranchesHaveOneSize(st, ga, f);
    JoinLabels(st.condition, st.heading);
    SizeIsReached(st.body, ga);
    hide FindStmt, FindTail, MostRows, Most;
    if st.condition.required != [] {
      assert Within(HeadSize(st.heading) + Size(st.body), MostHeaded(st.heading, st.body));
      TailSizeIsReached(st.tail, f.group, n);
      assert false;
    }
  }

  lemma ElifTight(t: Tail, ga: string, n: nat)
    requires t.Elif? && FindTail(t, ga).Some? && CapableTail(t) && LeastTail(t) >= n && MostTail(t).Some? && MostTail(t).value <= n
    requires forall b :: 0 <= b < |FindTail(t, ga).value.required| ==> |FindTail(t, ga).value.required[b]| == n
    ensures Quiet(t.condition) && Most(t.heading.line, true) == 0
    ensures Find(t.body, ga).Some? && Capable(t.body) && Size(t.body) == n && LeastRows(t.body) >= n && MostRows(t.body) == Some(n)
    ensures CapableTail(t.tail) && LeastTail(t.tail) >= n && MostTail(t.tail).Some? && MostTail(t.tail).value <= n
  {
    hide Find, FindTail, Capable, LeastRows, MostRows, Least, Most, Size, MostHeaded;
    TailSizes(t, ga, n);
    ElifNumbers(t);
    SizeIsReached(t.body, ga);
    RowsInRange(t.body);
    LeastIsLess(t.heading.line, true);
    LeastIsLess(t.condition.line, true);
    LeastIsLess(t.condition.line, false);
  }

  lemma ElifNumbers(t: Tail)
    requires t.Elif? && CapableTail(t) && MostTail(t).Some?
    ensures Capable(t.body) && CapableTail(t.tail) && MostRows(t.body).Some? && MostTail(t.tail).Some?
    ensures MostTail(t).value == MostOf(t.condition) + Max(Most(t.heading.line, true) + MostRows(t.body).value, MostTail(t.tail).value)
    ensures LeastTail(t) == LeastOf(t.condition) + Min(Least(t.heading.line, true) + LeastRows(t.body), LeastTail(t.tail))
  {
    hide Capable, MostRows, LeastRows, Most, Least;
  }

  lemma {:induction false} TightTail(t: Tail, ga: string, n: nat)
    requires FindTail(t, ga).Some? && CapableTail(t) && LeastTail(t) >= n && MostTail(t).Some? && MostTail(t).value <= n
    requires forall b :: 0 <= b < |FindTail(t, ga).value.required| ==> |FindTail(t, ga).value.required[b]| == n
    ensures PinnedTail(t) && (!EndsInElse(t) ==> n == 0)
    decreases t, 0
  {
    hide Find, Capable, LeastRows, MostRows, Least, Most, Size, Pinned, PinnedLine, Quiet;
    match t
    case Fi =>
    case Elif(_, _, body, tail) =>
      hide FindTail, CapableTail, LeastTail, MostTail;
      TailSizes(t, ga, n);
      ElifTight(t, ga, n);
      Tight(body, ga);
      TightTail(tail, Find(body, ga).value.group, n);
    case Else(heading, body) =>
      TailSizes(t, ga, n);
      SizeIsReached(body, ga);
      TightHeaded(heading, body, ga);
  }

  lemma {:induction false} TightArms(a: Arms, ga: string)
    requires FindArms(a, ga).Some? && CapableArms(a) && MostArms(a) == Some(0)
    requires forall b :: 0 <= b < |FindArms(a, ga).value.required| ==> FindArms(a, ga).value.required[b] == []
    ensures PinnedArms(a)
    decreases a, 0
  {
    hide Find, FindArms, CheckSites, Capable, CapableLine, MostRows, MostHeaded, Size, Pinned, PinnedLine, Least, Most, LeastRows;
    if a.Arm? {
      ArmSizes(a, ga);
      ArmNumbers(a);
      TightHeaded(a.heading, a.body, ga);
      TightArms(a.next, Both(CheckSites(a.heading, ga), Find(a.body, ga)).value.group);
    }
  }

  lemma ArmNumbers(a: Arms)
    requires a.Arm? && MostArms(a) == Some(0)
    ensures MostHeaded(a.heading, a.body) == Some(0) && MostArms(a.next) == Some(0)
  {
  }

  lemma ArmSizes(a: Arms, ga: string)
    requires a.Arm? && FindArms(a, ga).Some?
    requires forall b :: 0 <= b < |FindArms(a, ga).value.required| ==> FindArms(a, ga).value.required[b] == []
    ensures Both(CheckSites(a.heading, ga), Find(a.body, ga)).Some?
    ensures var f := Both(CheckSites(a.heading, ga), Find(a.body, ga)).value;
            && Find(a.body, ga).Some? && HeadSize(a.heading) + Size(a.body) == 0 && FindArms(a.next, f.group).Some?
            && forall b :: 0 <= b < |FindArms(a.next, f.group).value.required| ==> FindArms(a.next, f.group).value.required[b] == []
  {
    var all := FindArms(a, ga).value.required;
    var f := Both(CheckSites(a.heading, ga), Find(a.body, ga)).value;
    var next := FindArms(a.next, f.group).value.required;
    assert all == [f.required] + next && all[0] == [];
    assert forall b :: 0 <= b < |next| ==> next[b] == all[b + 1];
    FoundSize(a.body, ga);
  }

  // ----- the main result -----------------------------------------------------------------------------------

  /**
   For an accepted script: every execution emits exactly the found required checks, one after
   the other under one of their labels, if and only if the script is pinned.
   */
  lemma PinnedIsExact(s: Script, g: string)
    requires Find(s, g).Some? && Capable(s)
    ensures Pinned(s) <==>
            forall rows, g2 :: Runs(s, g, rows, g2) ==> Matches(Required(rows), Find(s, g).value.required, false)
  {
    FoundSize(s, g);
    if Pinned(s) {
      forall rows, g2 | Runs(s, g, rows, g2)
        ensures Matches(Required(rows), Find(s, g).value.required, false)
      {
        Sound(s, g, g, rows, g2, Follow(false, false));
      }
    } else {
      if LeastRows(s) == Size(s) && MostRows(s) == Some(Size(s)) {
        Tight(s, g);
        assert false;
      }
      var rows, g2 := OffCount(s, g, Size(s));
      assert Runs(s, g, rows, g2) && !Matches(Required(rows), Find(s, g).value.required, false);
    }
  }
}
