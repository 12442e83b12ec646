/**
 When the group of every required site is right: `group` lines inside conditionals and loops make
 the group of a check depend on the path, while its site has the group the text ends up in.
 */
module GatewayGroups {
  import opened Wrappers
  import opened ShellLists
  import opened GatewaySites
  import opened GatewayLines
  import opened GatewayScript
  import opened GatewayPaths
  import opened GatewayCounts
  import opened GatewaySoundness
  import opened GatewayExactness

  // ----- the groups a script can end in ---------------------------------------------------------

  /** The groups that the last `group` line on some path names. */
  function Ends(s: Script): set<string> {
    match s
    case Done => {}
    case Then(first, rest) => Ends(rest) + if Passes(rest) then EndsStmt(first) else {}
  }

  /** Some path meets no `group` line. */
  predicate Passes(s: Script) {
    match s
    case Done => true
    case Then(first, rest) => PassesStmt(first) && Passes(rest)
  }

  function EndsStmt(st: Stmt): set<string> {
    match st
    case Group(name, _) => {name}
    case If(_, _, body, tail, _) => Ends(body) + EndsTail(tail)
    case Case(_, arms, _) => EndsArms(arms)
    case Loop(_, body, _) => Ends(body)
    case _ => {}
  }

  predicate PassesStmt(st: Stmt) {
    match st
    case Group(_, _) => false
    case If(_, _, body, tail, _) => Passes(body) || PassesTail(tail)
    case Case(_, arms, _) => !HasDefault(arms) || PassesArms(arms)
    case _ => true
  }

  function EndsTail(t: Tail): set<string> {
    match t
    case Fi => {}
    case Elif(_, _, body, tail) => Ends(body) + EndsTail(tail)
    case Else(_, body) => Ends(body)
  }

  predicate PassesTail(t: Tail) {
    match t
    case Fi => true
    case Elif(_, _, body, tail) => Passes(body) || PassesTail(tail)
    case Else(_, body) => Passes(body)
  }

  function EndsArms(a: Arms): set<string> {
    match a
    case Esac => {}
    case Arm(_, _, _, body, next) => Ends(body) + EndsArms(next)
  }

  predicate PassesArms(a: Arms) {
    match a
    case Esac => false
    case Arm(_, _, _, body, next) => Passes(body) || PassesArms(next)
  }

  /** The groups in effect after a script that started in `g`. */
  function Out(s: Script, g: string): set<string> {
    Ends(s) + if Passes(s) then {g} else {}
  }

  function OutStmt(st: Stmt, g: string): set<string> {
    EndsStmt(st) + if PassesStmt(st) then {g} else {}
  }

  function OutTail(t: Tail, g: string): set<string> {
    EndsTail(t) + if PassesTail(t) then {g} else {}
  }

  function OutArms(a: Arms, g: string): set<string> {
    EndsArms(a) + if PassesArms(a) then {g} else {}
  }

  // ----- every execution ends in one of them ---------------------------------------------------

  lemma {:induction false} RunEnds(s: Script, g: string, rows: seq<Row>, g2: string)
    requires Runs(s, g, rows, g2)
    ensures g2 in Out(s, g)
    decreases s, 0
  {
    match s
    case Done =>
    case Then(first, rest) =>
      var k: nat, m: string :| k <= |rows| && RunsStmt(first, g, rows[..k], m) && Runs(rest, m, rows[k..], g2);
      StmtEnds(first, g, rows[..k], m);
      RunEnds(rest, m, rows[k..], g2);
  }

  lemma {:induction false} StmtEnds(st: Stmt, g: string, rows: seq<Row>, g2: string)
    requires RunsStmt(st, g, rows, g2)
    ensures g2 in OutStmt(st, g)
    decreases st, 1
  {
    var i: nat, j: nat :| i <= j <= |rows| && MayRun(Before(st), g, rows[..i]) && RunsInside(st, g, rows[i..j], g2)
                          && MayRun(After(st), g2, rows[j..]);
    InsideEnds(st, g, rows[i..j], g2);
  }

  lemma {:induction false} InsideEnds(st: Stmt, g: string, rows: seq<Row>, g2: string)
    requires RunsInside(st, g, rows, g2)
    ensures g2 in OutStmt(st, g)
    decreases st, 0
  {
    match st
    case If(_, heading, body, tail, _) =>
      if RunsHeaded(heading, body, g, rows, g2) {
        HeadedEnds(heading, body, g, rows, g2);
      } else {
        TailEnds(tail, g, rows, g2);
      }
    case Case(_, arms, _) =>
      if RunsArms(arms, g, rows, g2) {
        ArmsEnd(arms, g, rows, g2);
      }
    case Loop(heading, body, _) =>
      var n: nat :| RunsLoop(heading, body, n, g, rows, g2);
      LoopEnds(heading, body, n, g, rows, g2);
    case _ =>
  }

  lemma {:induction false} HeadedEnds(heading: Checks, body: Script, g: string, rows: seq<Row>, g2: string)
    requires RunsHeaded(heading, body, g, rows, g2)
    ensures g2 in Out(body, g)
    decreases body, 1
  {
    var k: nat :| k <= |rows| && LineRuns(heading, g, rows[..k]) && Runs(body, g, rows[k..], g2);
    RunEnds(body, g, rows[k..], g2);
  }

  lemma {:induction false} TailEnds(t: Tail, g: string, rows: seq<Row>, g2: string)
    requires RunsTail(t, g, rows, g2)
    ensures g2 in OutTail(t, g)
    decreases t, 0
  {
    match t
    case Fi =>
    case Elif(condition, heading, body, tail) =>
      var k: nat :| k <= |rows| && MayRun(condition, g, rows[..k])
                    && (RunsHeaded(heading, body, g, rows[k..], g2) || RunsTail(tail, g, rows[k..], g2));
      if RunsHeaded(heading, body, g, rows[k..], g2) {
        HeadedEnds(heading, body, g, rows[k..], g2);
      } else {
        TailEnds(tail, g, rows[k..], g2);
      }
    case Else(heading, body) => HeadedEnds(heading, body, g, rows, g2);
  }

  lemma {:induction false} ArmsEnd(a: Arms, g: string, rows: seq<Row>, g2: string)
    requires RunsArms(a, g, rows, g2)
    ensures g2 in OutArms(a, g)
    decreases a, 0
  {
    if RunsHeaded(a.heading, a.body, g, rows, g2) {
      HeadedEnds(a.heading, a.body, g, rows, g2);
    } else {
      ArmsEnd(a.next, g, rows, g2);
    }
  }

  lemma {:induction false} LoopEnds(heading: Checks, body: Script, n: nat, g: string, rows: seq<Row>, g2: string)
    requires RunsLoop(heading, body, n, g, rows, g2)
    ensures g2 == g || g2 in Ends(body)
    decreases body, 2, n
  {
    if n > 0 {
      var k: nat, m: string :|
        k <= |rows| && RunsHeaded(heading, body, g, rows[..k], m) && RunsLoop(heading, body, n - 1, m, rows[k..], g2);
      HeadedEnds(heading, body, g, rows[..k], m);
      LoopEnds(heading, body, n - 1, m, rows[k..], g2);
    }
  }

  // ----- each of them is reached ------------------------------------------------------------------

  lemma {:induction false} OutIsNotEmpty(s: Script)
    ensures Passes(s) || Ends(s) != {}
    decreases s, 0
  {
    if s.Then? {
      OutIsNotEmpty(s.rest);
      StmtOutIsNotEmpty(s.first);
    }
  }

  lemma {:induction false} StmtOutIsNotEmpty(st: Stmt)
    ensures PassesStmt(st) || EndsStmt(st) != {}
    decreases st, 0
  {
    match st
    case Group(name, _) => assert name in EndsStmt(st);
    case If(_, _, body, tail, _) => OutIsNotEmpty(body);
    case Case(_, arms, _) =>
      if arms.Arm? {
        OutIsNotEmpty(arms.body);
      }
    case _ =>
  }

  lemma SomeOut(s: Script, g: string) returns (m: string)
    ensures m in Out(s, g)
  {
    OutIsNotEmpty(s);
    m :| m in Out(s, g);
  }

  lemma SomeOutStmt(st: Stmt, g: string) returns (m: string)
    ensures m in OutStmt(st, g)
  {
    StmtOutIsNotEmpty(st);
    m :| m in OutStmt(st, g);
  }

  lemma {:induction false} Reach(s: Script, g: string, g2: string) returns (rows: seq<Row>)
    requires g2 in Out(s, g)
    ensures Runs(s, g, rows, g2)
    decreases s, 0
  {
    match s
    case Done => rows := [];
    case Then(first, rest) =>
      var m: string;
      if g2 in Ends(rest) {
        m := SomeOutStmt(first, g);
      } else {
        m := g2;
      }
      var a := ReachStmt(first, g, m);
      var b := Reach(rest, m, g2);
      RunsInTurn(first, rest, g, a, m, b, g2);
      rows := a + b;
  }

  lemma {:induction false} ReachStmt(st: Stmt, g: string, g2: string) returns (rows: seq<Row>)
    requires g2 in OutStmt(st, g)
    ensures RunsStmt(st, g, rows, g2)
    decreases st, 1
  {
    var r := ReachInside(st, g, g2);
    var a := SomeMayRun(Before(st), g, false);
    var b := SomeMayRun(After(st), g2, false);
    Surrounded(st, g, a, r, g2, b);
    rows := a + r + b;
  }

  lemma {:induction false} ReachInside(st: Stmt, g: string, g2: string) returns (rows: seq<Row>)
    requires g2 in OutStmt(st, g)
    ensures RunsInside(st, g, rows, g2)
    decreases st, 0
  {
    match st
    case Group(_, _) => rows := [];
    case Simple(checks, _) => rows := SomeLine(checks, g, false);
    case OneLine(_, yes, _) => rows := SomeLine(yes, g, false);
    case OneLineLoop(checks) =>
      assert Repeats(checks, 0, g, []);
      rows := [];
    case If(_, heading, body, tail, _) =>
      if g2 in Out(body, g) {
        rows := ReachHeaded(heading, body, g, g2);
      } else {
        rows := ReachTail(tail, g, g2);
      }
    case Case(_, arms, _) =>
      if g2 in OutArms(arms, g) {
        rows := ReachArms(arms, g, g2);
      } else {
        rows := [];
      }
    case Loop(heading, body, _) =>
      if g2 in Ends(body) {
        rows := ReachHeaded(heading, body, g, g2);
        OneIteration(heading, body, g, rows, g2);
      } else {
        rows := [];
        assert RunsLoop(heading, body, 0, g, rows, g2);
      }
  }

  lemma OneIteration(heading: Checks, body: Script, g: string, rows: seq<Row>, g2: string)
    requires RunsHeaded(heading, body, g, rows, g2)
    ensures RunsLoop(heading, body, 1, g, rows, g2)
  {
    assert rows[..|rows|] == rows && rows[|rows|..] == [];
    assert RunsLoop(heading, body, 0, g2, [], g2);
  }

  lemma {:induction false} ReachHeaded(heading: Checks, body: Script, g: string, g2: string) returns (rows: seq<Row>)
    requires g2 in Out(body, g)
    ensures RunsHeaded(heading, body, g, rows, g2)
    decreases body, 1
  {
    var a := SomeLine(heading, g, false);
    var b := Reach(body, g, g2);
    HeadedRuns(heading, body, g, a, b, g2);
    rows := a + b;
  }

  lemma {:induction false} ReachTail(t: Tail, g: string, g2: string) returns (rows: seq<Row>)
    requires g2 in OutTail(t, g)
    ensures RunsTail(t, g, rows, g2)
    decreases t, 0
  {
    match t
    case Fi => rows := [];
    case Elif(condition, heading, body, tail) =>
      var b: seq<Row>;
      if g2 in Out(body, g) {
        b := ReachHeaded(heading, body, g, g2);
      } else {
        b := ReachTail(tail, g, g2);
      }
      var c := SomeMayRun(condition, g, false);
      ElifRuns(t, g, c, b, g2);
      rows := c + b;
    case Else(heading, body) => rows := ReachHeaded(heading, body, g, g2);
  }

  lemma {:induction false} ReachArms(a: Arms, g: string, g2: string) returns (rows: seq<Row>)
    requires g2 in OutArms(a, g)
    ensures RunsArms(a, g, rows, g2)
    decreases a, 0
  {
    if g2 in Out(a.body, g) {
      rows := ReachHeaded(a.heading, a.body, g, g2);
    } else {
      rows := ReachArms(a.next, g, g2);
    }
  }

  /** The groups a script can end in are exactly those computed. */
  lemma OutIsExact(s: Script, g: string, g2: string)
    ensures g2 in Out(s, g) <==> exists rows :: Runs(s, g, rows, g2)
  {
    if g2 in Out(s, g) {
      var rows := Reach(s, g, g2);
      assert Runs(s, g, rows, g2);
    }
    if rows :| Runs(s, g, rows, g2) {
      RunEnds(s, g, rows, g2);
    }
  }

  // ----- the groups of the required rows -----------------------------------------------------------

  /** The groups of the required rows are those expected. */
  predicate InGroups(rows: seq<Row>, e: seq<string>) {
    |Required(rows)| == |e| && forall i :: 0 <= i < |e| ==> Required(rows)[i].group == e[i]
  }

  predicate AllAre(e: seq<string>, g: string) {
    forall i :: 0 <= i < |e| ==> e[i] == g
  }

  /** On every path each required check runs in the group expected at its place. */
  predicate Agree(s: Script, g: string, e: seq<string>)
    decreases s, 0
  {
    match s
    case Done => true
    case Then(first, rest) =>
      var n := SizeStmt(first);
      && n <= |e| && AgreeStmt(first, g, e[..n])
      && forall m :: m in OutStmt(first, g) ==> Agree(rest, m, e[n..])
  }

  predicate AgreeStmt(st: Stmt, g: string, e: seq<string>)
    decreases st, 0
  {
    match st
    case Simple(_, _) => AllAre(e, g)
    case OneLine(_, _, _) => AllAre(e, g)
    case If(_, heading, body, tail, _) => AgreeHeaded(heading, body, g, e) && AgreeTail(tail, g, e)
    case _ => true
  }

  predicate AgreeHeaded(heading: Checks, body: Script, g: string, e: seq<string>)
    decreases body, 1
  {
    var n := HeadSize(heading);
    n <= |e| && AllAre(e[..n], g) && Agree(body, g, e[n..])
  }

  predicate AgreeTail(t: Tail, g: string, e: seq<string>)
    decreases t, 0
  {
    match t
    case Fi => true
    case Elif(_, _, body, tail) => Agree(body, g, e) && AgreeTail(tail, g, e)
    case Else(heading, body) => AgreeHeaded(heading, body, g, e)
  }

  // ----- sizes of executions ------------------------------------------------------------------------

  lemma SizeOfStmtRun(st: Stmt, ga: string, g: string, rows: seq<Row>, g2: string)
    requires FindStmt(st, ga).Some? && PinnedStmt(st) && RunsStmt(st, g, rows, g2)
    ensures |Required(rows)| == SizeStmt(st)
  {
    SoundStmt(st, ga, g, rows, g2, Follow(false, false));
    FoundStmtSize(st, ga);
  }

  lemma JoinGroups(a: seq<Row>, b: seq<Row>, e: seq<string>, n: nat)
    requires n <= |e| && |Required(a)| == n
    ensures InGroups(a + b, e) <==> InGroups(a, e[..n]) && InGroups(b, e[n..])
  {
    OnlyConcat(a, b, false);
    hide Only;
    var r := Required(a) + Required(b);
    if InGroups(a + b, e) {
      assert forall i :: 0 <= i < n ==> r[i] == Required(a)[i];
      assert forall i :: 0 <= i < |Required(b)| ==> r[n + i] == Required(b)[i];
    }
  }

  lemma SplitGroups(rows: seq<Row>, k: nat, e: seq<string>, n: nat)
    requires k <= |rows| && n <= |e| && |Required(rows[..k])| == n
    ensures InGroups(rows, e) <==> InGroups(rows[..k], e[..n]) && InGroups(rows[k..], e[n..])
  {
    assert rows[..k] + rows[k..] == rows;
    JoinGroups(rows[..k], rows[k..], e, n);
  }

  /** Rows around others that bring no required one do not matter. */
  lemma QuietAround(rows: seq<Row>, i: nat, j: nat, e: seq<string>)
    requires i <= j <= |rows| && Required(rows[..i]) == [] && Required(rows[j..]) == []
    ensures InGroups(rows, e) <==> InGroups(rows[i..j], e)
  {
    SplitRows(rows, j);
    assert rows[..j][..i] == rows[..i] && rows[..j][i..] == rows[i..j];
    SplitRows(rows[..j], i);
    hide Only;
    assert Required(rows) == Required(rows[i..j]);
  }

  lemma QuietRun(c: Checks, g: string, rows: seq<Row>)
    requires MayRun(c, g, rows) && Quiet(c)
    ensures Required(rows) == []
  {
    MayRunBetween(c, g, rows);
  }

  lemma BeforeIsQuiet(st: Stmt)
    requires PinnedStmt(st)
    ensures Quiet(Before(st))
  {
    LeastIsLess(Before(st).line, true);
    LeastIsLess(Before(st).line, false);
  }

  /** The rows of a pinned line are as many as it has sites, all in the group of the run. */
  lemma LineGroups(c: Checks, g: string, rows: seq<Row>, e: seq<string>)
    requires LineRuns(c, g, rows) && ((PinnedLine(c) && |e| == HeadSize(c)) || (PinnedArm(c) && |e| == |c.required|))
    ensures InGroups(rows, e) <==> AllAre(e, g)
    ensures |Required(rows)| == |e|
  {
    EmitsBetween(c.line, true, g, rows);
    LinePicks(c, g, rows);
    hide Emits, Picks, Only, Least, Most, TagsOf;
  }

  // ----- agreement is enough ----------------------------------------------------------------------------

  lemma {:induction false} AgreeHolds(s: Script, ga: string, g: string, e: seq<string>, rows: seq<Row>, g2: string)
    requires Find(s, ga).Some? && Pinned(s) && |e| == Size(s) && Agree(s, g, e) && Runs(s, g, rows, g2)
    ensures InGroups(rows, e)
    decreases s, 0
  {
    match s
    case Done =>
    case Then(first, rest) =>
      var k: nat, m: string :| k <= |rows| && RunsStmt(first, g, rows[..k], m) && Runs(rest, m, rows[k..], g2);
      var n := SizeStmt(first);
      SizeOfStmtRun(first, ga, g, rows[..k], m);
      StmtEnds(first, g, rows[..k], m);
      AgreeStmtHolds(first, ga, g, e[..n], rows[..k], m);
      AgreeHolds(rest, FindStmt(first, ga).value.group, m, e[n..], rows[k..], g2);
      SplitGroups(rows, k, e, n);
  }

  lemma {:induction false} AgreeStmtHolds(st: Stmt, ga: string, g: string, e: seq<string>, rows: seq<Row>, g2: string)
    requires FindStmt(st, ga).Some? && PinnedStmt(st) && |e| == SizeStmt(st) && AgreeStmt(st, g, e) && RunsStmt(st, g, rows, g2)
    ensures InGroups(rows, e)
    decreases st, 1
  {
    SizeOfStmtRun(st, ga, g, rows, g2);
    if st.Simple? || st.OneLine? || st.If? {
      var i: nat, j: nat :| i <= j <= |rows| && MayRun(Before(st), g, rows[..i]) && RunsInside(st, g, rows[i..j], g2)
                            && MayRun(After(st), g2, rows[j..]);
      BeforeIsQuiet(st);
      QuietRun(Before(st), g, rows[..i]);
      QuietRun(After(st), g2, rows[j..]);
      QuietAround(rows, i, j, e);
      AgreeInsideHolds(st, ga, g, e, rows[i..j], g2);
    }
  }

  lemma {:induction false} AgreeInsideHolds(st: Stmt, ga: string, g: string, e: seq<string>, rows: seq<Row>, g2: string)
    requires st.Simple? || st.OneLine? || st.If?
    requires FindStmt(st, ga).Some? && PinnedStmt(st) && |e| == SizeStmt(st) && AgreeStmt(st, g, e) && RunsInside(st, g, rows, g2)
    ensures InGroups(rows, e)
    decreases st, 0
  {
    if st.Simple? {
      LineGroups(st.checks, g, rows, e);
    } else if st.OneLine? {
      LineGroups(if LineRuns(st.yes, g, rows) then st.yes else st.no, g, rows, e);
    } else {
      var f := Both(CheckSites(Join(st.condition, st.heading), ga), Find(st.body, ga)).value;
      IfSizes(st, ga, f);
      if RunsHeaded(st.heading, st.body, g, rows, g2) {
        AgreeHeadedHolds(st.heading, st.body, ga, g, e, rows, g2);
      } else {
        AgreeTailHolds(st.tail, f.group, g, e, rows, g2);
      }
    }
  }

  /** In an accepted and pinned conditional all branches have one size, and none if one may be skipped. */
  lemma IfSizes(st: Stmt, ga: string, f: Found)
    requires st.If? && FindStmt(st, ga).Some? && PinnedStmt(st)
    requires Both(CheckSites(Join(st.condition, st.heading), ga), Find(st.body, ga)) == Some(f)
    ensures SizeStmt(st) == HeadSize(st.heading) + Size(st.body)
    ensures FindTail(st.tail, f.group).Some?
    ensures forall b :: 0 <= b < |FindTail(st.tail, f.group).value.required| ==>
              |FindTail(st.tail, f.group).value.required[b]| == SizeStmt(st)
    ensures !EndsInElse(st.tail) ==> SizeStmt(st) == 0
  {
    BranchesHaveOneSize(st, ga, f);
    JoinLabels(st.condition, st.heading);
    hide FindStmt, Find, FindTail, TagsOf, Least, Most;
    assert st.condition.required + st.heading.required == st.heading.required;
  }

  lemma {:induction false} AgreeHeadedHolds(heading: Checks, body: Script, ga: string, g: string, e: seq<string>, rows: seq<Row>, g2: string)
    requires Find(body, ga).Some? && Pinned(body) && |e| == HeadSize(heading) + Size(body)
    requires PinnedLine(heading) && AgreeHeaded(heading, body, g, e) && RunsHeaded(heading, body, g, rows, g2)
    ensures InGroups(rows, e)
    decreases body, 1
  {
    var k: nat :| k <= |rows| && LineRuns(heading, g, rows[..k]) && Runs(body, g, rows[k..], g2);
    var n := HeadSize(heading);
    AgreeHolds(body, ga, g, e[n..], rows[k..], g2);
    LineGroups(heading, g, rows[..k], e[..n]);
    SplitGroups(rows, k, e, n);
  }

  /** Behind an `elif` only the body counts. */
  lemma {:induction false} AgreeBodyHolds(heading: Checks, body: Script, ga: string, g: string, e: seq<string>, rows: seq<Row>, g2: string)
    requires Find(body, ga).Some? && Pinned(body) && |e| == Size(body) && Most(heading.line, true) == 0
    requires Agree(body, g, e) && RunsHeaded(heading, body, g, rows, g2)
    ensures InGroups(rows, e)
    decreases body, 1
  {
    var k: nat :| k <= |rows| && LineRuns(heading, g, rows[..k]) && Runs(body, g, rows[k..], g2);
    EmitsBetween(heading.line, true, g, rows[..k]);
    AgreeHolds(body, ga, g, e, rows[k..], g2);
    SplitGroups(rows, k, e, 0);
    assert e[0..] == e;
  }

  lemma {:induction false} AgreeTailHolds(t: Tail, ga: string, g: string, e: seq<string>, rows: seq<Row>, g2: string)
    requires FindTail(t, ga).Some? && PinnedTail(t) && AgreeTail(t, g, e) && RunsTail(t, g, rows, g2)
    requires forall b :: 0 <= b < |FindTail(t, ga).value.required| ==> |FindTail(t, ga).value.required[b]| == |e|
    requires !EndsInElse(t) ==> e == []
    ensures InGroups(rows, e)
    decreases t, 0
  {
    match t
    case Fi =>
    case Elif(condition, heading, body, tail) =>
      var k: nat :| k <= |rows| && MayRun(condition, g, rows[..k])
                    && (RunsHeaded(heading, body, g, rows[k..], g2) || RunsTail(tail, g, rows[k..], g2));
      QuietRun(condition, g, rows[..k]);
      var none: seq<Row> := [];
      assert rows[|rows|..] == none && rows[k..|rows|] == rows[k..];
      QuietAround(rows, k, |rows|, e);
      TailSizes(t, ga, |e|);
      if RunsHeaded(heading, body, g, rows[k..], g2) {
        AgreeBodyHolds(heading, body, ga, g, e, rows[k..], g2);
      } else {
        AgreeTailHolds(tail, Find(body, ga).value.group, g, e, rows[k..], g2);
      }
    case Else(heading, body) =>
      TailSizes(t, ga, |e|);
      AgreeHeadedHolds(heading, body, ga, g, e, rows, g2);
  }

  // ----- and it is needed ----------------------------------------------------------------------------------

  lemma {:induction false} Disagree(s: Script, ga: string, g: string, e: seq<string>) returns (rows: seq<Row>, g2: string)
    requires Find(s, ga).Some? && Pinned(s) && |e| == Size(s) && !Agree(s, g, e)
    ensures Runs(s, g, rows, g2) && !InGroups(rows, e)
    decreases s, 0
  {
    var first, rest := s.first, s.rest;
    var n := SizeStmt(first);
    var a, b: seq<Row>, m: string;
    if !AgreeStmt(first, g, e[..n]) {
      a, m := DisagreeStmt(first, ga, g, e[..n]);
      g2 := SomeOut(rest, m);
      b := Reach(rest, m, g2);
    } else {
      m :| m in OutStmt(first, g) && !Agree(rest, m, e[n..]);
      a := ReachStmt(first, g, m);
      b, g2 := Disagree(rest, FindStmt(first, ga).value.group, m, e[n..]);
    }
    SizeOfStmtRun(first, ga, g, a, m);
    RunsInTurn(first, rest, g, a, m, b, g2);
    JoinGroups(a, b, e, n);
    rows := a + b;
  }

  lemma {:induction false} DisagreeStmt(st: Stmt, ga: string, g: string, e: seq<string>) returns (rows: seq<Row>, g2: string)
    requires FindStmt(st, ga).Some? && PinnedStmt(st) && |e| == SizeStmt(st) && !AgreeStmt(st, g, e)
    ensures RunsStmt(st, g, rows, g2) && !InGroups(rows, e)
    decreases st, 1
  {
    var r, m := DisagreeInside(st, ga, g, e);
    var a := SomeMayRun(Before(st), g, false);
    var b := SomeMayRun(After(st), m, false);
    BeforeIsQuiet(st);
    QuietRun(Before(st), g, a);
    QuietRun(After(st), m, b);
    Surrounded(st, g, a, r, m, b);
    rows, g2 := a + r + b, m;
    var i, j := |a|, |a| + |r|;
    assert rows[..i] == a && rows[i..j] == r && rows[j..] == b;
    QuietAround(rows, i, j, e);
  }

  lemma {:induction false} DisagreeInside(st: Stmt, ga: string, g: string, e: seq<string>) returns (rows: seq<Row>, g2: string)
    requires FindStmt(st, ga).Some? && PinnedStmt(st) && |e| == SizeStmt(st) && !AgreeStmt(st, g, e)
    ensures RunsInside(st, g, rows, g2) && !InGroups(rows, e)
    decreases st, 0
  {
    match st
    case Simple(checks, _) =>
      g2 := g;
      rows := SomeLine(checks, g, false);
      LineGroups(checks, g, rows, e);
    case OneLine(_, yes, _) =>
      g2 := g;
      rows := SomeLine(yes, g, false);
      LineGroups(yes, g, rows, e);
    case If(_, heading, body, tail, _) =>
      var f := Both(CheckSites(Join(st.condition, heading), ga), Find(body, ga)).value;
      IfSizes(st, ga, f);
      if !AgreeHeaded(heading, body, g, e) {
        rows, g2 := DisagreeHeaded(heading, body, ga, g, e);
      } else {
        rows, g2 := DisagreeTail(tail, f.group, g, e);
      }
  }

  lemma {:induction false} DisagreeHeaded(heading: Checks, body: Script, ga: string, g: string, e: seq<string>)
    returns (rows: seq<Row>, g2: string)
    requires Find(body, ga).Some? && Pinned(body) && PinnedLine(heading)
    requires |e| == HeadSize(heading) + Size(body) && !AgreeHeaded(heading, body, g, e)
    ensures RunsHeaded(heading, body, g, rows, g2) && !InGroups(rows, e)
    decreases body, 1
  {
    var n := HeadSize(heading);
    var b: seq<Row>;
    if Agree(body, g, e[n..]) {
      g2 := SomeOut(body, g);
      b := Reach(body, g, g2);
    } else {
      b, g2 := Disagree(body, ga, g, e[n..]);
    }
    var a := SomeLine(heading, g, false);
    HeadedRuns(heading, body, g, a, b, g2);
    LineGroups(heading, g, a, e[..n]);
    JoinGroups(a, b, e, n);
    rows := a + b;
  }

  lemma {:induction false} DisagreeTail(t: Tail, ga: string, g: string, e: seq<string>) returns (rows: seq<Row>, g2: string)
    requires FindTail(t, ga).Some? && PinnedTail(t) && !AgreeTail(t, g, e)
    requires forall b :: 0 <= b < |FindTail(t, ga).value.required| ==> |FindTail(t, ga).value.required[b]| == |e|
    ensures RunsTail(t, g, rows, g2) && !InGroups(rows, e)
    decreases t, 0
  {
    TailSizes(t, ga, |e|);
    if t.Else? {
      rows, g2 := DisagreeHeaded(t.heading, t.body, ga, g, e);
    } else {
      var c := SomeMayRun(t.condition, g, false);
      QuietRun(t.condition, g, c);
      if !Agree(t.body, g, e) {
        rows, g2 := DisagreeBody(t.heading, t.body, ga, g, e);
      } else {
        rows, g2 := DisagreeTail(t.tail, Find(t.body, ga).value.group, g, e);
      }
      ElifRuns(t, g, c, rows, g2);
      JoinGroups(c, rows, e, 0);
      assert e[0..] == e;
      rows := c + rows;
    }
  }

  lemma {:induction false} DisagreeBody(heading: Checks, body: Script, ga: string, g: string, e: seq<string>)
    returns (rows: seq<Row>, g2: string)
    requires Find(body, ga).Some? && Pinned(body) && Most(heading.line, true) == 0 && |e| == Size(body) && !Agree(body, g, e)
    ensures RunsHeaded(heading, body, g, rows, g2) && !InGroups(rows, e)
    decreases body, 1
  {
    var a := SomeLine(heading, g, true);
    var b;
    b, g2 := Disagree(body, ga, g, e);
    HeadedRuns(heading, body, g, a, b, g2);
    JoinGroups(a, b, e, 0);
    assert e[0..] == e;
    rows := a + b;
  }

  // ----- the main result --------------------------------------------------------------------------------------

  function GroupsOf(sites: seq<Site>): (e: seq<string>)
    ensures |e| == |sites| && forall i :: 0 <= i < |sites| ==> e[i] == sites[i].group
  {
    seq(|sites|, i requires 0 <= i < |sites| => sites[i].group)
  }

  /**
   For an accepted and pinned script: on every execution each required check also runs in the group
   of its site if and only if the groups agree on every path of the tree.
   */
  lemma GroupsAreExact(s: Script, g: string)
    requires Find(s, g).Some? && Pinned(s)
    ensures Agree(s, g, GroupsOf(Find(s, g).value.required)) <==>
            forall rows, g2 :: Runs(s, g, rows, g2) ==> Matches(Required(rows), Find(s, g).value.required, true)
  {
    var sites := Find(s, g).value.required;
    var e := GroupsOf(sites);
    FoundSize(s, g);
    if Agree(s, g, e) {
      forall rows, g2 | Runs(s, g, rows, g2)
        ensures Matches(Required(rows), sites, true)
      {
        AgreeHolds(s, g, g, e, rows, g2);
        Sound(s, g, g, rows, g2, Follow(false, false));
        GroupsMatch(rows, sites);
      }
    } else {
      var rows, g2 := Disagree(s, g, g, e);
      GroupsMatch(rows, sites);
      assert Runs(s, g, rows, g2) && !Matches(Required(rows), sites, true);
    }
  }

  lemma GroupsMatch(rows: seq<Row>, sites: seq<Site>)
    ensures Matches(Required(rows), sites, true) <==>
              Matches(Required(rows), sites, false) && InGroups(rows, GroupsOf(sites))
  {
    hide Only;
  }

  /** Groups named only outside all blocks agree, whatever the rest of the script. */
  lemma FlatGroupsAgree(s: Script, g: string)
    requires Find(s, g).Some? && Pinned(s) && FlatGroups(s)
    ensures Agree(s, g, GroupsOf(Find(s, g).value.required))
  {
    GroupsAreExact(s, g);
    forall rows, g2 | Runs(s, g, rows, g2)
      ensures Matches(Required(rows), Find(s, g).value.required, true)
    {
      Sound(s, g, g, rows, g2, Follow(true, false));
    }
  }
}
