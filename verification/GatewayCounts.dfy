/**
 How many required checks the executions of a script can emit, read off its tree: the least and
 the greatest number, both reached.
 */
module GatewayCounts {
  import opened Wrappers
  import opened ShellLists
  import opened GatewaySites
  import opened GatewayLines
  import opened GatewayScript
  import opened GatewayPaths

  // ----- the two numbers -----------------------------------------------------------------------

  /** A number, or nothing where it is not bounded. */
  type Bound = Option<nat>

  function Sum(a: Bound, b: Bound): Bound {
    if a.None? || b.None? then None else Some(a.value + b.value)
  }

  function Larger(a: Bound, b: Bound): Bound {
    if a.None? || b.None? then None else Some(Max(a.value, b.value))
  }

  predicate Within(n: nat, b: Bound) {
    b.None? || n <= b.value
  }

  function LeastRows(s: Script): nat {
    match s
    case Done => 0
    case Then(first, rest) => LeastStmt(first) + LeastRows(rest)
  }

  function LeastStmt(st: Stmt): nat
    decreases st, 1
  {
    LeastOf(Before(st)) + LeastInside(st) + LeastOf(After(st))
  }

  function LeastInside(st: Stmt): nat
    decreases st, 0
  {
    match st
    case Simple(checks, _) => Least(checks.line, true)
    case OneLine(_, yes, no) => Min(Least(yes.line, true), Least(no.line, true))
    case If(_, heading, body, tail, _) => Min(Least(heading.line, true) + LeastRows(body), LeastTail(tail))
    case Case(_, arms, _) => if HasDefault(arms) then LeastArms(arms) else 0
    case _ => 0
  }

  function LeastTail(t: Tail): nat {
    match t
    case Fi => 0
    case Elif(condition, heading, body, tail) =>
      LeastOf(condition) + Min(Least(heading.line, true) + LeastRows(body), LeastTail(tail))
    case Else(heading, body) => Least(heading.line, true) + LeastRows(body)
  }

  function LeastArms(a: Arms): nat
    requires a.Arm?
  {
    var here := Least(a.heading.line, true) + LeastRows(a.body);
    if a.next.Esac? then here else Min(here, LeastArms(a.next))
  }

  function MostRows(s: Script): Bound
    decreases s, 0
  {
    match s
    case Done => Some(0)
    case Then(first, rest) => Sum(MostStmt(first), MostRows(rest))
  }

  function MostStmt(st: Stmt): Bound
    decreases st, 1
  {
    Sum(Sum(Some(MostOf(Before(st))), MostInside(st)), Some(MostOf(After(st))))
  }

  function MostInside(st: Stmt): Bound
    decreases st, 0
  {
    match st
    case Group(_, _) => Some(0)
    case Simple(checks, _) => Some(Most(checks.line, true))
    case OneLine(_, yes, no) => Some(Max(Most(yes.line, true), Most(no.line, true)))
    case OneLineLoop(checks) => if Most(checks.line, true) == 0 then Some(0) else None
    case If(_, heading, body, tail, _) => Larger(MostHeaded(heading, body), MostTail(tail))
    case Case(_, arms, _) => MostArms(arms)
    case Loop(heading, body, _) => if MostHeaded(heading, body) == Some(0) then Some(0) else None
  }

  function MostHeaded(heading: Checks, body: Script): Bound
    decreases body, 1
  {
    Sum(Some(Most(heading.line, true)), MostRows(body))
  }

  function MostTail(t: Tail): Bound
    decreases t, 0
  {
    match t
    case Fi => Some(0)
    case Elif(condition, heading, body, tail) => Sum(Some(MostOf(condition)), Larger(MostHeaded(heading, body), MostTail(tail)))
    case Else(heading, body) => MostHeaded(heading, body)
  }

  function MostArms(a: Arms): Bound
    decreases a, 0
  {
    match a
    case Esac => Some(0)
    case Arm(_, _, heading, body, next) => Larger(MostHeaded(heading, body), MostArms(next))
  }

  // ----- every execution is between them -----------------------------------------------------------

  lemma AddParts(rows: seq<Row>, k: nat)
    requires k <= |rows|
    ensures |Required(rows)| == |Required(rows[..k])| + |Required(rows[k..])|
  {
    SplitRows(rows, k);
  }

  lemma {:induction false} RowsBetween(s: Script, g: string, rows: seq<Row>, g2: string)
    requires Runs(s, g, rows, g2)
    ensures LeastRows(s) <= |Required(rows)| && Within(|Required(rows)|, MostRows(s))
    decreases s, 0
  {
    match s
    case Done =>
    case Then(first, rest) =>
      var k: nat, m: string :| k <= |rows| && RunsStmt(first, g, rows[..k], m) && Runs(rest, m, rows[k..], g2);
      StmtBetween(first, g, rows[..k], m);
      RowsBetween(rest, m, rows[k..], g2);
      AddParts(rows, k);
  }

  lemma {:induction false} StmtBetween(st: Stmt, g: string, rows: seq<Row>, g2: string)
    requires RunsStmt(st, g, rows, g2)
    ensures LeastStmt(st) <= |Required(rows)| && Within(|Required(rows)|, MostStmt(st))
    decreases st, 1
  {
    hide RunsInside, MayRun, LeastInside, MostInside, LeastOf, MostOf, Before, After, Only;
    var i: nat, j: nat :| i <= j <= |rows| && MayRun(Before(st), g, rows[..i]) && RunsInside(st, g, rows[i..j], g2)
                          && MayRun(After(st), g2, rows[j..]);
    MayRunBetween(Before(st), g, rows[..i]);
    MayRunBetween(After(st), g2, rows[j..]);
    InsideBetween(st, g, rows[i..j], g2);
    AddParts(rows, j);
    assert rows[..j][..i] == rows[..i] && rows[..j][i..] == rows[i..j];
    AddParts(rows[..j], i);
  }

  lemma {:induction false} RepeatsQuietly(c: Checks, n: nat, g: string, rows: seq<Row>)
    requires Repeats(c, n, g, rows) && Most(c.line, true) == 0
    ensures Required(rows) == []
    decreases n
  {
    if n > 0 {
      var k: nat :| k <= |rows| && LineRuns(c, g, rows[..k]) && Repeats(c, n - 1, g, rows[k..]);
      EmitsBetween(c.line, true, g, rows[..k]);
      RepeatsQuietly(c, n - 1, g, rows[k..]);
      AddParts(rows, k);
    }
  }

  lemma {:induction false} InsideBetween(st: Stmt, g: string, rows: seq<Row>, g2: string)
    requires RunsInside(st, g, rows, g2)
    ensures LeastInside(st) <= |Required(rows)| && Within(|Required(rows)|, MostInside(st))
    decreases st, 0
  {
    match st
    case Group(_, _) =>
    case Simple(checks, _) => EmitsBetween(checks.line, true, g, rows);
    case OneLine(_, yes, no) =>
      if LineRuns(yes, g, rows) {
        EmitsBetween(yes.line, true, g, rows);
      } else {
        EmitsBetween(no.line, true, g, rows);
      }
    case OneLineLoop(checks) =>
      var n: nat :| Repeats(checks, n, g, rows);
      if Most(checks.line, true) == 0 {
        RepeatsQuietly(checks, n, g, rows);
      }
    case If(_, heading, body, tail, _) =>
      if RunsHeaded(heading, body, g, rows, g2) {
        HeadedBetween(heading, body, g, rows, g2);
      } else {
        TailBetween(tail, g, rows, g2);
      }
    case Case(_, arms, _) =>
      if RunsArms(arms, g, rows, g2) {
        ArmsBetween(arms, g, rows, g2);
      }
    case Loop(heading, body, _) =>
      var n: nat :| RunsLoop(heading, body, n, g, rows, g2);
      if MostHeaded(heading, body) == Some(0) {
        LoopQuietly(heading, body, n, g, rows, g2);
      }
  }

  lemma {:induction false} HeadedBetween(heading: Checks, body: Script, g: string, rows: seq<Row>, g2: string)
    requires RunsHeaded(heading, body, g, rows, g2)
    ensures Least(heading.line, true) + LeastRows(body) <= |Required(rows)| && Within(|Required(rows)|, MostHeaded(heading, body))
    decreases body, 1
  {
    var k: nat :| k <= |rows| && LineRuns(heading, g, rows[..k]) && Runs(body, g, rows[k..], g2);
    EmitsBetween(heading.line, true, g, rows[..k]);
    RowsBetween(body, g, rows[k..], g2);
    AddParts(rows, k);
  }

  lemma {:induction false} TailBetween(t: Tail, g: string, rows: seq<Row>, g2: string)
    requires RunsTail(t, g, rows, g2)
    ensures LeastTail(t) <= |Required(rows)| && Within(|Required(rows)|, MostTail(t))
    decreases t, 0
  {
    hide RunsHeaded, MayRun, LeastOf, MostOf, LeastRows, MostHeaded, Least;
    match t
    case Fi =>
    case Elif(condition, heading, body, tail) =>
      var k: nat :| k <= |rows| && MayRun(condition, g, rows[..k])
                    && (RunsHeaded(heading, body, g, rows[k..], g2) || RunsTail(tail, g, rows[k..], g2));
      MayRunBetween(condition, g, rows[..k]);
      if RunsHeaded(heading, body, g, rows[k..], g2) {
        HeadedBetween(heading, body, g, rows[k..], g2);
      } else {
        TailBetween(tail, g, rows[k..], g2);
      }
      AddParts(rows, k);
    case Else(heading, body) => HeadedBetween(heading, body, g, rows, g2);
  }

  lemma {:induction false} ArmsBetween(a: Arms, g: string, rows: seq<Row>, g2: string)
    requires a.Arm? && RunsArms(a, g, rows, g2)
    ensures LeastArms(a) <= |Required(rows)| && Within(|Required(rows)|, MostArms(a))
    decreases a, 0
  {
    if RunsHeaded(a.heading, a.body, g, rows, g2) {
      HeadedBetween(a.heading, a.body, g, rows, g2);
    } else {
      ArmsBetween(a.next, g, rows, g2);
    }
  }

  lemma {:induction false} LoopQuietly(heading: Checks, body: Script, n: nat, g: string, rows: seq<Row>, g2: string)
    requires RunsLoop(heading, body, n, g, rows, g2) && MostHeaded(heading, body) == Some(0)
    ensures Required(rows) == []
    decreases body, 2, n
  {
    if n > 0 {
      var k: nat, m: string :|
        k <= |rows| && RunsHeaded(heading, body, g, rows[..k], m) && RunsLoop(heading, body, n - 1, m, rows[k..], g2);
      HeadedBetween(heading, body, g, rows[..k], m);
      LoopQuietly(heading, body, n - 1, m, rows[k..], g2);
      AddParts(rows, k);
    }
  }

  // ----- putting executions together ------------------------------------------------------------------

  lemma RunsInTurn(first: Stmt, rest: Script, g: string, a: seq<Row>, m: string, b: seq<Row>, g2: string)
    requires RunsStmt(first, g, a, m) && Runs(rest, m, b, g2)
    ensures Runs(Then(first, rest), g, a + b, g2)
    ensures |Required(a + b)| == |Required(a)| + |Required(b)|
  {
    assert (a + b)[..|a|] == a && (a + b)[|a|..] == b;
    OnlyConcat(a, b, false);
  }

  /** A statement runs with what its first and last line add. */
  lemma Surrounded(st: Stmt, g: string, a: seq<Row>, r: seq<Row>, m: string, b: seq<Row>)
    requires MayRun(Before(st), g, a) && RunsInside(st, g, r, m) && MayRun(After(st), m, b)
    ensures RunsStmt(st, g, a + r + b, m)
    ensures |Required(a + r + b)| == |Required(a)| + |Required(r)| + |Required(b)|
  {
    var rows, i, j := a + r + b, |a|, |a| + |r|;
    assert rows[..i] == a && rows[i..j] == r && rows[j..] == b;
    OnlyConcat(a + r, b, false);
    OnlyConcat(a, r, false);
  }

  lemma HeadedRuns(heading: Checks, body: Script, g: string, a: seq<Row>, b: seq<Row>, g2: string)
    requires LineRuns(heading, g, a) && Runs(body, g, b, g2)
    ensures RunsHeaded(heading, body, g, a + b, g2)
    ensures |Required(a + b)| == |Required(a)| + |Required(b)|
  {
    assert (a + b)[..|a|] == a && (a + b)[|a|..] == b;
    OnlyConcat(a, b, false);
  }

  /** A branch of the tail runs after what its condition emits. */
  lemma ElifRuns(t: Tail, g: string, a: seq<Row>, b: seq<Row>, g2: string)
    requires t.Elif? && MayRun(t.condition, g, a)
    requires RunsHeaded(t.heading, t.body, g, b, g2) || RunsTail(t.tail, g, b, g2)
    ensures RunsTail(t, g, a + b, g2) && |Required(a + b)| == |Required(a)| + |Required(b)|
  {
    assert (a + b)[..|a|] == a && (a + b)[|a|..] == b;
    OnlyConcat(a, b, false);
  }

  lemma RepeatOnce(c: Checks, n: nat, g: string, a: seq<Row>, b: seq<Row>)
    requires LineRuns(c, g, a) && Repeats(c, n, g, b)
    ensures Repeats(c, n + 1, g, a + b) && |Required(a + b)| == |Required(a)| + |Required(b)|
  {
    assert (a + b)[..|a|] == a && (a + b)[|a|..] == b;
    OnlyConcat(a, b, false);
  }

  lemma LoopOnce(heading: Checks, body: Script, n: nat, g: string, a: seq<Row>, m: string, b: seq<Row>, g2: string)
    requires RunsHeaded(heading, body, g, a, m) && RunsLoop(heading, body, n, m, b, g2)
    ensures RunsLoop(heading, body, n + 1, g, a + b, g2) && |Required(a + b)| == |Required(a)| + |Required(b)|
  {
    assert (a + b)[..|a|] == a && (a + b)[|a|..] == b;
    OnlyConcat(a, b, false);
  }

  // ----- the least number is reached -------------------------------------------------------------------

  lemma {:induction false} LeastRun(s: Script, g: string) returns (rows: seq<Row>, g2: string)
    ensures Runs(s, g, rows, g2) && |Required(rows)| == LeastRows(s)
    decreases s, 0
  {
    match s
    case Done => rows, g2 := [], g;
    case Then(first, rest) =>
      var a, m := LeastStmtRun(first, g);
      var b;
      b, g2 := LeastRun(rest, m);
      RunsInTurn(first, rest, g, a, m, b, g2);
      rows := a + b;
  }

  lemma {:induction false} LeastStmtRun(st: Stmt, g: string) returns (rows: seq<Row>, g2: string)
    ensures RunsStmt(st, g, rows, g2) && |Required(rows)| == LeastStmt(st)
    decreases st, 1
  {
    var r;
    r, g2 := LeastInsideRun(st, g);
    var a := SomeMayRun(Before(st), g, false);
    var b := SomeMayRun(After(st), g2, false);
    Surrounded(st, g, a, r, g2, b);
    rows := a + r + b;
  }

  lemma {:induction false} LeastHeadedRun(heading: Checks, body: Script, g: string) returns (rows: seq<Row>, g2: string)
    ensures RunsHeaded(heading, body, g, rows, g2) && |Required(rows)| == Least(heading.line, true) + LeastRows(body)
    decreases body, 1
  {
    var a := SomeLine(heading, g, false);
    var b;
    b, g2 := LeastRun(body, g);
    HeadedRuns(heading, body, g, a, b, g2);
    rows := a + b;
  }

  lemma {:induction false} LeastInsideRun(st: Stmt, g: string) returns (rows: seq<Row>, g2: string)
    ensures RunsInside(st, g, rows, g2) && |Required(rows)| == LeastInside(st)
    decreases st, 0
  {
    rows, g2 := [], g;
    match st
    case Group(name, _) => g2 := name;
    case Simple(checks, _) => rows := SomeLine(checks, g, false);
    case OneLine(_, yes, no) => rows := SomeLine(if Least(yes.line, true) <= Least(no.line, true) then yes else no, g, false);
    case OneLineLoop(checks) => assert Repeats(checks, 0, g, rows);
    case If(_, heading, body, tail, _) =>
      var a, m := LeastHeadedRun(heading, body, g);
      var b, n := LeastTailRun(tail, g);
      if |Required(a)| <= |Required(b)| {
        rows, g2 := a, m;
      } else {
        rows, g2 := b, n;
      }
    case Case(_, arms, _) =>
      if HasDefault(arms) {
        rows, g2 := LeastArmsRun(arms, g);
      }
    case Loop(heading, body, _) => assert RunsLoop(heading, body, 0, g, rows, g2);
  }

  lemma {:induction false} LeastTailRun(t: Tail, g: string) returns (rows: seq<Row>, g2: string)
    ensures RunsTail(t, g, rows, g2) && |Required(rows)| == LeastTail(t)
    decreases t, 0
  {
    match t
    case Fi => rows, g2 := [], g;
    case Elif(condition, heading, body, tail) =>
      var c := SomeMayRun(condition, g, false);
      var a, m := LeastHeadedRun(heading, body, g);
      var b, n := LeastTailRun(tail, g);
      if |Required(a)| <= |Required(b)| {
        rows, g2 := a, m;
      } else {
        rows, g2 := b, n;
      }
      ElifRuns(t, g, c, rows, g2);
      rows := c + rows;
    case Else(heading, body) => rows, g2 := LeastHeadedRun(heading, body, g);
  }

  lemma {:induction false} LeastArmsRun(a: Arms, g: string) returns (rows: seq<Row>, g2: string)
    requires a.Arm?
    ensures RunsArms(a, g, rows, g2) && |Required(rows)| == LeastArms(a)
    decreases a, 0
  {
    rows, g2 := LeastHeadedRun(a.heading, a.body, g);
    if a.next.Arm? {
      var b, n := LeastArmsRun(a.next, g);
      if |Required(b)| < |Required(rows)| {
        rows, g2 := b, n;
      }
    }
  }

  // ----- and the greatest, or any number where there is none -------------------------------------------

  /** At least `n` required checks, where the bound allows so many. */
  lemma {:induction false} MostRun(s: Script, g: string, n: nat) returns (rows: seq<Row>, g2: string)
    requires Within(n, MostRows(s))
    ensures Runs(s, g, rows, g2) && |Required(rows)| >= n
    decreases s, 0
  {
    match s
    case Done => rows, g2 := [], g;
    case Then(first, rest) =>
      var k := if MostStmt(first).None? then n else Min(n, MostStmt(first).value);
      var a, m := MostStmtRun(first, g, k);
      var b;
      b, g2 := MostRun(rest, m, n - k);
      RunsInTurn(first, rest, g, a, m, b, g2);
      rows := a + b;
  }

  lemma {:induction false} MostStmtRun(st: Stmt, g: string, n: nat) returns (rows: seq<Row>, g2: string)
    requires Within(n, MostStmt(st))
    ensures RunsStmt(st, g, rows, g2) && |Required(rows)| >= n
    decreases st, 1
  {
    var around := MostOf(Before(st)) + MostOf(After(st));
    var r;
    r, g2 := MostInsideRun(st, g, if n <= around then 0 else n - around);
    var a := SomeMayRun(Before(st), g, true);
    var b := SomeMayRun(After(st), g2, true);
    Surrounded(st, g, a, r, g2, b);
    rows := a + r + b;
  }

  lemma {:induction false} MostHeadedRun(heading: Checks, body: Script, g: string, n: nat) returns (rows: seq<Row>, g2: string)
    requires Within(n, MostHeaded(heading, body))
    ensures RunsHeaded(heading, body, g, rows, g2) && |Required(rows)| >= n
    decreases body, 1
  {
    var a := SomeLine(heading, g, true);
    var b;
    b, g2 := MostRun(body, g, if n <= |Required(a)| then 0 else n - |Required(a)|);
    HeadedRuns(heading, body, g, a, b, g2);
    rows := a + b;
  }

  lemma {:induction false} MostInsideRun(st: Stmt, g: string, n: nat) returns (rows: seq<Row>, g2: string)
    requires Within(n, MostInside(st))
    ensures RunsInside(st, g, rows, g2) && |Required(rows)| >= n
    decreases st, 0
  {
    rows, g2 := [], g;
    match st
    case Group(name, _) => g2 := name;
    case Simple(checks, _) => rows := SomeLine(checks, g, true);
    case OneLine(_, yes, no) =>
      var arm := if Most(no.line, true) <= Most(yes.line, true) then yes else no;
      rows := SomeLine(arm, g, true);
      assert |Required(rows)| == Max(Most(yes.line, true), Most(no.line, true));
    case OneLineLoop(checks) =>
      rows := ManyRepeats(checks, n, g);
      assert Repeats(checks, n, g, rows);
    case If(_, heading, body, tail, _) =>
      if Within(n, MostHeaded(heading, body)) {
        rows, g2 := MostHeadedRun(heading, body, g, n);
      } else {
        rows, g2 := MostTailRun(tail, g, n);
      }
    case Case(_, arms, _) =>
      if arms.Arm? {
        rows, g2 := MostArmsRun(arms, g, n);
      } else {
        assert MostArms(arms) == Some(0);
      }
    case Loop(heading, body, _) =>
      rows, g2 := ManyIterations(heading, body, n, g);
  }

  lemma {:induction false} ManyRepeats(c: Checks, n: nat, g: string) returns (rows: seq<Row>)
    requires n == 0 || Most(c.line, true) > 0
    ensures |Required(rows)| >= n && Repeats(c, n, g, rows)
  {
    if n == 0 {
      rows := [];
    } else {
      var a := SomeLine(c, g, true);
      var b := ManyRepeats(c, n - 1, g);
      RepeatOnce(c, n - 1, g, a, b);
      rows := a + b;
    }
  }

  lemma {:induction false} ManyIterations(heading: Checks, body: Script, n: nat, g: string) returns (rows: seq<Row>, g2: string)
    requires n == 0 || MostHeaded(heading, body) != Some(0)
    ensures |Required(rows)| >= n && RunsLoop(heading, body, n, g, rows, g2)
    decreases body, 2, n
  {
    if n == 0 {
      rows, g2 := [], g;
    } else {
      var a, m := MostHeadedRun(heading, body, g, 1);
      var b;
      b, g2 := ManyIterations(heading, body, n - 1, m);
      LoopOnce(heading, body, n - 1, g, a, m, b, g2);
      rows := a + b;
    }
  }

  lemma {:induction false} MostTailRun(t: Tail, g: string, n: nat) returns (rows: seq<Row>, g2: string)
    requires Within(n, MostTail(t))
    ensures RunsTail(t, g, rows, g2) && |Required(rows)| >= n
    decreases t, 0
  {
    match t
    case Fi => rows, g2 := [], g;
    case Elif(condition, heading, body, tail) =>
      var c := SomeMayRun(condition, g, true);
      var k := if n <= |Required(c)| then 0 else n - |Required(c)|;
      if Within(k, MostHeaded(heading, body)) {
        rows, g2 := MostHeadedRun(heading, body, g, k);
      } else {
        rows, g2 := MostTailRun(tail, g, k);
      }
      ElifRuns(t, g, c, rows, g2);
      rows := c + rows;
    case Else(heading, body) => rows, g2 := MostHeadedRun(heading, body, g, n);
  }

  lemma {:induction false} MostArmsRun(a: Arms, g: string, n: nat) returns (rows: seq<Row>, g2: string)
    requires a.Arm? && Within(n, MostArms(a))
    ensures RunsArms(a, g, rows, g2) && |Required(rows)| >= n
    decreases a, 0
  {
    assert MostArms(a) == Larger(MostHeaded(a.heading, a.body), MostArms(a.next));
    if a.next.Esac? || Within(n, MostHeaded(a.heading, a.body)) {
      rows, g2 := MostHeadedRun(a.heading, a.body, g, n);
    } else {
      rows, g2 := MostArmsRun(a.next, g, n);
    }
  }

  // ----- the main result -----------------------------------------------------------------------------------

  lemma OffCount(s: Script, g: string, n: nat) returns (rows: seq<Row>, g2: string)
    requires LeastRows(s) != n || MostRows(s) != Some(n)
    ensures Runs(s, g, rows, g2) && |Required(rows)| != n
  {
    rows, g2 := LeastRun(s, g);
    RowsBetween(s, g, rows, g2);
    if |Required(rows)| == n {
      rows, g2 := MostRun(s, g, n + 1);
    }
  }

  /** Every execution of a script emits `n` required checks if and only if both numbers are `n`. */
  lemma CountIsExact(s: Script, g: string, n: nat)
    ensures (forall rows, g2 :: Runs(s, g, rows, g2) ==> |Required(rows)| == n) <==> LeastRows(s) == n && MostRows(s) == Some(n)
  {
    if LeastRows(s) == n && MostRows(s) == Some(n) {
      forall rows, g2 | Runs(s, g, rows, g2)
        ensures |Required(rows)| == n
      {
        RowsBetween(s, g, rows, g2);
      }
    } else {
      var rows, g2 := OffCount(s, g, n);
      assert Runs(s, g, rows, g2) && |Required(rows)| != n;
    }
  }
}
