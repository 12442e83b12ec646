/**
 From the literals written in a script to the names its register shows: the scanner keeps of each
 literal a fixed part, and the shell prints its expansion.
 */
module GatewayLabels {
  import opened Wrappers
  import opened ShellLabels
  import opened LabelSafety
  import opened BrokenLabels
  import opened ShellLists
  import opened GatewaySites
  import opened GatewayLines
  import opened GatewayScript
  import opened GatewayPaths
  import opened Manifest
  import opened ResultsValidator
  import opened EndToEnd

  /** What splitting and extraction keep of a literal. */
  function Identity(literal: string): string {
    Prefix(Unescape(literal))
  }

  function KeepAll(literals: seq<string>): (labels: seq<string>)
    ensures |labels| == |literals| && forall i :: 0 <= i < |literals| ==> labels[i] == Identity(literals[i])
  {
    seq(|literals|, i requires 0 <= i < |literals| => Identity(literals[i]))
  }

  function KeepPart(p: Part): Part {
    if p.command.Other? then p else Part(p.op, Check(p.command.optional, Identity(p.command.tag)))
  }

  function KeepLine(line: seq<Part>): seq<Part> {
    if line == [] then [] else [KeepPart(line[0])] + KeepLine(line[1..])
  }

  function KeepChecks(c: Checks): Checks {
    Checks(KeepLine(c.line))
  }

  /** What the scan looks at are the identities of the literals. */
  lemma {:induction false} KeptLabels(line: seq<Part>, optional: bool)
    ensures TagsOf(KeepLine(line), optional) == KeepAll(TagsOf(line, optional))
  {
    if line != [] {
      KeptLabels(line[1..], optional);
      hide Identity, TagsOf, KeepLine;
      KeepConcat(if IsCheck(line[0], optional) then [line[0].command.tag] else [], TagsOf(line[1..], optional));
      KeptHead(line, optional);
    }
  }

  lemma KeepConcat(a: seq<string>, b: seq<string>)
    ensures KeepAll(a + b) == KeepAll(a) + KeepAll(b)
  {
    hide Identity;
  }

  lemma HeadTags(line: seq<Part>, optional: bool)
    requires line != []
    ensures TagsOf(line, optional) == (if IsCheck(line[0], optional) then [line[0].command.tag] else []) + TagsOf(line[1..], optional)
  {
  }

  lemma KeptHead(line: seq<Part>, optional: bool)
    requires line != []
    ensures TagsOf(line, optional) == (if IsCheck(line[0], optional) then [line[0].command.tag] else []) + TagsOf(line[1..], optional)
    ensures TagsOf(KeepLine(line), optional)
         == KeepAll(if IsCheck(line[0], optional) then [line[0].command.tag] else []) + TagsOf(KeepLine(line[1..]), optional)
  {
    hide Identity;
    var kept := KeepLine(line);
    assert kept[0] == KeepPart(line[0]) && kept[1..] == KeepLine(line[1..]);
    HeadTags(line, optional);
    HeadTags(kept, optional);
    hide TagsOf, KeepLine;
    if IsCheck(line[0], optional) {
      assert KeepAll([line[0].command.tag]) == [Identity(line[0].command.tag)];
    }
  }

  /** The script as the scanner has it, with an identity in place of each literal. */
  function Keep(s: Script): Script {
    match s
    case Done => Done
    case Then(first, rest) => Then(KeepStmt(first), Keep(rest))
  }

  function KeepStmt(st: Stmt): Stmt {
    match st
    case Group(name, rest) => Group(name, KeepChecks(rest))
    case Simple(checks, arm) =>
      Simple(KeepChecks(checks), if arm.None? then None else Some(ArmReading(arm.value.isDefault, KeepChecks(arm.value.rest))))
    case OneLine(condition, yes, no) => OneLine(KeepChecks(condition), KeepChecks(yes), KeepChecks(no))
    case OneLineLoop(checks) => OneLineLoop(KeepChecks(checks))
    case If(condition, heading, body, tail, rest) =>
      If(KeepChecks(condition), KeepChecks(heading), Keep(body), KeepTail(tail), KeepChecks(rest))
    case Case(word, arms, rest) => Case(KeepChecks(word), KeepArms(arms), KeepChecks(rest))
    case Loop(heading, body, rest) => Loop(KeepChecks(heading), Keep(body), KeepChecks(rest))
  }

  function KeepTail(t: Tail): Tail {
    match t
    case Fi => Fi
    case Elif(condition, heading, body, tail) =>
      Elif(KeepChecks(condition), KeepChecks(heading), Keep(body), KeepTail(tail))
    case Else(heading, body) => Else(KeepChecks(heading), Keep(body))
  }

  function KeepArms(a: Arms): Arms {
    match a
    case Esac => Esac
    case Arm(isDefault, whole, heading, body, next) =>
      Arm(isDefault, KeepChecks(whole), KeepChecks(heading), Keep(body), KeepArms(next))
  }

  function KeepRow(r: GatewayLines.Row): GatewayLines.Row {
    r.(tag := Identity(r.tag))
  }

  function KeepRows(rows: seq<GatewayLines.Row>): (kept: seq<GatewayLines.Row>)
    ensures |kept| == |rows| && forall i :: 0 <= i < |rows| ==> kept[i] == KeepRow(rows[i])
  {
    seq(|rows|, i requires 0 <= i < |rows| => KeepRow(rows[i]))
  }

  lemma KeepSlices(rows: seq<GatewayLines.Row>, i: nat, j: nat)
    requires i <= j <= |rows|
    ensures KeepRows(rows)[..i] == KeepRows(rows[..i]) && KeepRows(rows)[i..j] == KeepRows(rows[i..j])
    ensures KeepRows(rows)[j..] == KeepRows(rows[j..])
  {
  }

  lemma {:induction false} EmitsKept(line: seq<Part>, ok: bool, g: string, rows: seq<GatewayLines.Row>)
    requires Emits(line, ok, g, rows)
    ensures Emits(KeepLine(line), ok, g, KeepRows(rows))
    decreases |line|
  {
    hide Identity;
    if line != [] {
      var kept := KeepLine(line);
      assert kept[0] == KeepPart(line[0]) && kept[1..] == KeepLine(line[1..]);
      if !Executes(line[0].op, ok) {
        EmitsKept(line[1..], ok, g, rows);
      } else if line[0].command.Other? {
        EmitsKept(line[1..], Emits(line[1..], true, g, rows), g, rows);
      } else {
        EmitsKept(line[1..], true, g, rows[1..]);
        assert KeepRows(rows)[1..] == KeepRows(rows[1..]);
      }
    }
  }

  lemma LineKept(c: Checks, g: string, rows: seq<GatewayLines.Row>)
    ensures LineRuns(c, g, rows) ==> LineRuns(KeepChecks(c), g, KeepRows(rows))
    ensures MayRun(c, g, rows) ==> MayRun(KeepChecks(c), g, KeepRows(rows))
  {
    hide Emits, KeepLine;
    if Emits(c.line, true, g, rows) {
      EmitsKept(c.line, true, g, rows);
    }
    if Emits(c.line, false, g, rows) {
      EmitsKept(c.line, false, g, rows);
    }
  }

  lemma {:induction false} RepeatsKept(c: Checks, n: nat, g: string, rows: seq<GatewayLines.Row>)
    requires Repeats(c, n, g, rows)
    ensures Repeats(KeepChecks(c), n, g, KeepRows(rows))
    decreases n
  {
    hide LineRuns, KeepChecks;
    if n > 0 {
      var k: nat :| k <= |rows| && LineRuns(c, g, rows[..k]) && Repeats(c, n - 1, g, rows[k..]);
      LineKept(c, g, rows[..k]);
      RepeatsKept(c, n - 1, g, rows[k..]);
      KeepSlices(rows, k, k);
      assert KeepRows(rows)[k..] == KeepRows(rows[k..]);
      hide MayRun;
    }
  }

  /** What a script with literals can emit, the script of identities can emit with theirs. */
  lemma {:induction false} RunsKept(s: Script, g: string, rows: seq<GatewayLines.Row>, g2: string)
    requires Runs(s, g, rows, g2)
    ensures Runs(Keep(s), g, KeepRows(rows), g2)
    decreases s, 0
  {
    match s
    case Done =>
    case Then(first, rest) =>
      var k: nat, m: string :| k <= |rows| && RunsStmt(first, g, rows[..k], m) && Runs(rest, m, rows[k..], g2);
      StmtKept(first, g, rows[..k], m);
      RunsKept(rest, m, rows[k..], g2);
      KeepSlices(rows, k, k);
      hide RunsStmt;
  }

  lemma {:induction false} StmtKept(st: Stmt, g: string, rows: seq<GatewayLines.Row>, g2: string)
    requires RunsStmt(st, g, rows, g2)
    ensures RunsStmt(KeepStmt(st), g, KeepRows(rows), g2)
    decreases st, 1
  {
    var i: nat, j: nat :| i <= j <= |rows| && MayRun(Before(st), g, rows[..i]) && RunsInside(st, g, rows[i..j], g2)
                          && MayRun(After(st), g2, rows[j..]);
    AroundKept(st);
    InsideKept(st, g, rows[i..j], g2);
    hide MayRun, RunsInside, KeepStmt;
    LineKept(Before(st), g, rows[..i]);
    LineKept(After(st), g2, rows[j..]);
    KeepSlices(rows, i, j);
  }

  lemma AroundKept(st: Stmt)
    ensures Before(KeepStmt(st)) == KeepChecks(Before(st)) && After(KeepStmt(st)) == KeepChecks(After(st))
  {
  }

  lemma {:induction false} DefaultKept(a: Arms)
    ensures HasDefault(KeepArms(a)) == HasDefault(a)
  {
    if a.Arm? {
      DefaultKept(a.next);
    }
  }

  lemma {:induction false} InsideKept(st: Stmt, g: string, rows: seq<GatewayLines.Row>, g2: string)
    requires RunsInside(st, g, rows, g2)
    ensures RunsInside(KeepStmt(st), g, KeepRows(rows), g2)
    decreases st, 0
  {
    match st
    case Group(_, _) =>
    case Simple(checks, _) => LineKept(checks, g, rows);
    case OneLine(_, yes, no) =>
      LineKept(yes, g, rows);
      LineKept(no, g, rows);
    case OneLineLoop(checks) =>
      var n: nat :| Repeats(checks, n, g, rows);
      RepeatsKept(checks, n, g, rows);
    case If(_, heading, body, tail, _) =>
      if RunsHeaded(heading, body, g, rows, g2) {
        HeadedKept(heading, body, g, rows, g2);
      } else {
        TailKept(tail, g, rows, g2);
      }
    case Case(_, arms, _) =>
      DefaultKept(arms);
      if RunsArms(arms, g, rows, g2) {
        ArmsKept(arms, g, rows, g2);
      }
    case Loop(heading, body, _) =>
      var n: nat :| RunsLoop(heading, body, n, g, rows, g2);
      LoopKept(heading, body, n, g, rows, g2);
  }

  lemma {:induction false} HeadedKept(heading: Checks, body: Script, g: string, rows: seq<GatewayLines.Row>, g2: string)
    requires RunsHeaded(heading, body, g, rows, g2)
    ensures RunsHeaded(KeepChecks(heading), Keep(body), g, KeepRows(rows), g2)
    decreases body, 1
  {
    var k: nat :| k <= |rows| && LineRuns(heading, g, rows[..k]) && Runs(body, g, rows[k..], g2);
    LineKept(heading, g, rows[..k]);
    RunsKept(body, g, rows[k..], g2);
    KeepSlices(rows, k, k);
    hide LineRuns, Runs, KeepChecks, Keep;
  }

  lemma {:induction false} TailKept(t: Tail, g: string, rows: seq<GatewayLines.Row>, g2: string)
    requires RunsTail(t, g, rows, g2)
    ensures RunsTail(KeepTail(t), g, KeepRows(rows), g2)
    decreases t, 0
  {
    match t
    case Fi =>
    case Elif(condition, heading, body, tail) =>
      var k: nat :| k <= |rows| && MayRun(condition, g, rows[..k])
                    && (RunsHeaded(heading, body, g, rows[k..], g2) || RunsTail(tail, g, rows[k..], g2));
      LineKept(condition, g, rows[..k]);
      KeepSlices(rows, k, k);
      if RunsHeaded(heading, body, g, rows[k..], g2) {
        HeadedKept(heading, body, g, rows[k..], g2);
      } else {
        TailKept(tail, g, rows[k..], g2);
      }
      hide MayRun, RunsHeaded, KeepChecks, Keep;
    case Else(heading, body) => HeadedKept(heading, body, g, rows, g2);
  }

  lemma {:induction false} ArmsKept(a: Arms, g: string, rows: seq<GatewayLines.Row>, g2: string)
    requires RunsArms(a, g, rows, g2)
    ensures RunsArms(KeepArms(a), g, KeepRows(rows), g2)
    decreases a, 0
  {
    if RunsHeaded(a.heading, a.body, g, rows, g2) {
      HeadedKept(a.heading, a.body, g, rows, g2);
    } else {
      ArmsKept(a.next, g, rows, g2);
    }
  }

  lemma {:induction false} LoopKept(heading: Checks, body: Script, n: nat, g: string, rows: seq<GatewayLines.Row>, g2: string)
    requires RunsLoop(heading, body, n, g, rows, g2)
    ensures RunsLoop(KeepChecks(heading), Keep(body), n, g, KeepRows(rows), g2)
    decreases body, 2, n
  {
    hide RunsHeaded, KeepChecks, Keep;
    if n > 0 {
      var k: nat, m: string :|
        k <= |rows| && RunsHeaded(heading, body, g, rows[..k], m) && RunsLoop(heading, body, n - 1, m, rows[k..], g2);
      HeadedKept(heading, body, g, rows[..k], m);
      LoopKept(heading, body, n - 1, m, rows[k..], g2);
      KeepSlices(rows, k, k);
    }
  }

  // ----- from literals to the register ----------------------------------------------------------

  /**
   Each name is what the shell prints of the label, over as many physical lines as it was written,
   of which the scan has the joined text; and these lines are safe.
   */
  ghost predicate Prints(rows: seq<GatewayLines.Row>, labels: seq<seq<string>>, envs: seq<Environment>, names: seq<string>) {
    && |labels| == |envs| == |names| == |rows|
    && forall i :: 0 <= i < |rows| ==>
         TidyLines(labels[i]) && SafeLines(labels[i]) && rows[i].tag == Seen(labels[i]) && names[i] == Expand(Raw(labels[i]), envs[i])
  }

  lemma PrintsIdentities(rows: seq<GatewayLines.Row>, labels: seq<seq<string>>, envs: seq<Environment>, names: seq<string>)
    requires Prints(rows, labels, envs, names)
    ensures PrintedAs(KeepRows(rows), names) && Items(KeepRows(rows), names) == Items(rows, names)
  {
    forall i | 0 <= i < |rows|
      ensures KeepRows(rows)[i].tag <= names[i]
    {
      LabelOverLines(labels[i]);
    }
    hide SafeLines, TidyLines, Expand, Identity;
  }

  /**
   From the literals of a script to the verdict: the scanner reads their identities, the shell
   prints their expansions, whatever the environment, and the register of any passing run is
   accepted.
   */
  lemma LiteralsAccepted(preamble: seq<Line>, script: Script, required: seq<Site>, optional: seq<Site>, declared: int,
                         scope: Scope, rows: seq<GatewayLines.Row>, labels: seq<seq<string>>, envs: seq<Environment>,
                         names: seq<string>, g2: string)
    requires forall k :: 0 <= k < |preamble| ==> !preamble[k].GroupLine?
    requires Started(Keep(script)) && ReadsAsWritten(Keep(script), false)
    requires Pinned(Keep(script)) && PinnedOptionals(Keep(script)) && FlatGroups(Keep(script))
    requires Sites(preamble + Lines(Keep(script))) == Some((required, optional)) && required != []
    requires Buildable(required, optional, declared) && Describes(scope, required, optional)
    requires Runs(script, "", rows, g2) && Prints(rows, labels, envs, names)
    ensures |names| == |rows|
    ensures Usable(Declare(scope))
    ensures RegisterOk(Declare(scope), Some(Items(rows, names)))
    ensures AssignmentOk(Declare(scope), Rows(Items(rows, names)))
  {
    PrintsIdentities(rows, labels, envs, names);
    hide *;
    RunsKept(script, "", rows, g2);
    PassingRunAccepted(preamble, Keep(script), required, optional, declared, scope, KeepRows(rows), names, g2);
  }
}
