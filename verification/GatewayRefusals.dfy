/** Which scripts make the scan abort, said of their labels alone; and that openings and closings balance otherwise. */
module GatewayRefusals {
  import opened Wrappers
  import opened GatewaySites
  import opened GatewayLines
  import opened GatewayScript
  import opened GatewayPaths
  import opened GatewaySoundness
  import opened GatewayOptionals

  // ----- trees -----------------------------------------------------------------------------------

  /** A script is refused for a line with both kinds of checks, a loop with a check, or branches of different sizes. */
  predicate Refused(s: Script) {
    match s
    case Done => false
    case Then(first, rest) => RefusedStmt(first) || Refused(rest)
  }

  predicate RefusedStmt(st: Stmt) {
    match st
    case Group(_, _) => false
    case Simple(checks, _) => checks.required != [] && checks.optional != []
    case OneLineLoop(checks) => checks.required != [] && checks.optional != []
    case OneLine(_, yes, no) => |yes.required| != |no.required|
    case If(condition, heading, body, tail, _) =>
      || (condition.required + heading.required != [] && condition.optional + heading.optional != [])
      || Refused(body) || RefusedTail(tail)
      || (if tail.Fi? then condition.required + heading.required != [] || Size(body) != 0
          else Uneven(tail, (if condition.required + heading.required != [] then 1 else 0) + Size(body)))
    case Case(_, arms, _) => RefusedArms(arms)
    case Loop(heading, body, _) =>
      || Refused(body) || heading.required != [] || heading.optional != [] || Size(body) != 0 || Scanned(body) != []
  }

  predicate RefusedTail(t: Tail) {
    match t
    case Fi => false
    case Elif(_, _, body, tail) => Refused(body) || RefusedTail(tail)
    case Else(heading, body) => (heading.required != [] && heading.optional != []) || Refused(body)
  }

  /** Some branch of the tail has not `n` required checks. */
  predicate Uneven(t: Tail, n: nat) {
    match t
    case Fi => false
    case Elif(_, _, body, tail) => Size(body) != n || Uneven(tail, n)
    case Else(heading, body) => (if heading.required != [] then 1 else 0) + Size(body) != n
  }

  /** Beside the other reasons, any required check in an arm. */
  predicate RefusedArms(a: Arms) {
    match a
    case Esac => false
    case Arm(_, _, heading, body, next) => heading.required != [] || Refused(body) || Size(body) != 0 || RefusedArms(next)
  }

  lemma {:induction false} FindRefuses(s: Script, g: string)
    ensures Find(s, g).None? <==> Refused(s)
    decreases s, 0
  {
    if s.Then? {
      StmtRefuses(s.first, g);
      hide FindStmt, RefusedStmt;
      if FindStmt(s.first, g).Some? {
        FindRefuses(s.rest, FindStmt(s.first, g).value.group);
      }
    }
  }

  /** The line and body of a branch: refused, or as large as their labels say. */
  lemma {:induction false} HeadedRefuses(heading: Checks, body: Script, g: string)
    ensures var f := Both(CheckSites(heading, g), Find(body, g));
            && (f.None? <==> (heading.required != [] && heading.optional != []) || Refused(body))
            && (f.Some? ==> |f.value.required| == (if heading.required != [] then 1 else 0) + Size(body))
            && (f.Some? ==> (f.value.optional == [] <==> heading.optional == [] && Scanned(body) == []))
    decreases body, 1
  {
    FindRefuses(body, g);
    if Find(body, g).Some? {
      FoundSize(body, g);
      FoundOptional(body, g);
      CarryNone(Find(body, g).value.optional, Scanned(body));
      SinglesCarry(heading.optional, g);
      CarryNone(Singles(heading.optional, g), heading.optional);
    }
    hide Find, Refused, Size, Scanned, Singles;
  }

  lemma {:induction false} TailRefuses(t: Tail, g: string)
    ensures FindTail(t, g).None? <==> RefusedTail(t)
    ensures FindTail(t, g).Some? ==> (FindTail(t, g).value.required == [] <==> t.Fi?)
    ensures FindTail(t, g).Some? ==>
              forall n: nat :: Uneven(t, n) <==> SomeOther(FindTail(t, g).value.required, n)
    decreases t, 0
  {
    match t
    case Fi =>
    case Elif(_, _, body, tail) =>
      FindRefuses(body, g);
      if Find(body, g).Some? {
        var f := Find(body, g).value;
        FoundSize(body, g);
        TailRefuses(tail, f.group);
        if FindTail(tail, f.group).Some? {
          OneBranchMore(f.required, FindTail(tail, f.group).value.required);
        }
      }
    case Else(heading, body) =>
      HeadedRefuses(heading, body, g);
      var f := Both(CheckSites(heading, g), Find(body, g));
      if f.Some? {
        OneBranchMore(f.value.required, []);
        assert [f.value.required] + [] == [f.value.required];
      }
  }

  /** Some branch has another size. */
  predicate SomeOther(branches: seq<seq<Site>>, n: nat) {
    exists b :: 0 <= b < |branches| && |branches[b]| != n
  }

  lemma OneBranchMore(first: seq<Site>, rest: seq<seq<Site>>)
    ensures forall n: nat :: SomeOther([first] + rest, n) <==> |first| != n || SomeOther(rest, n)
  {
    var all := [first] + rest;
    forall n: nat
      ensures SomeOther(all, n) <==> |first| != n || SomeOther(rest, n)
    {
      assert all[0] == first && forall b :: 1 <= b < |all| ==> all[b] == rest[b - 1];
      if b :| 0 <= b < |rest| && |rest[b]| != n {
        assert all[b + 1] == rest[b];
      }
    }
  }

  lemma {:induction false} ArmsRefuse(a: Arms, g: string)
    ensures RefusedArms(a) <==>
              FindArms(a, g).None? || SomeOther(FindArms(a, g).value.required, 0)
    decreases a, 0
  {
    if a.Arm? {
      HeadedRefuses(a.heading, a.body, g);
      var f := Both(CheckSites(a.heading, g), Find(a.body, g));
      if f.Some? {
        ArmsRefuse(a.next, f.value.group);
        if FindArms(a.next, f.value.group).Some? {
          OneBranchMore(f.value.required, FindArms(a.next, f.value.group).value.required);
        }
      }
    }
  }

  lemma {:induction false} StmtRefuses(st: Stmt, g: string)
    ensures FindStmt(st, g).None? <==> RefusedStmt(st)
    decreases st, 1
  {
    match st
    case Group(_, _) =>
    case Simple(_, _) =>
    case OneLineLoop(_) =>
    case OneLine(_, _, _) =>
    case If(condition, heading, body, tail, _) => IfRefuses(st, g);
    case Case(_, arms, _) =>
      ArmsRefuse(arms, g);
      if FindArms(arms, g).Some? {
        AllEmptyOrNot(FindArms(arms, g).value.required, HasDefault(arms));
      }
    case Loop(heading, body, _) => HeadedRefuses(heading, body, g);
  }

  lemma AllEmptyOrNot(arms: seq<seq<Site>>, default: bool)
    ensures var all := [[]] + arms + (if default then [] else [[]]);
            SameSizes(all) <==> !SomeOther(arms, 0)
  {
    var all := [[]] + arms + (if default then [] else [[]]);
    if b :| 0 <= b < |arms| && |arms[b]| != 0 {
      assert all[b + 1] == arms[b] && all[0] == [];
    } else {
      assert forall i :: 1 <= i <= |arms| ==> all[i] == arms[i - 1];
    }
  }

  lemma {:induction false} IfRefuses(st: Stmt, g: string)
    requires st.If?
    ensures FindStmt(st, g).None? <==> RefusedStmt(st)
    decreases st, 0
  {
    var all := Join(st.condition, st.heading);
    JoinLabels(st.condition, st.heading);
    HeadedRefuses(all, st.body, g);
    FindIf(st, g);
    var f := Both(CheckSites(all, g), Find(st.body, g));
    if f.Some? {
      TailRefuses(st.tail, f.value.group);
      if FindTail(st.tail, f.value.group).Some? {
        BranchesDiffer(f.value, FindTail(st.tail, f.value.group).value);
      }
    }
    hide Find, FindStmt, FindTail, CheckSites, Join, Refused, RefusedTail, Uneven, Size, Pair;
  }

  lemma BranchesDiffer(f: Found, t: Branches)
    ensures SameSizes(IfBranches(f, t)) <==>
              if t.required == [] then f.required == []
              else !SomeOther(t.required, |f.required|)
  {
    var all := IfBranches(f, t);
    if t.required == [] {
      assert all[0] == f.required && all[1] == [];
    } else {
      assert forall i :: 1 <= i < |all| ==> all[i] == t.required[i - 1];
      if b :| 0 <= b < |t.required| && |t.required[b]| != |f.required| {
        assert all[b + 1] == t.required[b];
      }
    }
  }

  /** The scan aborts on a script if and only if the script is refused for its labels. */
  lemma ScanRefusesExactly(preamble: seq<Line>, g: string, rest: Checks, script: Script)
    requires forall k :: 0 <= k < |preamble| ==> !preamble[k].GroupLine?
    requires ReadsAsWritten(script, false)
    ensures Sites(preamble + [GroupLine(g, rest)] + Lines(script)) == None <==> Refused(script)
  {
    ScannerMatchesTree(preamble, g, rest, script);
    FindRefuses(script, g);
  }

  // ----- any lines ------------------------------------------------------------------------------------

  /** Openings less closings, from the first `group` line on if scanning has not started before. */
  function Height(lines: seq<Line>, started: bool): int
    decreases |lines|
  {
    if lines == [] then 0
    else
      (if !started then 0
       else if lines[0].IfLine? || lines[0].LoopLine? || lines[0].CaseLine? then 1
       else if lines[0].CloseLine? then -1
       else 0)
      + Height(lines[1..], started || lines[0].GroupLine?)
  }

  predicate BothKinds(c: Checks) {
    c.required != [] && c.optional != []
  }

  /** The line can be read at all where `height` blocks are open. */
  predicate Readable(line: Line, height: int) {
    match line
    case OneLineIf(_, yes, no) => |yes.required| == |no.required|
    case IfLine(checks) => !BothKinds(checks)
    case LoopLine(checks) => !BothKinds(checks)
    case ElseLine(checks) => height > 0 && !BothKinds(checks)
    case ElifLine(_) => height > 0
    case CloseLine(_) => height > 0
    case PlainLine(whole, arm) => !BothKinds(whole) || (height > 0 && arm.Some? && !BothKinds(arm.value.rest))
    case _ => true
  }

  lemma StepHeight(s: Scan, line: Line)
    requires WellFormed(s)
    ensures Step(s, line).Some? ==>
              && |Step(s, line).value.stack| == |s.stack| + Height([line], s.group.Some?)
              && (Step(s, line).value.group.Some? <==> s.group.Some? || line.GroupLine?)
              && (s.group.Some? ==> Readable(line, |s.stack|))
  {
    assert [line][1..] == [];
    hide Singles, Alternatives, Pair, SameSizes, AllEmpty, AllBranches;
  }

  lemma {:induction false} RunHeight(s: Scan, lines: seq<Line>)
    requires WellFormed(s) && Run(s, lines).Some?
    ensures |Run(s, lines).value.stack| == |s.stack| + Height(lines, s.group.Some?)
    decreases |lines|
  {
    if lines != [] {
      StepHeight(s, lines[0]);
      hide Step;
      var t := Step(s, lines[0]).value;
      RunHeight(t, lines[1..]);
      assert [lines[0]][1..] == [];
    }
  }

  predicate Started(lines: seq<Line>, k: nat)
    requires k <= |lines|
  {
    exists i :: 0 <= i < k && lines[i].GroupLine?
  }

  lemma {:induction false} RunStarted(s: Scan, lines: seq<Line>)
    requires WellFormed(s) && Run(s, lines).Some?
    ensures Run(s, lines).value.group.Some? <==> s.group.Some? || Started(lines, |lines|)
    decreases |lines|
  {
    if lines != [] {
      StepHeight(s, lines[0]);
      hide Step;
      RunStarted(Step(s, lines[0]).value, lines[1..]);
      if i :| 0 <= i < |lines[1..]| && lines[1..][i].GroupLine? {
        assert lines[i + 1].GroupLine?;
      }
      if i :| 0 <= i < |lines| && lines[i].GroupLine? {
        assert i > 0 ==> lines[1..][i - 1].GroupLine?;
      }
    }
  }

  /**
   Whatever the lines: where the scan does not abort, openings and closings balance, no closing is
   ahead of its opening, and every line scanned is readable where it stands.
   */
  lemma AcceptedBalances(lines: seq<Line>)
    requires Sites(lines).Some?
    ensures Height(lines, false) == 0
    ensures forall k :: 0 <= k <= |lines| ==> Height(lines[..k], false) >= 0
    ensures forall k :: 0 <= k < |lines| && Started(lines, k) ==> Readable(lines[k], Height(lines[..k], false))
  {
    RunHeight(INITIAL, lines);
    forall k | 0 <= k <= |lines|
      ensures Height(lines[..k], false) >= 0
      ensures k < |lines| && Started(lines, k) ==> Readable(lines[k], Height(lines[..k], false))
    {
      var before, after := lines[..k], lines[k..];
      assert lines == before + after;
      RunConcat(INITIAL, before, after);
      RunHeight(INITIAL, before);
      if k < |lines| && Started(lines, k) {
        RunStarted(INITIAL, before);
        var i :| 0 <= i < k && lines[i].GroupLine?;
        assert before[i].GroupLine?;
        StepHeight(Run(INITIAL, before).value, after[0]);
      }
    }
  }
}
