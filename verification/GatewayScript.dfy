/**
 Gateway scripts as trees: how a tree is written as lines, the sites found by recursion on
 the tree, and the proof that the stack machine finds the same ones.
 */
module GatewayScript {
  import opened Wrappers
  import opened ShellLists
  import opened GatewaySites

  datatype Script = Done | Then(first: Stmt, rest: Script)

  /**
   One statement. A simple line may also look like the opening of a `case` arm. `condition` is
   what stands before the `then` of a conditional, `heading` what the line that opens a branch,
   arm or loop carries after its keyword, and `rest` what follows a `group` name, the word of a
   `case` or the closing keyword on the same line.
   */
  datatype Stmt =
    | Group(name: string, rest: Checks)
    | Simple(checks: Checks, arm: Option<ArmReading>)
    | OneLine(condition: Checks, yes: Checks, no: Checks)
    | OneLineLoop(checks: Checks)
    | If(condition: Checks, heading: Checks, body: Script, tail: Tail, rest: Checks)
    | Case(word: Checks, arms: Arms, rest: Checks)
    | Loop(heading: Checks, body: Script, rest: Checks)

  datatype Tail =
    | Fi
    | Elif(condition: Checks, heading: Checks, body: Script, tail: Tail)
    | Else(heading: Checks, body: Script)

  datatype Arms = Esac | Arm(isDefault: bool, whole: Checks, heading: Checks, body: Script, next: Arms)

  /** The checks of two pieces of one line. */
  function Join(a: Checks, b: Checks): Checks {
    Checks(a.line + b.line)
  }

  lemma JoinLabels(a: Checks, b: Checks)
    ensures Join(a, b).required == a.required + b.required && Join(a, b).optional == a.optional + b.optional
  {
    TagsOfConcat(a.line, b.line, false);
    TagsOfConcat(a.line, b.line, true);
  }

  // ----- as lines ----------------------------------------------------------------------

  function Lines(s: Script): seq<Line> {
    match s
    case Done => []
    case Then(first, rest) => StmtLines(first) + Lines(rest)
  }

  function StmtLines(st: Stmt): seq<Line> {
    match st
    case Group(name, rest) => [GroupLine(name, rest)]
    case Simple(checks, arm) => [PlainLine(checks, arm)]
    case OneLine(condition, yes, no) => [OneLineIf(condition, yes, no)]
    case OneLineLoop(checks) => [PlainLine(checks, None)]
    case If(condition, heading, body, tail, rest) =>
      [IfLine(Join(condition, heading))] + Lines(body) + TailLines(tail) + [CloseLine(rest)]
    case Case(word, arms, rest) => [CaseLine(word)] + ArmLines(arms) + [CloseLine(rest)]
    case Loop(heading, body, rest) => [LoopLine(heading)] + Lines(body) + [CloseLine(rest)]
  }

  function TailLines(t: Tail): seq<Line> {
    match t
    case Fi => []
    case Elif(condition, heading, body, tail) => [ElifLine(Join(condition, heading))] + Lines(body) + TailLines(tail)
    case Else(heading, body) => [ElseLine(heading)] + Lines(body)
  }

  function ArmLines(a: Arms): seq<Line> {
    match a
    case Esac => []
    case Arm(isDefault, whole, heading, body, next) =>
      [PlainLine(whole, Some(ArmReading(isDefault, heading)))] + Lines(body) + ArmLines(next)
  }

  /** No line directly in an arm looks like the opening of another arm. */
  predicate ReadsAsWritten(s: Script, inArm: bool) {
    match s
    case Done => true
    case Then(first, rest) => StmtReadsAsWritten(first, inArm) && ReadsAsWritten(rest, inArm)
  }

  predicate StmtReadsAsWritten(st: Stmt, inArm: bool) {
    match st
    case Simple(_, arm) => inArm ==> arm.None?
    case If(_, _, body, tail, _) => ReadsAsWritten(body, false) && TailReadsAsWritten(tail)
    case Case(_, arms, _) => ArmsReadAsWritten(arms)
    case Loop(_, body, _) => ReadsAsWritten(body, false)
    case _ => true
  }

  predicate TailReadsAsWritten(t: Tail) {
    match t
    case Fi => true
    case Elif(_, _, body, tail) => ReadsAsWritten(body, false) && TailReadsAsWritten(tail)
    case Else(_, body) => ReadsAsWritten(body, false)
  }

  predicate ArmsReadAsWritten(a: Arms) {
    match a
    case Esac => true
    case Arm(_, _, _, body, next) => ReadsAsWritten(body, true) && ArmsReadAsWritten(next)
  }

  // ----- the sites of a tree ------------------------------------------------------------

  /** What a stretch of script contributes, and the group in effect after it. */
  datatype Found = Found(required: seq<Site>, optional: seq<Site>, group: string)

  /** The branches a conditional's tail adds. */
  datatype Branches = Branches(required: seq<seq<Site>>, optional: seq<Site>, group: string)

  function CheckSites(checks: Checks, g: string): Option<Found> {
    if checks.required != [] && checks.optional != [] then None
    else if checks.required != [] then Some(Found([Site(g, checks.required)], [], g))
    else Some(Found([], Singles(checks.optional, g), g))
  }

  function Both(a: Option<Found>, b: Option<Found>): Option<Found> {
    if a.None? || b.None? then None
    else Some(Found(a.value.required + b.value.required, a.value.optional + b.value.optional, b.value.group))
  }

  function Find(s: Script, g: string): Option<Found> {
    match s
    case Done => Some(Found([], [], g))
    case Then(first, rest) =>
      match FindStmt(first, g)
      case None => None
      case Some(f) => Both(Some(f), Find(rest, f.group))
  }

  function FindStmt(st: Stmt, g: string): Option<Found> {
    match st
    case Group(name, _) => Some(Found([], [], name))
    case Simple(checks, _) => CheckSites(checks, g)
    case OneLineLoop(checks) => CheckSites(checks, g)
    case OneLine(_, yes, no) =>
      if |yes.required| != |no.required| then None
      else Some(Found(Alternatives(yes.required, no.required, g),
                      Singles(yes.optional, g) + Singles(no.optional, g), g))
    case If(condition, heading, body, tail, _) =>
      (match Both(CheckSites(Join(condition, heading), g), Find(body, g))
       case None => None
       case Some(f) =>
         match FindTail(tail, f.group)
         case None => None
         case Some(t) =>
           Compare(if t.required == [] then [f.required, []] else [f.required] + t.required,
                   f.optional + t.optional, t.group))
    case Case(_, arms, _) =>
      (match FindArms(arms, g)
       case None => None
       case Some(t) =>
         Compare([[]] + t.required + (if HasDefault(arms) then [] else [[]]), t.optional, t.group))
    case Loop(heading, body, _) =>
      (match Both(CheckSites(heading, g), Find(body, g))
       case None => None
       case Some(f) => if f.required == [] && f.optional == [] then Some(f) else None)
  }

  /** Branches of equal size are paired position by position; others are refused. */
  function Compare(branches: seq<seq<Site>>, optional: seq<Site>, g: string): Option<Found>
    requires branches != []
  {
    if SameSizes(branches) then Some(Found(Pair(branches), optional, g)) else None
  }

  function AddBranch(f: Option<Found>, t: Option<Branches>): Option<Branches> {
    if f.None? || t.None? then None
    else Some(Branches([f.value.required] + t.value.required, f.value.optional + t.value.optional, t.value.group))
  }

  function FindTail(t: Tail, g: string): Option<Branches> {
    match t
    case Fi => Some(Branches([], [], g))
    case Elif(_, _, body, tail) =>
      (match Find(body, g)
       case None => None
       case Some(f) => AddBranch(Some(f), FindTail(tail, f.group)))
    case Else(heading, body) =>
      (match Both(CheckSites(heading, g), Find(body, g))
       case None => None
       case Some(f) => Some(Branches([f.required], f.optional, f.group)))
  }

  function FindArms(a: Arms, g: string): Option<Branches> {
    match a
    case Esac => Some(Branches([], [], g))
    case Arm(_, _, heading, body, next) =>
      match Both(CheckSites(heading, g), Find(body, g))
      case None => None
      case Some(f) => AddBranch(Some(f), FindArms(next, f.group))
  }

  predicate HasDefault(a: Arms) {
    a.Arm? && (a.isDefault || HasDefault(a.next))
  }

  // ----- the machine finds the same sites --------------------------------------------------

  /** The scan after a stretch that contributes `f`. */
  function Extend(s: Scan, f: Found): Scan
    requires WellFormed(s)
  {
    AddOptional(AddRequired(s, f.required), f.optional).(group := Some(f.group))
  }

  function ExtendAll(s: Scan, f: Option<Found>): Option<Scan>
    requires WellFormed(s)
  {
    if f.None? then None else Some(Extend(s, f.value))
  }

  /** The block on top with further branches. */
  function ExtendTop(s: Scan, t: Branches, sawDefault: bool): Scan
    requires s.stack != []
  {
    var top := s.stack[|s.stack| - 1];
    s.(stack := s.stack[|s.stack| - 1 := Frame(top.kind, top.branches + t.required, top.optional + t.optional,
                                               top.sawDefault || sawDefault)],
       group := Some(t.group))
  }

  lemma ExtendKeeps(s: Scan, f: Found)
    requires WellFormed(s)
    ensures WellFormed(Extend(s, f)) && |Extend(s, f).stack| == |s.stack| && InCase(Extend(s, f)) == InCase(s)
  {
  }

  lemma AddNoRequired(s: Scan)
    requires WellFormed(s)
    ensures AddRequired(s, []) == s
  {
    if s.stack == [] {
      assert s.required + [] == s.required;
    } else {
      var top := s.stack[|s.stack| - 1];
      var last := |top.branches| - 1;
      assert top.branches[last] + [] == top.branches[last];
      assert top.branches[last := top.branches[last]] == top.branches;
      assert AddRequired(s, []).stack == s.stack;
    }
  }

  lemma ExtendNothing(s: Scan, g: string)
    requires WellFormed(s)
    ensures Extend(s, Found([], [], g)) == s.(group := Some(g))
  {
    AddNoRequired(s);
    AddNoOptional(s);
  }

  lemma ExtendTwice(s: Scan, a: Found, b: Found)
    requires WellFormed(s)
    ensures WellFormed(Extend(s, a))
    ensures Extend(Extend(s, a), b) == Extend(s, Found(a.required + b.required, a.optional + b.optional, b.group))
  {
    ExtendKeeps(s, a);
    var both := Found(a.required + b.required, a.optional + b.optional, b.group);
    if s.stack == [] {
      assert s.required + a.required + b.required == s.required + both.required;
      assert s.optional + a.optional + b.optional == s.optional + both.optional;
    } else {
      var top := s.stack[|s.stack| - 1];
      var last := |top.branches| - 1;
      assert top.branches[last] + a.required + b.required == top.branches[last] + both.required;
      assert top.optional + a.optional + b.optional == top.optional + both.optional;
      assert Extend(Extend(s, a), b).stack[|s.stack| - 1] == Extend(s, both).stack[|s.stack| - 1];
      assert Extend(Extend(s, a), b).stack == Extend(s, both).stack;
    }
  }

  lemma {:induction false} RunConcat(s: Scan, a: seq<Line>, b: seq<Line>)
    requires WellFormed(s)
    ensures Run(s, a + b) == match Run(s, a) case None => None case Some(t) => Run(t, b)
    decreases |a|
  {
    if a == [] {
      assert a + b == b;
    } else {
      assert (a + b)[1..] == a[1..] + b;
      match Step(s, a[0])
      case None =>
      case Some(t) => RunConcat(t, a[1..], b);
    }
  }

  lemma RunOne(s: Scan, line: Line)
    requires WellFormed(s)
    ensures Run(s, [line]) == Step(s, line)
  {
    assert [line][1..] == [];
  }

  lemma EmitExtends(s: Scan, checks: Checks)
    requires WellFormed(s) && s.group.Some?
    ensures Emit(s, checks) == ExtendAll(s, CheckSites(checks, s.group.value))
  {
    var g := s.group.value;
    if checks.required != [] {
      AddNoOptional(AddRequired(s, [Site(g, checks.required)]));
    } else {
      AddNoRequired(s);
    }
  }

  lemma BranchThenExtend(s: Scan, isDefault: bool, f: Found)
    requires WellFormed(s) && s.stack != []
    ensures WellFormed(Branch(s, isDefault))
    ensures Extend(Branch(s, isDefault), f) == ExtendTop(s, Branches([f.required], f.optional, f.group), isDefault)
  {
    var top := s.stack[|s.stack| - 1];
    assert [] + f.required == f.required;
    assert (top.branches + [[]])[|top.branches| := f.required] == top.branches + [f.required];
    var l, r := Extend(Branch(s, isDefault), f), ExtendTop(s, Branches([f.required], f.optional, f.group), isDefault);
    assert l.stack[|s.stack| - 1] == r.stack[|s.stack| - 1];
    assert l.stack == r.stack;
  }

  lemma ExtendTopTwice(s: Scan, a: Branches, da: bool, b: Branches, db: bool)
    requires s.stack != []
    ensures ExtendTop(ExtendTop(s, a, da), b, db)
         == ExtendTop(s, Branches(a.required + b.required, a.optional + b.optional, b.group), da || db)
  {
    var top := s.stack[|s.stack| - 1];
    assert top.branches + a.required + b.required == top.branches + (a.required + b.required);
    assert top.optional + a.optional + b.optional == top.optional + (a.optional + b.optional);
  }

  lemma ExtendTopNothing(s: Scan, g: string)
    requires s.stack != []
    ensures ExtendTop(s, Branches([], [], g), false) == s.(group := Some(g))
  {
    var top := s.stack[|s.stack| - 1];
    assert top.branches + [] == top.branches && top.optional + [] == top.optional;
    assert s.stack[|s.stack| - 1 := top] == s.stack;
  }

  /** A fresh block filled with `f` holds just that. */
  lemma PushThenExtend(s: Scan, kind: Kind, f: Found)
    requires WellFormed(s)
    ensures WellFormed(Push(s, kind))
    ensures Extend(Push(s, kind), f) == s.(stack := s.stack + [Frame(kind, [f.required], f.optional, false)],
                                          group := Some(f.group))
  {
    assert [] + f.required == f.required && [] + f.optional == f.optional;
    assert [[]][0 := f.required] == [f.required];
    var r := s.stack + [Frame(kind, [f.required], f.optional, false)];
    assert Extend(Push(s, kind), f).stack == r;
  }

  lemma PushThenExtendTop(s: Scan, frame: Frame, t: Branches, sawDefault: bool)
    ensures ExtendTop(s.(stack := s.stack + [frame]), t, sawDefault)
         == s.(stack := s.stack + [Frame(frame.kind, frame.branches + t.required, frame.optional + t.optional,
                                         frame.sawDefault || sawDefault)], group := Some(t.group))
  {
  }

  /** Closing the block on top hands its sites to the scan below. */
  lemma PopExtends(s: Scan, frame: Frame, g: string)
    requires WellFormed(s) && frame.branches != []
    ensures var full := s.(stack := s.stack + [frame], group := Some(g));
            && WellFormed(full)
            && Pop(full) == match Closed(frame)
                            case None => None
                            case Some(sites) => Some(Extend(s, Found(sites, frame.optional, g)))
  {
    var full := s.(stack := s.stack + [frame], group := Some(g));
    assert full.stack[..|full.stack| - 1] == s.stack;
    assert full.(stack := s.stack) == s.(group := Some(g));
  }

  lemma RunThree(s: Scan, a: Line, b: seq<Line>, c: Line)
    requires WellFormed(s)
    ensures Run(s, [a] + b + [c])
         == match Step(s, a) case None => None case Some(t) =>
              match Run(t, b) case None => None case Some(u) => Step(u, c)
  {
    RunConcat(s, [a] + b, [c]);
    RunConcat(s, [a], b);
    RunOne(s, a);
    match Run(s, [a] + b)
    case None =>
    case Some(u) => RunOne(u, c);
  }

  lemma StepOpens(s: Scan, heading: Checks)
    requires WellFormed(s) && s.group.Some?
    ensures WellFormed(Push(s, LoopBlock)) && Step(s, LoopLine(heading)) == Emit(Push(s, LoopBlock), heading)
    ensures WellFormed(Push(s, IfBlock)) && Step(s, IfLine(heading)) == Emit(Push(s, IfBlock), heading)
  {
    hide Emit;
  }

  lemma StepCloses(s: Scan, rest: Checks)
    requires WellFormed(s) && s.group.Some? && s.stack != []
    ensures Step(s, CloseLine(rest)) == Pop(s)
  {
    hide Pop;
  }

  lemma HeadingThenBody(s: Scan, heading: Checks, body: Script, inArm: bool)
    requires WellFormed(s) && s.group.Some?
    requires ReadsAsWritten(body, inArm) && (InCase(s) ==> inArm)
    ensures (match Emit(s, heading) case None => None case Some(t) => Run(t, Lines(body)))
         == ExtendAll(s, Both(CheckSites(heading, s.group.value), Find(body, s.group.value)))
    decreases body, 1
  {
    EmitExtends(s, heading);
    var h := CheckSites(heading, s.group.value);
    if h.Some? {
      ExtendKeeps(s, h.value);
      Simulates(Extend(s, h.value), body, inArm);
      hide Find, Lines, Run, Emit, Extend;
      var f := Find(body, s.group.value);
      assert h.value.group == s.group.value;
      if f.Some? {
        ExtendTwice(s, h.value, f.value);
      }
    }
  }

  /**
   Over the lines of a script, started in any scan, the machine ends where the recursion on
   the tree says, or aborts exactly when the recursion refuses.
   */
  lemma {:induction false} Simulates(s: Scan, script: Script, inArm: bool)
    requires WellFormed(s) && s.group.Some?
    requires ReadsAsWritten(script, inArm) && (InCase(s) ==> inArm)
    ensures Run(s, Lines(script)) == ExtendAll(s, Find(script, s.group.value))
    decreases script, 0
  {
    match script
    case Done =>
      ExtendNothing(s, s.group.value);
    case Then(first, rest) =>
      RunConcat(s, StmtLines(first), Lines(rest));
      SimulatesStmt(s, first, inArm);
      var f := FindStmt(first, s.group.value);
      if f.Some? {
        ExtendKeeps(s, f.value);
        Simulates(Extend(s, f.value), rest, inArm);
        hide FindStmt, StmtLines, Run, Extend;
        var r := Find(rest, f.value.group);
        if r.Some? {
          ExtendTwice(s, f.value, r.value);
        }
      }
  }

  lemma {:induction false} SimulatesStmt(s: Scan, st: Stmt, inArm: bool)
    requires WellFormed(s) && s.group.Some?
    requires StmtReadsAsWritten(st, inArm) && (InCase(s) ==> inArm)
    ensures Run(s, StmtLines(st)) == ExtendAll(s, FindStmt(st, s.group.value))
    decreases st, 2
  {
    match st
    case Group(name, rest) =>
      RunOne(s, GroupLine(name, rest));
      ExtendNothing(s, name);
    case Simple(checks, arm) =>
      RunOne(s, PlainLine(checks, arm));
      EmitExtends(s, checks);
    case OneLineLoop(checks) =>
      RunOne(s, PlainLine(checks, None));
      EmitExtends(s, checks);
    case OneLine(condition, yes, no) =>
      RunOne(s, OneLineIf(condition, yes, no));
      if |yes.required| == |no.required| {
        var g := s.group.value;
        AddOptionalTwice(AddRequired(s, Alternatives(yes.required, no.required, g)),
                         Singles(yes.optional, g), Singles(no.optional, g));
      }
    case If(condition, heading, body, tail, rest) =>
      SimulatesIf(s, condition, heading, body, tail, rest);
    case Case(word, arms, rest) =>
      SimulatesCase(s, word, arms, rest);
    case Loop(heading, body, rest) =>
      SimulatesLoop(s, heading, body, rest);
  }

  lemma {:induction false} SimulatesLoop(s: Scan, heading: Checks, body: Script, rest: Checks)
    requires WellFormed(s) && s.group.Some? && ReadsAsWritten(body, false)
    ensures Run(s, StmtLines(Loop(heading, body, rest))) == ExtendAll(s, FindStmt(Loop(heading, body, rest), s.group.value))
    decreases body, 2
  {
    var p := Push(s, LoopBlock);
    assert WellFormed(p) && !InCase(p);
    hide Emit, Pop, CheckSites, Run, Step, Extend;
    RunThree(s, LoopLine(heading), Lines(body), CloseLine(rest));
    StepOpens(s, heading);
    HeadingThenBody(p, heading, body, false);
    var f := Both(CheckSites(heading, s.group.value), Find(body, s.group.value));
    hide Find, Lines, Both;
    if f.Some? {
      ClosesLoop(s, f.value);
      StepCloses(Extend(p, f.value), rest);
    }
  }

  lemma ClosesLoop(s: Scan, f: Found)
    requires WellFormed(s)
    ensures var full := Extend(Push(s, LoopBlock), f); WellFormed(full) && full.stack != [] && full.group.Some?
    ensures Pop(Extend(Push(s, LoopBlock), f)) == if f.required == [] && f.optional == [] then Some(Extend(s, f)) else None
  {
    hide Extend, Pop;
    PushThenExtend(s, LoopBlock, f);
    var frame := Frame(LoopBlock, [f.required], f.optional, false);
    PopExtends(s, frame, f.group);
    assert frame.branches[0] == f.required;
    assert AllEmpty(frame.branches) == (f.required == []);
  }

  lemma ClosesIf(s: Scan, f: Found, t: Branches)
    requires WellFormed(s)
    ensures var full := ExtendTop(Extend(Push(s, IfBlock), f), t, false);
            && WellFormed(full) && full.stack != [] && full.group.Some?
            && Pop(full) == ExtendAll(s, Compare(if t.required == [] then [f.required, []] else [f.required] + t.required,
                                                 f.optional + t.optional, t.group))
  {
    hide Extend, ExtendTop, Pop, Pair, SameSizes;
    PushThenExtend(s, IfBlock, f);
    PushThenExtendTop(s.(group := Some(f.group)), Frame(IfBlock, [f.required], f.optional, false), t, false);
    var frame := Frame(IfBlock, [f.required] + t.required, f.optional + t.optional, false);
    PopExtends(s, frame, t.group);
    assert t.required == [] ==> frame.branches + [[]] == [f.required, []];
  }

  lemma {:induction false} SimulatesBranches(p: Scan, st: Stmt)
    requires WellFormed(p) && p.group.Some? && p.stack != [] && !InCase(p)
    requires st.If? && ReadsAsWritten(st.body, false) && TailReadsAsWritten(st.tail)
    ensures (match Emit(p, Join(st.condition, st.heading))
             case None => None
             case Some(e) => Run(e, Lines(st.body) + TailLines(st.tail)))
         == match Both(CheckSites(Join(st.condition, st.heading), p.group.value), Find(st.body, p.group.value))
            case None => None
            case Some(f) =>
              match FindTail(st.tail, f.group)
              case None => None
              case Some(t) => Some(ExtendTop(Extend(p, f), t, false))
    decreases st, 0
  {
    var all := Join(st.condition, st.heading);
    HeadingThenBody(p, all, st.body, false);
    match Emit(p, all)
    case None =>
    case Some(e) =>
      RunConcat(e, Lines(st.body), TailLines(st.tail));
      var f := Both(CheckSites(all, p.group.value), Find(st.body, p.group.value));
      if f.Some? {
        ExtendKeeps(p, f.value);
        SimulatesTail(Extend(p, f.value), st.tail);
      }
  }

  lemma {:induction false} SimulatesIf(s: Scan, condition: Checks, heading: Checks, body: Script, tail: Tail, rest: Checks)
    requires WellFormed(s) && s.group.Some? && ReadsAsWritten(body, false) && TailReadsAsWritten(tail)
    ensures var st := If(condition, heading, body, tail, rest);
            Run(s, StmtLines(st)) == ExtendAll(s, FindStmt(st, s.group.value))
    decreases If(condition, heading, body, tail, rest), 1
  {
    var st := If(condition, heading, body, tail, rest);
    var all := Join(condition, heading);
    var p := Push(s, IfBlock);
    assert WellFormed(p) && !InCase(p);
    var lines := Lines(body) + TailLines(tail);
    assert StmtLines(st) == [IfLine(all)] + lines + [CloseLine(rest)];
    hide Emit, Pop, Compare, CheckSites, Join, Run, Step, Extend, ExtendTop;
    RunThree(s, IfLine(all), lines, CloseLine(rest));
    StepOpens(s, all);
    SimulatesBranches(p, st);
    var f := Both(CheckSites(all, s.group.value), Find(body, s.group.value));
    hide Find, Lines, TailLines, FindTail, Both, StmtLines;
    if f.Some? && FindTail(tail, f.value.group).Some? {
      var t := FindTail(tail, f.value.group).value;
      ClosesIf(s, f.value, t);
      StepCloses(ExtendTop(Extend(p, f.value), t, false), rest);
    }
  }

  lemma RunNone(s: Scan)
    requires WellFormed(s)
    ensures Run(s, []) == Some(s)
  {
  }

  lemma {:induction false} SimulatesTail(s: Scan, tail: Tail)
    requires WellFormed(s) && s.group.Some? && s.stack != [] && !InCase(s) && TailReadsAsWritten(tail)
    ensures Run(s, TailLines(tail)) == match FindTail(tail, s.group.value)
                                       case None => None
                                       case Some(t) => Some(ExtendTop(s, t, false))
    decreases tail, 0
  {
    hide Emit, ExtendTop, CheckSites, Run, Find, Lines;
    RunNone(s);
    match tail
    case Fi =>
      ExtendTopNothing(s, s.group.value);
    case Elif(condition, heading, body, next) =>
      var b := Branch(s, false);
      var line := ElifLine(Join(condition, heading));
      assert WellFormed(b) && !InCase(b);
      assert TailLines(tail) == [line] + (Lines(body) + TailLines(next));
      RunConcat(s, [line], Lines(body) + TailLines(next));
      RunOne(s, line);
      RunConcat(b, Lines(body), TailLines(next));
      Simulates(b, body, false);
      var f := Find(body, s.group.value);
      if f.Some? {
        ExtendKeeps(b, f.value);
        SimulatesTail(Extend(b, f.value), next);
        BranchThenExtend(s, false, f.value);
        var t := FindTail(next, f.value.group);
        if t.Some? {
          ExtendTopTwice(s, Branches([f.value.required], f.value.optional, f.value.group), false, t.value, false);
        }
      }
    case Else(heading, body) =>
      var b := Branch(s, false);
      assert WellFormed(b) && !InCase(b);
      RunConcat(s, [ElseLine(heading)], Lines(body));
      RunOne(s, ElseLine(heading));
      HeadingThenBody(b, heading, body, false);
      var f := Both(CheckSites(heading, s.group.value), Find(body, s.group.value));
      if f.Some? {
        BranchThenExtend(s, false, f.value);
      }
  }

  lemma {:induction false} SimulatesCase(s: Scan, word: Checks, arms: Arms, rest: Checks)
    requires WellFormed(s) && s.group.Some? && ArmsReadAsWritten(arms)
    ensures Run(s, StmtLines(Case(word, arms, rest))) == ExtendAll(s, FindStmt(Case(word, arms, rest), s.group.value))
    decreases Case(word, arms, rest), 0
  {
    var p := Push(s, CaseBlock);
    hide Pop, Compare;
    RunThree(s, CaseLine(word), ArmLines(arms), CloseLine(rest));
    SimulatesArms(p, arms);
    var t := FindArms(arms, s.group.value);
    hide FindArms, ArmLines, Run, Extend, ExtendTop, HasDefault;
    if t.Some? {
      ClosesCase(s, t.value, HasDefault(arms));
    }
  }

  lemma ClosesCase(s: Scan, t: Branches, sawDefault: bool)
    requires WellFormed(s)
    ensures var full := ExtendTop(Push(s, CaseBlock), t, sawDefault);
            && WellFormed(full)
            && Pop(full) == ExtendAll(s, Compare([[]] + t.required + (if sawDefault then [] else [[]]), t.optional, t.group))
  {
    hide Extend, ExtendTop, Pop, Pair, SameSizes;
    PushThenExtendTop(s, NewFrame(CaseBlock), t, sawDefault);
    assert [] + t.optional == t.optional;
    var frame := Frame(CaseBlock, [[]] + t.required, t.optional, sawDefault);
    PopExtends(s, frame, t.group);
    assert AllBranches(frame) == [[]] + t.required + (if sawDefault then [] else [[]]);
  }

  lemma {:induction false} SimulatesArms(s: Scan, arms: Arms)
    requires WellFormed(s) && s.group.Some? && InCase(s) && ArmsReadAsWritten(arms)
    ensures Run(s, ArmLines(arms)) == match FindArms(arms, s.group.value)
                                      case None => None
                                      case Some(t) => Some(ExtendTop(s, t, HasDefault(arms)))
    decreases arms, 0
  {
    hide Emit, ExtendTop, CheckSites, Run, Find, Lines;
    RunNone(s);
    match arms
    case Esac =>
      ExtendTopNothing(s, s.group.value);
    case Arm(isDefault, whole, heading, body, next) =>
      var b := Branch(s, isDefault);
      var opening := PlainLine(whole, Some(ArmReading(isDefault, heading)));
      assert WellFormed(b) && InCase(b);
      assert ArmLines(arms) == [opening] + (Lines(body) + ArmLines(next));
      RunConcat(s, [opening], Lines(body) + ArmLines(next));
      RunOne(s, opening);
      HeadingThenBody(b, heading, body, true);
      match Emit(b, heading)
      case None =>
      case Some(e) =>
        RunConcat(e, Lines(body), ArmLines(next));
        var f := Both(CheckSites(heading, s.group.value), Find(body, s.group.value));
        if f.Some? {
          ExtendKeeps(b, f.value);
          SimulatesArms(Extend(b, f.value), next);
          var t := FindArms(next, f.value.group);
          if t.Some? {
            ArmThenMore(s, isDefault, f.value, t, HasDefault(next));
          }
        }
  }

  lemma ArmThenMore(s: Scan, isDefault: bool, f: Found, t: Option<Branches>, sawDefault: bool)
    requires WellFormed(s) && s.stack != [] && WellFormed(Branch(s, isDefault)) && t.Some?
    ensures ExtendTop(Extend(Branch(s, isDefault), f), t.value, sawDefault)
         == ExtendTop(s, AddBranch(Some(f), t).value, isDefault || sawDefault)
  {
    BranchThenExtend(s, isDefault, f);
    ExtendTopTwice(s, Branches([f.required], f.optional, f.group), isDefault, t.value, sawDefault);
  }

  /** The lines before the first `group` line are not looked at. */
  lemma {:induction false} PreambleIgnored(preamble: seq<Line>)
    requires forall k :: 0 <= k < |preamble| ==> !preamble[k].GroupLine?
    ensures Run(INITIAL, preamble) == Some(INITIAL)
  {
    if preamble != [] {
      PreambleIgnored(preamble[1..]);
    }
  }

  /**
   On a whole script, whatever precedes its first `group` line, the scanner and the recursion
   on the tree give the same required and optional sites, or refuse the same scripts.
   */
  lemma ScannerMatchesTree(preamble: seq<Line>, g: string, rest: Checks, script: Script)
    requires forall k :: 0 <= k < |preamble| ==> !preamble[k].GroupLine?
    requires ReadsAsWritten(script, false)
    ensures Sites(preamble + [GroupLine(g, rest)] + Lines(script)) == match Find(script, g)
                                                                case None => None
                                                                case Some(f) => Some((f.required, f.optional))
  {
    var started := INITIAL.(group := Some(g));
    PreambleIgnored(preamble);
    RunConcat(INITIAL, preamble + [GroupLine(g, rest)], Lines(script));
    RunConcat(INITIAL, preamble, [GroupLine(g, rest)]);
    RunOne(INITIAL, GroupLine(g, rest));
    Simulates(started, script, false);
    match Find(script, g)
    case None =>
    case Some(f) => assert [] + f.required == f.required && [] + f.optional == f.optional;
  }

  /** The script proper begins with a `group` line, and what precedes it is not looked at. */
  predicate Started(script: Script) {
    script.Then? && script.first.Group?
  }

  lemma ScannerMatchesScript(preamble: seq<Line>, script: Script)
    requires forall k :: 0 <= k < |preamble| ==> !preamble[k].GroupLine?
    requires Started(script) && ReadsAsWritten(script, false)
    ensures Sites(preamble + Lines(script)) == match Find(script, "")
                                               case None => None
                                               case Some(f) => Some((f.required, f.optional))
  {
    var name, rest := script.first.name, script.first.rest;
    assert StmtLines(script.first) == [GroupLine(name, rest)];
    assert preamble + Lines(script) == preamble + [GroupLine(name, rest)] + Lines(script.rest);
    ScannerMatchesTree(preamble, name, rest, script.rest);
    assert FindStmt(script.first, "") == Some(Found([], [], name));
    if Find(script.rest, name).Some? {
      var f := Find(script.rest, name).value;
      assert [] + f.required == f.required && [] + f.optional == f.optional;
    }
  }
}
