/** Accepted scripts whose executions do not match the sites found in them, one for each kind of gap. */
module GatewayGaps {
  import opened Wrappers
  import opened ShellLists
  import opened GatewaySites
  import opened GatewayLines
  import opened GatewayScript
  import opened GatewayPaths
  import opened GatewayCounts
  import opened GatewaySoundness
  import opened GatewayExactness

  /** A line that is one check call. */
  function One(tag: string): Checks {
    Checks([Part(Always, Check(false, tag))])
  }

  function Alone(st: Stmt): Script {
    Then(st, Done)
  }

  /** A script of one line with one required label. */
  function OneCheck(tag: string): Script {
    Alone(Simple(One(tag), None))
  }

  lemma OneLabel(tag: string)
    ensures One(tag).required == [tag] && One(tag).optional == []
    ensures Least(One(tag).line, true) == 1 == Most(One(tag).line, true)
  {
    var p := Part(Always, Check(false, tag));
    PartLabels(p, []);
    assert [p] + [] == One(tag).line;
    assert [tag] + [] == [tag];
  }

  /** What the first part of a line adds, where it runs. */
  lemma PartLabels(p: Part, rest: seq<Part>)
    ensures forall o :: TagsOf([p] + rest, o) == (if IsCheck(p, o) then [p.command.tag] else []) + TagsOf(rest, o)
    ensures forall ok :: !Executes(p.op, ok) ==>
      Least([p] + rest, ok) == Least(rest, ok) && Most([p] + rest, ok) == Most(rest, ok)
    ensures p.command.Check? ==> forall ok :: Executes(p.op, ok) ==>
      && Least([p] + rest, ok) == (if p.command.optional then 0 else 1) + Least(rest, true)
      && Most([p] + rest, ok) == (if p.command.optional then 0 else 1) + Most(rest, true)
  {
    assert ([p] + rest)[1..] == rest;
  }

  /** A line of two required checks under one label. */
  lemma TwoParts(op: Op, tag: string)
    ensures var c := Checks([Part(Always, Check(false, tag)), Part(op, Check(false, tag))]);
            && c.required == [tag, tag] && c.optional == []
            && Least(c.line, true) == Most(c.line, true) == if Executes(op, true) then 2 else 1
  {
    var p, q := Part(Always, Check(false, tag)), Part(op, Check(false, tag));
    PartLabels(p, [q]);
    PartLabels(q, []);
    assert [p] + [q] == [p, q] && [q] + [] == [q];
    assert [tag] + ([tag] + []) == [tag, tag];
  }

  lemma NoLabels()
    ensures NO_CHECKS.required == [] && NO_CHECKS.optional == [] && Join(NO_CHECKS, NO_CHECKS) == NO_CHECKS
    ensures forall g :: CheckSites(NO_CHECKS, g) == Some(Found([], [], g)) && MayRun(NO_CHECKS, g, []) && LineRuns(NO_CHECKS, g, [])
  {
    JoinNone(NO_CHECKS);
  }

  lemma OneRuns(tag: string, g: string)
    ensures LineRuns(One(tag), g, [Row(false, g, tag)]) && MayRun(One(tag), g, [Row(false, g, tag)])
    ensures CheckSites(One(tag), g) == Some(Found([Site(g, [tag])], [], g))
  {
    OneLabel(tag);
    var line, rows := One(tag).line, [Row(false, g, tag)];
    assert line[1..] == [] && rows[1..] == [];
    assert Emits(line[1..], true, g, rows[1..]);
  }

  lemma NoSites()
    ensures var none: seq<Site> := []; none + none == none
  {
  }

  lemma FoundAlone(st: Stmt, g: string)
    ensures Find(Alone(st), g) == FindStmt(st, g)
  {
    if FindStmt(st, g).Some? {
      var f := FindStmt(st, g).value;
      assert f.required + [] == f.required && f.optional + [] == f.optional;
      assert Find(Done, f.group) == Some(Found([], [], f.group));
    }
  }

  lemma RunsAlone(st: Stmt, g: string, rows: seq<Row>, g2: string)
    requires RunsStmt(st, g, rows, g2)
    ensures Runs(Alone(st), g, rows, g2)
  {
    RunsInTurn(st, Done, g, rows, g2, [], g2);
    assert rows + [] == rows;
  }

  /** A statement with nothing around it runs as it does inside. */
  lemma Bared(st: Stmt, g: string, rows: seq<Row>, g2: string)
    requires Before(st) == NO_CHECKS && After(st) == NO_CHECKS && RunsInside(st, g, rows, g2)
    ensures RunsStmt(st, g, rows, g2)
  {
    NoLabels();
    Surrounded(st, g, [], rows, g2, []);
    assert [] + rows + [] == rows;
  }

  lemma OneCheckFound(tag: string, g: string)
    ensures Find(OneCheck(tag), g) == Some(Found([Site(g, [tag])], [], g))
    ensures Runs(OneCheck(tag), g, [Row(false, g, tag)], g)
  {
    var st := Simple(One(tag), None);
    FoundAlone(st, g);
    OneRuns(tag, g);
    Bared(st, g, [Row(false, g, tag)], g);
    RunsAlone(st, g, [Row(false, g, tag)], g);
  }

  // ----- lines ---------------------------------------------------------------------------------

  /**
   One check whichever way the probe goes; none if it fails; none if it does not; two checks where
   one site was found.
   */
  lemma AndOrLines(a: string, b: string)
    ensures PinnedLine(Checks([Part(Always, Other), Part(IfOk, Check(false, a)), Part(IfFailed, Check(false, b))]))
    ensures !PinnedLine(Checks([Part(Always, Other), Part(IfOk, Check(false, a))]))
    ensures !PinnedLine(Checks([Part(Always, Other), Part(IfFailed, Check(false, b))]))
    ensures !PinnedLine(Checks([Part(Always, Check(false, a)), Part(Always, Check(false, b))]))
  {
    var last, both := [Part(IfFailed, Check(false, b))], [Part(IfOk, Check(false, a)), Part(IfFailed, Check(false, b))];
    assert last[1..] == [] && both[1..] == last;
    assert Least(last, true) == Most(last, true) == 0 && Least(last, false) == Most(last, false) == 1;
    assert Least(both, true) == Most(both, true) == 1 && Least(both, false) == Most(both, false) == 1;
    var c := Checks([Part(Always, Other)] + both);
    assert c.line[1..] == both;
    assert TagsOf(both, false)[0] == a;
    var d := Checks([Part(Always, Other), Part(IfOk, Check(false, a))]);
    assert d.line[1..] == [Part(IfOk, Check(false, a))] && d.line[1..][1..] == [];
    assert Least(d.line[1..], false) == 0 && Most(d.line[1..], true) == 1;
    var e := Checks([Part(Always, Other)] + last);
    assert e.line[1..] == last;
    var f := Checks([Part(Always, Check(false, a)), Part(Always, Check(false, b))]);
    assert f.line[1..] == [Part(Always, Check(false, b))] && f.line[1..][1..] == [];
    assert Least(f.line[1..], true) == 1;
  }

  /** An arm whose second check never runs, and a line with one check too many, make up for each other. */
  lemma TwoWrongs(tag: string, g: string)
    ensures var two := Checks([Part(Always, Check(false, tag)), Part(Always, Check(false, tag))]);
            var arm := Checks([Part(Always, Check(false, tag)), Part(IfFailed, Check(false, tag))]);
            var s := Then(Simple(two, None), Alone(OneLine(NO_CHECKS, arm, arm)));
            Find(s, g).Some? && !Pinned(s) && !Capable(s) && LeastRows(s) == Size(s) == 3 && MostRows(s) == Some(3)
  {
    var two := Checks([Part(Always, Check(false, tag)), Part(Always, Check(false, tag))]);
    var arm := Checks([Part(Always, Check(false, tag)), Part(IfFailed, Check(false, tag))]);
    var st, on := Simple(two, None), OneLine(NO_CHECKS, arm, arm);
    var s := Then(st, Alone(on));
    TwoParts(Always, tag);
    TwoParts(IfFailed, tag);
    TwoFound(two, arm, tag, g);
    TwoCounted(two, arm);
    assert !PinnedStmt(st) && !CapableStmt(on);
    hide FindStmt, LeastStmt, MostStmt, SizeStmt, TagsOf, Least, Most;
    assert LeastRows(Done) == 0 && MostRows(Done) == Some(0) && Size(Done) == 0;
    assert LeastRows(Alone(on)) == 1 && MostRows(Alone(on)) == Some(1) && Size(Alone(on)) == 2;
  }

  lemma TwoFound(two: Checks, arm: Checks, tag: string, g: string)
    requires two.required == arm.required == [tag, tag] && two.optional == arm.optional == []
    ensures Find(Then(Simple(two, None), Alone(OneLine(NO_CHECKS, arm, arm))), g).Some?
  {
    FoundAlone(OneLine(NO_CHECKS, arm, arm), g);
    NoLabels();
  }

  lemma TwoCounted(two: Checks, arm: Checks)
    requires Least(two.line, true) == Most(two.line, true) == |two.required| == |arm.required| == 2
    requires Least(arm.line, true) == Most(arm.line, true) == 1
    ensures var st := Simple(two, None); LeastStmt(st) == 2 && SizeStmt(st) == 1 && MostStmt(st) == Some(2)
    ensures var on := OneLine(NO_CHECKS, arm, arm); LeastStmt(on) == 1 && MostStmt(on) == Some(1) && SizeStmt(on) == 2
  {
    var st, on := Simple(two, None), OneLine(NO_CHECKS, arm, arm);
    NoLabels();
    assert LeastOf(NO_CHECKS) == 0 && MostOf(NO_CHECKS) == 0;
    assert Before(st) == After(st) == Before(on) == After(on) == NO_CHECKS;
  }

  // ----- loops and keywords ----------------------------------------------------------------------

  function Times(tag: string, g: string, n: nat): seq<Row> {
    if n == 0 then [] else [Row(false, g, tag)] + Times(tag, g, n - 1)
  }

  lemma {:induction false} TimesRepeat(tag: string, g: string, n: nat)
    ensures Repeats(One(tag), n, g, Times(tag, g, n)) && |Required(Times(tag, g, n))| == n
  {
    if n > 0 {
      TimesRepeat(tag, g, n - 1);
      OneRuns(tag, g);
      HeadRow(Row(false, g, tag), Times(tag, g, n - 1));
      RepeatOnce(One(tag), n - 1, g, [Row(false, g, tag)], Times(tag, g, n - 1));
    }
  }

  /** A loop on one line is accepted as one required check, and emits any number of them. */
  lemma LoopOnOneLine(tag: string, g: string, n: nat)
    ensures var s := Alone(OneLineLoop(One(tag)));
            && Find(s, g) == Some(Found([Site(g, [tag])], [], g))
            && Runs(s, g, Times(tag, g, n), g) && |Required(Times(tag, g, n))| == n
  {
    var st := OneLineLoop(One(tag));
    FoundAlone(st, g);
    OneRuns(tag, g);
    TimesRepeat(tag, g, n);
    Bared(st, g, Times(tag, g, n), g);
    RunsAlone(st, g, Times(tag, g, n), g);
  }

  /** An `if` that holds nothing, with something behind its `fi`. */
  lemma EmptyIf(rest: Checks, g: string)
    ensures var st := If(NO_CHECKS, NO_CHECKS, Done, Fi, rest);
            FindStmt(st, g) == Some(Found([], [], g)) && RunsInside(st, g, [], g)
  {
    var st := If(NO_CHECKS, NO_CHECKS, Done, Fi, rest);
    FindIf(st, g);
    NoLabels();
    NoSites();
    var f := Found([], [], g);
    assert Both(Some(f), Find(Done, g)) == Some(f);
    assert FindTail(Fi, g) == Some(Branches([], [], g));
    assert Pair([[], []]) == [];
    var none: seq<Row> := [];
    assert RunsTail(Fi, g, none, g);
  }

  lemma AfterEmptyIf(rest: Checks, g: string, rows: seq<Row>)
    requires MayRun(rest, g, rows)
    ensures var s := Alone(If(NO_CHECKS, NO_CHECKS, Done, Fi, rest)); Find(s, g) == Some(Found([], [], g)) && Runs(s, g, rows, g)
  {
    var st := If(NO_CHECKS, NO_CHECKS, Done, Fi, rest);
    EmptyIf(rest, g);
    FoundAlone(st, g);
    NoLabels();
    Surrounded(st, g, [], [], g, rows);
    assert [] + [] + rows == rows;
    RunsAlone(st, g, rows, g);
  }

  /** A check beside the `fi` is not found at all, and is emitted. */
  lemma CheckBesideFi(tag: string, g: string)
    ensures var s := Alone(If(NO_CHECKS, NO_CHECKS, Done, Fi, One(tag)));
            && Find(s, g) == Some(Found([], [], g)) && Runs(s, g, [Row(false, g, tag)], g)
  {
    OneRuns(tag, g);
    AfterEmptyIf(One(tag), g, [Row(false, g, tag)]);
  }

  /** An optional check beside the `fi` is emitted although no site was found for it. */
  lemma OptionalBesideFi(tag: string, g: string)
    ensures var s := Alone(If(NO_CHECKS, NO_CHECKS, Done, Fi, Checks([Part(Always, Check(true, tag))])));
            && Find(s, g) == Some(Found([], [], g)) && Pinned(s)
            && Runs(s, g, [Row(true, g, tag)], g) && !Embeds(Optional([Row(true, g, tag)]), [], false)
  {
    var c, row := Checks([Part(Always, Check(true, tag))]), [Row(true, g, tag)];
    assert c.line[1..] == [] && row[1..] == [];
    assert Emits(c.line[1..], true, g, row[1..]);
    AfterEmptyIf(c, g, row);
    HeadRow(row[0], []);
    assert row == [row[0]] + [];
    PartLabels(c.line[0], []);
    assert c.line == [c.line[0]] + [];
    assert Most(c.line, true) == 0 && Most(c.line, false) == 0;
    EmptyIfIsPinned(c);
  }

  lemma EmptyIfIsPinned(rest: Checks)
    requires Quiet(rest)
    ensures Pinned(Alone(If(NO_CHECKS, NO_CHECKS, Done, Fi, rest)))
  {
    NoLabels();
    assert Pinned(Done) && PinnedLine(NO_CHECKS);
    assert PinnedStmt(If(NO_CHECKS, NO_CHECKS, Done, Fi, rest));
  }

  lemma TwoBranches(st: Stmt, a: string, b: string, g: string)
    requires st.If? && st.tail == Else(NO_CHECKS, OneCheck(b))
    requires Both(CheckSites(Join(st.condition, st.heading), g), Find(st.body, g)) == Some(Found([Site(g, [a])], [], g))
    ensures FindStmt(st, g).Some? && |FindStmt(st, g).value.required| == 1
  {
    FindIf(st, g);
    OneCheckFound(b, g);
    NoSites();
    NoLabels();
    hide OneCheck, FindStmt;
    var t := FindTail(st.tail, g).value;
    assert [] + [Site(g, [b])] == [Site(g, [b])];
    assert t.required == [[Site(g, [b])]];
    var branches := IfBranches(Found([Site(g, [a])], [], g), t);
    assert |branches| == 2 && branches[0] == [Site(g, [a])] && branches[1] == [Site(g, [b])];
    assert SameSizes(branches);
  }

  /** The check in a condition is paired with the first branch, and is emitted with the second too. */
  lemma CheckInCondition(a: string, b: string, g: string)
    ensures var s := Alone(If(One(a), NO_CHECKS, Done, Else(NO_CHECKS, OneCheck(b)), NO_CHECKS));
            && Find(s, g).Some? && |Find(s, g).value.required| == 1
            && Runs(s, g, [Row(false, g, a), Row(false, g, b)], g)
  {
    hide FindStmt, Find, OneCheck, One, Runs, RunsStmt, MayRun, CheckSites;
    var tail := Else(NO_CHECKS, OneCheck(b));
    var st := If(One(a), NO_CHECKS, Done, tail, NO_CHECKS);
    var first, second := [Row(false, g, a)], [Row(false, g, b)];
    FoundAlone(st, g);
    OneRuns(a, g);
    OneCheckFound(b, g);
    NoLabels();
    ConditionFound(st, a, g);
    TwoBranches(st, a, b, g);
    HeadedRuns(NO_CHECKS, OneCheck(b), g, [], second, g);
    assert [] + second == second;
    assert RunsTail(tail, g, second, g);
    Surrounded(st, g, first, second, g, []);
    assert first + second + [] == [Row(false, g, a), Row(false, g, b)];
    RunsAlone(st, g, [Row(false, g, a), Row(false, g, b)], g);
  }

  lemma ConditionFound(st: Stmt, a: string, g: string)
    requires st.If? && st.condition == One(a) && st.heading == NO_CHECKS && st.body == Done
    ensures Both(CheckSites(Join(st.condition, st.heading), g), Find(st.body, g)) == Some(Found([Site(g, [a])], [], g))
  {
    OneRuns(a, g);
    assert Join(One(a), NO_CHECKS) == One(a) by {
      assert One(a).line + NO_CHECKS.line == One(a).line;
    }
    assert [Site(g, [a])] + [] == [Site(g, [a])];
    assert Find(Done, g) == Some(Found([], [], g));
  }

  /**
   A conditional with an `elif` and no `else` is accepted although the required check of its
   branches is not emitted when neither condition holds.
   */
  lemma ElifWithoutElse(a: string, b: string, g: string)
    ensures var s := Alone(If(NO_CHECKS, NO_CHECKS, OneCheck(a), Elif(NO_CHECKS, NO_CHECKS, OneCheck(b), Fi), NO_CHECKS));
            Find(s, g).Some? && |Find(s, g).value.required| == 1 && Runs(s, g, [], g)
  {
    hide OneCheck;
    var tail := Elif(NO_CHECKS, NO_CHECKS, OneCheck(b), Fi);
    var st := If(NO_CHECKS, NO_CHECKS, OneCheck(a), tail, NO_CHECKS);
    FoundAlone(st, g);
    TwoBranchesFound(st, a, b, g);
    NoLabels();
    hide Find, FindStmt, Runs, RunsStmt;
    var none: seq<Row> := [];
    assert none[..0] == none && none[0..] == none && RunsTail(Fi, g, none, g);
    assert RunsTail(tail, g, none, g);
    Bared(st, g, none, g);
    RunsAlone(st, g, none, g);
  }

  lemma TwoBranchesFound(st: Stmt, a: string, b: string, g: string)
    requires st == If(NO_CHECKS, NO_CHECKS, OneCheck(a), Elif(NO_CHECKS, NO_CHECKS, OneCheck(b), Fi), NO_CHECKS)
    ensures FindStmt(st, g).Some? && |FindStmt(st, g).value.required| == 1
  {
    hide OneCheck, FindStmt;
    FindIf(st, g);
    NoLabels();
    OneCheckFound(a, g);
    OneCheckFound(b, g);
    FiFound(g);
    var f := Both(CheckSites(NO_CHECKS, g), Find(OneCheck(a), g)).value;
    var t := FindTail(st.tail, g).value;
    assert f.required == [] + [Site(g, [a])] && t.required == [[Site(g, [b])]] + [];
    var branches := IfBranches(f, t);
    assert |branches| == 2 && SameSizes(branches);
  }

  // ----- groups --------------------------------------------------------------------------------------

  /** A `group` line in a branch: the check after it is found in that group, and runs in the other. */
  lemma GroupInBranch(tag: string, g: string, h: string)
    requires g != h
    ensures var s := Then(If(NO_CHECKS, NO_CHECKS, Alone(Group(h, NO_CHECKS)), Fi, NO_CHECKS), OneCheck(tag));
            && Find(s, g) == Some(Found([Site(h, [tag])], [], h)) && Pinned(s)
            && Runs(s, g, [Row(false, g, tag)], g)
  {
    var st := If(NO_CHECKS, NO_CHECKS, Alone(Group(h, NO_CHECKS)), Fi, NO_CHECKS);
    GroupBranchIsPinned(tag, h);
    BranchGroupFound(tag, g, h);
    OneCheckFound(tag, g);
    hide Pinned, Find, OneCheck;
    var none: seq<Row> := [];
    assert RunsTail(Fi, g, none, g);
    Bared(st, g, none, g);
    RunsInTurn(st, OneCheck(tag), g, none, g, [Row(false, g, tag)], g);
    assert none + [Row(false, g, tag)] == [Row(false, g, tag)];
  }

  /** Branches in two groups: the site has the group of the first and the labels of both, and the second runs in its own. */
  lemma BranchesInTwoGroups(a: string, b: string, g: string, h: string, before: string)
    requires a != b && g != h
    ensures var yes, no := Then(Group(g, NO_CHECKS), OneCheck(a)), Then(Group(h, NO_CHECKS), OneCheck(b));
            var s := Alone(If(NO_CHECKS, NO_CHECKS, yes, Else(NO_CHECKS, no), NO_CHECKS));
            && Find(s, before) == Some(Found([Site(g, [a, b])], [], h))
            && Runs(s, before, [Row(false, h, b)], h)
  {
    var yes, no := Then(Group(g, NO_CHECKS), OneCheck(a)), Then(Group(h, NO_CHECKS), OneCheck(b));
    var st := If(NO_CHECKS, NO_CHECKS, yes, Else(NO_CHECKS, no), NO_CHECKS);
    FoundAlone(st, before);
    NoLabels();
    GroupThenCheck(a, g, before);
    GroupThenCheck(b, h, g);
    GroupThenCheck(b, h, before);
    TwoPaired(a, b, g, h);
    FindIf(st, before);
    hide OneCheck, FindStmt, Find, Runs, RunsStmt, MayRun, CheckSites, Pair;
    TwoBranchesOfGroups(st, yes, no, a, b, g, h, before);
    HeadedRuns(NO_CHECKS, no, before, [], [Row(false, h, b)], h);
    assert [] + [Row(false, h, b)] == [Row(false, h, b)];
    assert RunsTail(st.tail, before, [Row(false, h, b)], h);
    Bared(st, before, [Row(false, h, b)], h);
    RunsAlone(st, before, [Row(false, h, b)], h);
  }

  lemma GroupThenCheck(a: string, g: string, before: string)
    ensures var s := Then(Group(g, NO_CHECKS), OneCheck(a));
            Find(s, before) == Some(Found([Site(g, [a])], [], g)) && Runs(s, before, [Row(false, g, a)], g)
  {
    OneCheckFound(a, g);
    NoLabels();
    FoundInTurn(Group(g, NO_CHECKS), OneCheck(a), before);
    assert [] + [Site(g, [a])] == [Site(g, [a])];
    Bared(Group(g, NO_CHECKS), before, [], g);
    RunsInTurn(Group(g, NO_CHECKS), OneCheck(a), before, [], g, [Row(false, g, a)], g);
    assert [] + [Row(false, g, a)] == [Row(false, g, a)];
  }

  lemma TwoPaired(a: string, b: string, g: string, h: string)
    requires a != b
    ensures SameSizes([[Site(g, [a])], [Site(h, [b])]]) && Pair([[Site(g, [a])], [Site(h, [b])]]) == [Site(g, [a, b])]
  {
    var branches := [[Site(g, [a])], [Site(h, [b])]];
    assert LabelsAt(branches, 0, 0) == [];
    assert [a][1..] == [] && [b][1..] == [] && [] + [a] == [a] && [a] + [b] == [a, b];
    assert Merge([], [a]) == Merge([a], []) == [a] && Merge([a], [b]) == Merge([a, b], []) == [a, b];
    assert LabelsAt(branches, 0, 1) == [a] && LabelsAt(branches, 0, 2) == [a, b];
  }

  lemma TwoBranchesOfGroups(st: Stmt, yes: Script, no: Script, a: string, b: string, g: string, h: string, before: string)
    requires st == If(NO_CHECKS, NO_CHECKS, yes, Else(NO_CHECKS, no), NO_CHECKS)
    requires Find(yes, before) == Some(Found([Site(g, [a])], [], g)) && Find(no, g) == Some(Found([Site(h, [b])], [], h))
    requires SameSizes([[Site(g, [a])], [Site(h, [b])]]) && Pair([[Site(g, [a])], [Site(h, [b])]]) == [Site(g, [a, b])]
    ensures FindStmt(st, before) == Some(Found([Site(g, [a, b])], [], h))
  {
    NoLabels();
    FindIf(st, before);
    NoSites();
    hide FindStmt, Pair, SameSizes;
    assert [] + [Site(g, [a])] == [Site(g, [a])] && [] + [Site(h, [b])] == [Site(h, [b])];
    var f := Both(CheckSites(NO_CHECKS, before), Find(yes, before)).value;
    var t := FindTail(st.tail, g).value;
    assert f == Found([Site(g, [a])], [], g) && t == Branches([[Site(h, [b])]], [], h);
    assert IfBranches(f, t) == [[Site(g, [a])], [Site(h, [b])]];
  }

  lemma GroupBranchIsPinned(tag: string, h: string)
    ensures Pinned(Then(If(NO_CHECKS, NO_CHECKS, Alone(Group(h, NO_CHECKS)), Fi, NO_CHECKS), OneCheck(tag)))
  {
    NoLabels();
    OneLabel(tag);
    assert PinnedLine(NO_CHECKS) && PinnedLine(One(tag)) && Quiet(NO_CHECKS);
    assert Pinned(Done) && PinnedStmt(Group(h, NO_CHECKS));
    assert Pinned(Alone(Group(h, NO_CHECKS)));
    assert PinnedStmt(If(NO_CHECKS, NO_CHECKS, Alone(Group(h, NO_CHECKS)), Fi, NO_CHECKS));
    assert PinnedStmt(Simple(One(tag), None));
    assert Pinned(OneCheck(tag));
  }

  lemma BranchGroupFound(tag: string, g: string, h: string)
    ensures var s := Then(If(NO_CHECKS, NO_CHECKS, Alone(Group(h, NO_CHECKS)), Fi, NO_CHECKS), OneCheck(tag));
            Find(s, g) == Some(Found([Site(h, [tag])], [], h))
  {
    var st := If(NO_CHECKS, NO_CHECKS, Alone(Group(h, NO_CHECKS)), Fi, NO_CHECKS);
    NoSites();
    NoLabels();
    FoundAlone(Group(h, NO_CHECKS), g);
    FindIf(st, g);
    OneCheckFound(tag, h);
    assert Pair([[], []]) == [];
    FiFound(h);
    FoundInTurn(st, OneCheck(tag), g);
    hide Find, FindTail, OneCheck;
    assert FindStmt(st, g) == Some(Found([], [], h));
    assert [] + [Site(h, [tag])] == [Site(h, [tag])];
  }

  lemma FiFound(g: string)
    ensures FindTail(Fi, g) == Some(Branches([], [], g))
  {
  }

  lemma FoundInTurn(first: Stmt, rest: Script, g: string)
    ensures Find(Then(first, rest), g) == if FindStmt(first, g).None? then None
                                          else Both(FindStmt(first, g), Find(rest, FindStmt(first, g).value.group))
  {
  }
}
