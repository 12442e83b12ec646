/**
 Executions of a gateway script, and what the sites found in its text say about every one of
 them: which paths emit which register rows.
 */
module GatewayPaths {
  import opened ShellLists
  import opened GatewaySites
  import opened GatewayLines
  import opened GatewayScript

  // ----- executions ---------------------------------------------------------------------

  /** A loop on one line runs its line in each iteration. */
  ghost predicate Repeats(c: Checks, n: nat, g: string, rows: seq<Row>) {
    if n == 0 then rows == []
    else exists k: nat :: k <= |rows| && LineRuns(c, g, rows[..k]) && Repeats(c, n - 1, g, rows[k..])
  }

  const NO_CHECKS := Checks([])

  /** What runs on the way into a statement, whichever branch is taken. */
  function Before(st: Stmt): Checks {
    match st
    case OneLine(condition, _, _) => condition
    case If(condition, _, _, _, _) => condition
    case Case(word, _, _) => word
    case _ => NO_CHECKS
  }

  /** What runs after a statement, on the line of its last keyword. */
  function After(st: Stmt): Checks {
    match st
    case Group(_, rest) => rest
    case If(_, _, _, _, rest) => rest
    case Case(_, _, rest) => rest
    case Loop(_, _, rest) => rest
    case _ => NO_CHECKS
  }

  /** Started in group `g`, the script can emit these rows and end in group `g2`. */
  ghost predicate Runs(s: Script, g: string, rows: seq<Row>, g2: string)
    decreases s, 0
  {
    match s
    case Done => rows == [] && g2 == g
    case Then(first, rest) =>
      exists k: nat, m: string ::
        k <= |rows| && RunsStmt(first, g, rows[..k], m) && Runs(rest, m, rows[k..], g2)
  }

  ghost predicate RunsStmt(st: Stmt, g: string, rows: seq<Row>, g2: string)
    decreases st, 1
  {
    exists i: nat, j: nat :: i <= j <= |rows|
      && MayRun(Before(st), g, rows[..i]) && RunsInside(st, g, rows[i..j], g2) && MayRun(After(st), g2, rows[j..])
  }

  ghost predicate RunsInside(st: Stmt, g: string, rows: seq<Row>, g2: string)
    decreases st, 0
  {
    match st
    case Group(name, _) => rows == [] && g2 == name
    case Simple(checks, _) => LineRuns(checks, g, rows) && g2 == g
    case OneLine(_, yes, no) => (LineRuns(yes, g, rows) || LineRuns(no, g, rows)) && g2 == g
    case OneLineLoop(checks) => (exists n: nat :: Repeats(checks, n, g, rows)) && g2 == g
    case If(_, heading, body, tail, _) => RunsHeaded(heading, body, g, rows, g2) || RunsTail(tail, g, rows, g2)
    case Case(_, arms, _) => RunsArms(arms, g, rows, g2) || (!HasDefault(arms) && rows == [] && g2 == g)
    case Loop(heading, body, _) => exists n: nat :: RunsLoop(heading, body, n, g, rows, g2)
  }

  ghost predicate RunsHeaded(heading: Checks, body: Script, g: string, rows: seq<Row>, g2: string)
    decreases body, 1
  {
    exists k: nat :: k <= |rows| && LineRuns(heading, g, rows[..k]) && Runs(body, g, rows[k..], g2)
  }

  /** One of the later branches, or none of them if there is no `else`. */
  ghost predicate RunsTail(t: Tail, g: string, rows: seq<Row>, g2: string)
    decreases t, 0
  {
    match t
    case Fi => rows == [] && g2 == g
    case Elif(condition, heading, body, tail) =>
      exists k: nat :: k <= |rows| && MayRun(condition, g, rows[..k])
        && (RunsHeaded(heading, body, g, rows[k..], g2) || RunsTail(tail, g, rows[k..], g2))
    case Else(heading, body) => RunsHeaded(heading, body, g, rows, g2)
  }

  ghost predicate RunsArms(a: Arms, g: string, rows: seq<Row>, g2: string)
    decreases a, 0
  {
    match a
    case Esac => false
    case Arm(_, _, heading, body, next) => RunsHeaded(heading, body, g, rows, g2) || RunsArms(next, g, rows, g2)
  }

  ghost predicate RunsLoop(heading: Checks, body: Script, n: nat, g: string, rows: seq<Row>, g2: string)
    decreases body, 2, n
  {
    if n == 0 then rows == [] && g2 == g
    else exists k: nat, m: string ::
           k <= |rows| && RunsHeaded(heading, body, g, rows[..k], m) && RunsLoop(heading, body, n - 1, m, rows[k..], g2)
  }

  // ----- what the found sites promise -------------------------------------------------------

  /** The row is a check of this site; `grouped` says whether groups have to agree too. */
  predicate Fits(row: Row, site: Site, grouped: bool) {
    row.tag in site.labels && (grouped ==> row.group == site.group)
  }

  predicate Matches(rows: seq<Row>, sites: seq<Site>, grouped: bool) {
    |rows| == |sites| && forall i :: 0 <= i < |rows| ==> Fits(rows[i], sites[i], grouped)
  }

  /** The rows are checks of some of the sites, in order, each site at most once. */
  predicate Embeds(rows: seq<Row>, sites: seq<Site>, grouped: bool) {
    if sites == [] then rows == []
    else
      || Embeds(rows, sites[1..], grouped)
      || (rows != [] && Fits(rows[0], sites[0], grouped) && Embeds(rows[1..], sites[1..], grouped))
  }

  lemma {:induction false} NoneEmbed(sites: seq<Site>, grouped: bool)
    ensures Embeds([], sites, grouped)
  {
    if sites != [] {
      NoneEmbed(sites[1..], grouped);
    }
  }

  lemma {:induction false} EmbedsConcat(a: seq<Row>, s: seq<Site>, b: seq<Row>, t: seq<Site>, grouped: bool)
    requires Embeds(a, s, grouped) && Embeds(b, t, grouped)
    ensures Embeds(a + b, s + t, grouped)
    decreases |s|
  {
    if s == [] {
      assert s + t == t && a + b == b;
    } else {
      assert (s + t)[1..] == s[1..] + t;
      if Embeds(a, s[1..], grouped) {
        EmbedsConcat(a, s[1..], b, t, grouped);
      } else {
        EmbedsConcat(a[1..], s[1..], b, t, grouped);
        assert (a + b)[1..] == a[1..] + b;
      }
    }
  }

  lemma EmbedsWider(rows: seq<Row>, before: seq<Site>, sites: seq<Site>, after: seq<Site>, grouped: bool)
    requires Embeds(rows, sites, grouped)
    ensures Embeds(rows, before + sites, grouped) && Embeds(rows, sites + after, grouped)
  {
    NoneEmbed(before, grouped);
    NoneEmbed(after, grouped);
    EmbedsConcat([], before, rows, sites, grouped);
    EmbedsConcat(rows, sites, [], after, grouped);
    assert [] + rows == rows && rows + [] == rows;
  }

  lemma {:induction false} PickedEmbeds(labels: seq<string>, g: string, ga: string, rows: seq<Row>, grouped: bool)
    requires Picks(labels, g, rows) && (grouped ==> g == ga)
    ensures Embeds(rows, Singles(labels, ga), grouped)
    decreases |labels|
  {
    if labels != [] {
      var sites := Singles(labels, ga);
      assert sites[1..] == Singles(labels[1..], ga);
      if Picks(labels[1..], g, rows) {
        PickedEmbeds(labels[1..], g, ga, rows, grouped);
      } else {
        PickedEmbeds(labels[1..], g, ga, rows[1..], grouped);
        assert labels[0] in sites[0].labels;
      }
    }
  }

  // ----- which scripts are pinned --------------------------------------------------------------

  function HeadSize(c: Checks): nat {
    if c.required == [] then 0 else 1
  }

  /** The number of required checks read off the text, following first branches. */
  function Size(s: Script): nat {
    match s
    case Done => 0
    case Then(first, rest) => SizeStmt(first) + Size(rest)
  }

  function SizeStmt(st: Stmt): nat {
    match st
    case Simple(checks, _) => HeadSize(checks)
    case OneLineLoop(checks) => HeadSize(checks)
    case OneLine(_, yes, _) => |yes.required|
    case If(condition, heading, body, _, _) => HeadSize(Join(condition, heading)) + Size(body)
    case _ => 0
  }

  predicate EndsInElse(t: Tail) {
    t.Else? || (t.Elif? && EndsInElse(t.tail))
  }

  /** Whatever its other commands do, the line emits one check, or none if it has no label. */
  predicate PinnedLine(c: Checks) {
    Least(c.line, true) == HeadSize(c) == Most(c.line, true)
  }

  /** An arm of a one-line conditional emits all its checks. */
  predicate PinnedArm(c: Checks) {
    Least(c.line, true) == |c.required| == Most(c.line, true)
  }

  /** Nothing required can run here. */
  predicate Quiet(c: Checks) {
    MostOf(c) == 0
  }

  /**
   Each line with labels emits exactly one check, an arm of a one-line conditional all its checks;
   and checks run only where the scanner looks and the shell goes exactly once: none in a
   condition, beside a `group` name, the word of a `case` or a closing keyword, on an `elif` line
   or in a loop on one line; and a conditional with an `elif` and no `else` holds none at all.
   */
  predicate Pinned(s: Script) {
    match s
    case Done => true
    case Then(first, rest) => PinnedStmt(first) && Pinned(rest)
  }

  predicate PinnedStmt(st: Stmt)
    decreases st, 1
  {
    (if st.If? then st.condition.required == [] else Quiet(Before(st))) && Quiet(After(st)) && PinnedInside(st)
  }

  predicate PinnedInside(st: Stmt)
    decreases st, 0
  {
    match st
    case Group(_, _) => true
    case Simple(checks, _) => PinnedLine(checks)
    case OneLine(_, yes, no) => PinnedArm(yes) && PinnedArm(no)
    case OneLineLoop(checks) => checks.required == []
    case If(_, heading, body, tail, _) =>
      && PinnedLine(heading) && Pinned(body) && PinnedTail(tail)
      && (tail.Elif? && !EndsInElse(tail) ==> heading.required == [] && Size(body) == 0)
    case Case(_, arms, _) => PinnedArms(arms)
    case Loop(heading, body, _) => PinnedLine(heading) && Pinned(body)
  }

  predicate PinnedTail(t: Tail) {
    match t
    case Fi => true
    case Elif(condition, heading, body, tail) =>
      Quiet(condition) && Most(heading.line, true) == 0 && Pinned(body) && PinnedTail(tail)
    case Else(heading, body) => PinnedLine(heading) && Pinned(body)
  }

  predicate PinnedArms(a: Arms) {
    match a
    case Esac => true
    case Arm(_, _, heading, body, next) => PinnedLine(heading) && Pinned(body) && PinnedArms(next)
  }

  /** The same of optional checks, which may stand in the condition of an `if` since its line is scanned. */
  predicate PinnedOptionals(s: Script) {
    match s
    case Done => true
    case Then(first, rest) => PinnedOptionalsStmt(first) && PinnedOptionals(rest)
  }

  predicate PinnedOptionalsStmt(st: Stmt)
    decreases st, 1
  {
    (st.If? || Before(st).optional == []) && After(st).optional == [] && PinnedOptionalsInside(st)
  }

  predicate PinnedOptionalsInside(st: Stmt)
    decreases st, 0
  {
    match st
    case OneLineLoop(checks) => checks.optional == []
    case If(_, _, body, tail, _) => PinnedOptionals(body) && PinnedOptionalsTail(tail)
    case Case(_, arms, _) => PinnedOptionalsArms(arms)
    case Loop(_, body, _) => PinnedOptionals(body)
    case _ => true
  }

  predicate PinnedOptionalsTail(t: Tail) {
    match t
    case Fi => true
    case Elif(condition, heading, body, tail) =>
      condition.optional == [] && heading.optional == [] && PinnedOptionals(body) && PinnedOptionalsTail(tail)
    case Else(_, body) => PinnedOptionals(body)
  }

  predicate PinnedOptionalsArms(a: Arms) {
    match a
    case Esac => true
    case Arm(_, _, _, body, next) => PinnedOptionals(body) && PinnedOptionalsArms(next)
  }

  /** No `group` line anywhere in the script. */
  predicate OneGroup(s: Script) {
    match s
    case Done => true
    case Then(first, rest) => OneGroupStmt(first) && OneGroup(rest)
  }

  predicate OneGroupStmt(st: Stmt) {
    match st
    case Group(_, _) => false
    case If(_, _, body, tail, _) => OneGroup(body) && OneGroupTail(tail)
    case Case(_, arms, _) => OneGroupArms(arms)
    case Loop(_, body, _) => OneGroup(body)
    case _ => true
  }

  predicate OneGroupTail(t: Tail) {
    match t
    case Fi => true
    case Elif(_, _, body, tail) => OneGroup(body) && OneGroupTail(tail)
    case Else(_, body) => OneGroup(body)
  }

  predicate OneGroupArms(a: Arms) {
    match a
    case Esac => true
    case Arm(_, _, _, body, next) => OneGroup(body) && OneGroupArms(next)
  }

  /** `group` lines stand only outside every conditional and loop. */
  predicate FlatGroups(s: Script) {
    match s
    case Done => true
    case Then(first, rest) => (first.Group? || OneGroupStmt(first)) && FlatGroups(rest)
  }

  lemma {:induction false} OneGroupIsFlat(s: Script)
    requires OneGroup(s)
    ensures FlatGroups(s)
  {
    if s.Then? {
      OneGroupIsFlat(s.rest);
    }
  }

  // ----- sizes and groups of found sites ---------------------------------------------------------

  lemma {:induction false} AlternativesSize(yes: seq<string>, no: seq<string>, g: string)
    requires |yes| == |no|
    ensures |Alternatives(yes, no, g)| == |yes|
    ensures forall i :: 0 <= i < |yes| ==>
              var site := Alternatives(yes, no, g)[i];
              site.group == g && yes[i] in site.labels && no[i] in site.labels
  {
    if yes != [] {
      AlternativesSize(yes[1..], no[1..], g);
      TwoLabels(yes[0], no[0]);
    }
  }

  lemma {:induction false} FoundSize(s: Script, g: string)
    requires Find(s, g).Some?
    ensures |Find(s, g).value.required| == Size(s)
    decreases s, 0
  {
    if s.Then? {
      FoundStmtSize(s.first, g);
      FoundSize(s.rest, FindStmt(s.first, g).value.group);
    }
  }

  lemma {:induction false} FoundStmtSize(st: Stmt, g: string)
    requires FindStmt(st, g).Some?
    ensures |FindStmt(st, g).value.required| == SizeStmt(st)
    decreases st, 0
  {
    match st
    case OneLine(_, yes, no) => AlternativesSize(yes.required, no.required, g);
    case If(_, _, body, _, _) => FoundSize(body, g);
    case _ =>
  }

  predicate AllIn(sites: seq<Site>, g: string) {
    forall i :: 0 <= i < |sites| ==> sites[i].group == g
  }

  lemma {:induction false} FoundInGroup(s: Script, g: string)
    requires OneGroup(s) && Find(s, g).Some?
    ensures Find(s, g).value.group == g && AllIn(Find(s, g).value.required, g)
    decreases s, 0
  {
    if s.Then? {
      FoundStmtInGroup(s.first, g);
      FoundInGroup(s.rest, g);
    }
  }

  lemma {:induction false} FoundStmtInGroup(st: Stmt, g: string)
    requires OneGroupStmt(st) && FindStmt(st, g).Some?
    ensures FindStmt(st, g).value.group == g && AllIn(FindStmt(st, g).value.required, g)
    decreases st, 0
  {
    match st
    case OneLine(_, yes, no) => AlternativesSize(yes.required, no.required, g);
    case If(_, _, body, tail, _) =>
      FoundInGroup(body, g);
      TailInGroup(tail, g);
    case Case(_, arms, _) =>
      ArmsInGroup(arms, g);
    case Loop(_, body, _) => FoundInGroup(body, g);
    case _ =>
  }

  lemma {:induction false} TailInGroup(t: Tail, g: string)
    requires OneGroupTail(t) && FindTail(t, g).Some?
    ensures FindTail(t, g).value.group == g
    decreases t, 0
  {
    match t
    case Fi =>
    case Elif(_, _, body, tail) =>
      FoundInGroup(body, g);
      TailInGroup(tail, g);
    case Else(_, body) => FoundInGroup(body, g);
  }

  lemma {:induction false} ArmsInGroup(a: Arms, g: string)
    requires OneGroupArms(a) && FindArms(a, g).Some?
    ensures FindArms(a, g).value.group == g
    decreases a, 0
  {
    if a.Arm? {
      FoundInGroup(a.body, g);
      ArmsInGroup(a.next, g);
    }
  }
}
