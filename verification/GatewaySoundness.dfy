/**
 The sites found in a script are right for every execution of it exactly when the script is
 pinned.
 */
module GatewaySoundness {
  import opened Wrappers
  import opened ShellLists
  import opened GatewaySites
  import opened GatewayLines
  import opened GatewayScript
  import opened GatewayPaths

  /** What the checks are followed for: `groups` as well as labels, optional rows as well. */
  datatype Follow = Follow(groups: bool, optionals: bool)

  /** The rows are the found sites' checks, and the run ends in the group the text ends in. */
  ghost predicate Covers(f: Found, rows: seq<Row>, g2: string, sc: Follow) {
    && Matches(Required(rows), f.required, sc.groups)
    && (sc.optionals ==> Embeds(Optional(rows), f.optional, sc.groups))
    && (sc.groups ==> g2 == f.group)
  }

  predicate Ready(s: Script, sc: Follow) {
    Pinned(s) && (sc.optionals ==> PinnedOptionals(s)) && (sc.groups ==> FlatGroups(s))
  }

  predicate ReadyStmt(st: Stmt, sc: Follow) {
    && PinnedStmt(st)
    && (sc.optionals ==> PinnedOptionalsStmt(st))
    && (sc.groups ==> st.Group? || OneGroupStmt(st))
  }

  /** The statement but for what runs before and after it. */
  predicate ReadyInside(st: Stmt, sc: Follow) {
    && PinnedInside(st)
    && (sc.optionals ==> PinnedOptionalsInside(st))
    && (sc.groups ==> st.Group? || OneGroupStmt(st))
  }

  /** A script nested in a block: no `group` lines at all when groups are followed. */
  predicate ReadyNested(s: Script, sc: Follow) {
    Pinned(s) && (sc.optionals ==> PinnedOptionals(s)) && (sc.groups ==> OneGroup(s))
  }

  lemma CoversBoth(a: Found, b: Found, rows: seq<Row>, k: nat, m: string, g2: string, sc: Follow)
    requires k <= |rows| && Covers(a, rows[..k], m, sc) && Covers(b, rows[k..], g2, sc)
    ensures Covers(Found(a.required + b.required, a.optional + b.optional, b.group), rows, g2, sc)
  {
    SplitRows(rows, k);
    hide Only, Embeds, Fits;
    if sc.optionals {
      EmbedsConcat(Optional(rows[..k]), a.optional, Optional(rows[k..]), b.optional, sc.groups);
    }
  }

  lemma CoversGroup(f: Found, rows: seq<Row>, g2: string, sc: Follow)
    requires Covers(f, rows, g2, sc)
    ensures sc.groups ==> g2 == f.group
  {
  }

  lemma CheckCovered(c: Checks, ga: string, g: string, rows: seq<Row>, sc: Follow)
    requires LineRuns(c, g, rows) && PinnedLine(c) && CheckSites(c, ga).Some? && (sc.groups ==> ga == g)
    ensures Covers(CheckSites(c, ga).value, rows, g, sc)
  {
    EmitsBetween(c.line, true, g, rows);
    LinePicks(c, g, rows);
    hide Emits, Least, Most, Only, TagsOf;
    PickedEmbeds(c.optional, g, ga, Optional(rows), sc.groups);
    hide Picks;
  }

  lemma QuietCovered(c: Checks, g: string, rows: seq<Row>, sc: Follow)
    requires MayRun(c, g, rows) && Required(rows) == [] && (sc.optionals ==> c.optional == [])
    ensures Covers(Found([], [], g), rows, g, sc)
  {
    LinePicks(c, g, rows);
  }

  /** What the scanner does not look at emits nothing, if no check can run there. */
  lemma IgnoredCovered(c: Checks, g: string, rows: seq<Row>, sc: Follow)
    requires MayRun(c, g, rows) && Quiet(c) && (sc.optionals ==> c.optional == [])
    ensures Covers(Found([], [], g), rows, g, sc)
  {
    MayRunBetween(c, g, rows);
    QuietCovered(c, g, rows, sc);
  }

  /** The optional checks in the condition of an `if` are sites of its block. */
  lemma ConditionCovered(c: Checks, ga: string, g: string, rows: seq<Row>, sc: Follow)
    requires MayRun(c, g, rows) && c.required == [] && (sc.groups ==> ga == g)
    ensures Covers(Found([], Singles(c.optional, ga), g), rows, g, sc)
  {
    LinePicks(c, g, rows);
    PickedEmbeds(c.optional, g, ga, Optional(rows), sc.groups);
  }

  /** A loop on one line without checks emits none, however often it runs. */
  lemma {:induction false} RepeatsCovered(c: Checks, n: nat, g: string, rows: seq<Row>, sc: Follow)
    requires Repeats(c, n, g, rows) && c.required == [] && (sc.optionals ==> c.optional == [])
    ensures Covers(Found([], [], g), rows, g, sc)
    decreases n
  {
    hide LineRuns;
    if n == 0 {
      hide Covers;
      NothingCovered(g, sc);
    } else {
      var k: nat :| k <= |rows| && LineRuns(c, g, rows[..k]) && Repeats(c, n - 1, g, rows[k..]);
      RepeatsCovered(c, n - 1, g, rows[k..], sc);
      hide Covers;
      LineCovered(c, g, rows[..k], sc);
      CoversBoth(Found([], [], g), Found([], [], g), rows, k, g, g, sc);
      NothingTwice();
    }
  }

  lemma NothingCovered(g: string, sc: Follow)
    ensures Covers(Found([], [], g), [], g, sc)
  {
  }

  lemma LineCovered(c: Checks, g: string, rows: seq<Row>, sc: Follow)
    requires LineRuns(c, g, rows) && c.required == [] && (sc.optionals ==> c.optional == [])
    ensures Covers(Found([], [], g), rows, g, sc)
  {
    LinePicks(c, g, rows);
    QuietCovered(c, g, rows, sc);
  }

  lemma NothingTwice()
    ensures var none: seq<Site> := []; none + none == none
  {
  }

  lemma ArmCovered(c: Checks, g: string, rows: seq<Row>)
    requires LineRuns(c, g, rows) && PinnedArm(c)
    ensures |Required(rows)| == |c.required|
    ensures forall i :: 0 <= i < |c.required| ==> Required(rows)[i].group == g && Required(rows)[i].tag == c.required[i]
    ensures Picks(c.optional, g, Optional(rows))
  {
    EmitsBetween(c.line, true, g, rows);
    LinePicks(c, g, rows);
  }

  lemma OneLineCovered(condition: Checks, yes: Checks, no: Checks, ga: string, g: string, rows: seq<Row>, sc: Follow)
    requires |yes.required| == |no.required| && (sc.groups ==> ga == g) && PinnedArm(yes) && PinnedArm(no)
    requires LineRuns(yes, g, rows) || LineRuns(no, g, rows)
    ensures Covers(FindStmt(OneLine(condition, yes, no), ga).value, rows, g, sc)
  {
    AlternativesSize(yes.required, no.required, ga);
    var arm := if LineRuns(yes, g, rows) then yes else no;
    ArmCovered(arm, g, rows);
    hide Alternatives, Only, Picks, Embeds, LineRuns, PinnedArm, TagsOf;
    PickedEmbeds(arm.optional, g, ga, Optional(rows), sc.groups);
    EmbedsWider(Optional(rows), Singles(yes.optional, ga), Singles(arm.optional, ga), Singles(no.optional, ga), sc.groups);
  }

  // ----- paired branches ---------------------------------------------------------------------

  /** Rows that match one branch match the paired sites. */
  lemma PairMatches(rows: seq<Row>, branches: seq<seq<Site>>, b: nat, g: string, groups: bool)
    requires branches != [] && SameSizes(branches) && b < |branches|
    requires Matches(rows, branches[b], groups)
    requires groups ==> AllIn(branches[0], g) && AllIn(branches[b], g)
    ensures Matches(rows, Pair(branches), groups)
  {
    assert |branches[b]| == |branches[0]|;
    forall i | 0 <= i < |rows|
      ensures Fits(rows[i], Pair(branches)[i], groups)
    {
      assert Fits(rows[i], branches[b][i], groups);
      LabelsAtHolds(branches, i, |branches|, rows[i].tag);
    }
  }

  // ----- soundness -------------------------------------------------------------------------------

  lemma {:induction false} Sound(s: Script, ga: string, g: string, rows: seq<Row>, g2: string, sc: Follow)
    requires Ready(s, sc) && Find(s, ga).Some? && (sc.groups ==> ga == g)
    requires Runs(s, g, rows, g2)
    ensures Covers(Find(s, ga).value, rows, g2, sc)
    decreases s, 0
  {
    match s
    case Done =>
    case Then(first, rest) =>
      var k: nat, m: string :| k <= |rows| && RunsStmt(first, g, rows[..k], m) && Runs(rest, m, rows[k..], g2);
      var f := FindStmt(first, ga).value;
      hide Covers, RunsStmt, FindStmt, PinnedStmt, PinnedOptionalsStmt, OneGroupStmt;
      SoundStmt(first, ga, g, rows[..k], m, sc);
      CoversGroup(f, rows[..k], m, sc);
      Sound(rest, f.group, m, rows[k..], g2, sc);
      CoversBoth(f, Find(rest, f.group).value, rows, k, m, g2, sc);
  }

  lemma {:induction false} SoundStmt(st: Stmt, ga: string, g: string, rows: seq<Row>, g2: string, sc: Follow)
    requires ReadyStmt(st, sc) && FindStmt(st, ga).Some? && (sc.groups ==> ga == g)
    requires RunsStmt(st, g, rows, g2)
    ensures Covers(FindStmt(st, ga).value, rows, g2, sc)
    decreases st, 3
  {
    var i: nat, j: nat :| i <= j <= |rows| && MayRun(Before(st), g, rows[..i]) && RunsInside(st, g, rows[i..j], g2)
                          && MayRun(After(st), g2, rows[j..]);
    var bare := Bare(st);
    BareFound(st, ga);
    SoundInside(st, ga, g, rows[i..j], g2, sc);
    var before := Found([], if st.If? then Singles(st.condition.optional, ga) else [], g);
    if st.If? {
      ConditionCovered(st.condition, ga, g, rows[..i], sc);
    } else {
      IgnoredCovered(Before(st), g, rows[..i], sc);
    }
    IgnoredCovered(After(st), g2, rows[j..], sc);
    hide FindStmt, MayRun, RunsInside;
    SurroundedCovers(before, FindStmt(bare, ga).value, FindStmt(st, ga).value, rows, i, j, g, g2, sc);
  }

  /** The statement without what the condition of an `if` adds to its line. */
  function Bare(st: Stmt): Stmt {
    if st.If? then st.(condition := NO_CHECKS) else st
  }

  lemma ConditionSites(c: Checks, h: Checks, ga: string)
    requires c.required == [] && CheckSites(Join(c, h), ga).Some?
    ensures CheckSites(h, ga).Some?
    ensures var f, b := CheckSites(Join(c, h), ga).value, CheckSites(h, ga).value;
            f.required == b.required && f.group == b.group && f.optional == Singles(c.optional, ga) + b.optional
  {
    JoinLabels(c, h);
    assert c.required + h.required == h.required;
    SinglesConcat(c.optional, h.optional, ga);
  }

  lemma BareFound(st: Stmt, ga: string)
    requires FindStmt(st, ga).Some? && (st.If? ==> st.condition.required == [])
    ensures FindStmt(Bare(st), ga).Some?
    ensures var f, b := FindStmt(st, ga).value, FindStmt(Bare(st), ga).value;
            && f.required == b.required && f.group == b.group
            && f.optional == (if st.If? then Singles(st.condition.optional, ga) else []) + b.optional
  {
    hide FindStmt;
    if st.If? {
      BareIfFound(st, ga);
    } else {
      assert [] + FindStmt(st, ga).value.optional == FindStmt(st, ga).value.optional;
    }
  }

  /** The branches of a conditional whose first one is `f`. */
  function IfBranches(f: Found, t: Branches): seq<seq<Site>> {
    if t.required == [] then [f.required, []] else [f.required] + t.required
  }

  lemma FindIf(st: Stmt, ga: string)
    requires st.If?
    ensures var f := Both(CheckSites(Join(st.condition, st.heading), ga), Find(st.body, ga));
            FindStmt(st, ga) == if f.None? || FindTail(st.tail, f.value.group).None? then None
                                else
                                  var t := FindTail(st.tail, f.value.group).value;
                                  Compare(IfBranches(f.value, t), f.value.optional + t.optional, t.group)
  {
    hide CheckSites, Join, Find, FindTail, Compare;
  }

  lemma BareIfFound(st: Stmt, ga: string)
    requires st.If? && FindStmt(st, ga).Some? && st.condition.required == []
    ensures FindStmt(Bare(st), ga).Some?
    ensures var f, b := FindStmt(st, ga).value, FindStmt(Bare(st), ga).value;
            && f.required == b.required && f.group == b.group
            && f.optional == Singles(st.condition.optional, ga) + b.optional
  {
    var c, h := st.condition, st.heading;
    FindIf(st, ga);
    FindIf(Bare(st), ga);
    JoinNone(h);
    hide CheckSites, Join, Singles, Find, FindTail, Compare, FindStmt;
    ConditionSites(c, h, ga);
    var f := Both(CheckSites(Join(c, h), ga), Find(st.body, ga)).value;
    var b := Both(CheckSites(h, ga), Find(st.body, ga)).value;
    BothOptional(Singles(c.optional, ga), CheckSites(h, ga).value.optional, Find(st.body, ga).value.optional);
    var t := FindTail(st.tail, f.group).value;
    BothOptional(Singles(c.optional, ga), b.optional, t.optional);
    assert IfBranches(f, t) == IfBranches(b, t);
    CompareOptional(IfBranches(b, t), f.optional + t.optional, b.optional + t.optional, t.group);
  }

  lemma BothOptional(x: seq<Site>, y: seq<Site>, z: seq<Site>)
    ensures (x + y) + z == x + (y + z)
  {
  }

  lemma CompareOptional(branches: seq<seq<Site>>, x: seq<Site>, y: seq<Site>, g: string)
    requires branches != []
    ensures Compare(branches, x, g).Some? <==> Compare(branches, y, g).Some?
    ensures Compare(branches, x, g).Some? ==> Compare(branches, x, g).value == Compare(branches, y, g).value.(optional := x)
    ensures Compare(branches, y, g).Some? ==> Compare(branches, y, g).value.optional == y
  {
  }

  lemma {:induction false} SinglesConcat(a: seq<string>, b: seq<string>, g: string)
    ensures Singles(a + b, g) == Singles(a, g) + Singles(b, g)
  {
    if a == [] {
      assert a + b == b;
    } else {
      assert (a + b)[1..] == a[1..] + b;
      SinglesConcat(a[1..], b, g);
    }
  }

  lemma SurroundedCovers(before: Found, inside: Found, all: Found, rows: seq<Row>, i: nat, j: nat, g: string, g2: string, sc: Follow)
    requires i <= j <= |rows| && before.required == []
    requires Covers(before, rows[..i], g, sc) && Covers(inside, rows[i..j], g2, sc) && Covers(Found([], [], g2), rows[j..], g2, sc)
    requires all.required == inside.required && all.optional == before.optional + inside.optional && all.group == inside.group
    ensures Covers(all, rows, g2, sc)
  {
    hide Covers;
    var up := rows[..j];
    assert up[..i] == rows[..i] && up[i..] == rows[i..j];
    CoversBoth(before, inside, up, i, g, g2, sc);
    var first := Found(before.required + inside.required, before.optional + inside.optional, inside.group);
    assert first == all;
    CoversBoth(first, Found([], [], g2), rows, j, g2, g2, sc);
    assert all.required + [] == all.required && all.optional + [] == all.optional;
    SameGroupCovers(Found(all.required, all.optional, g2), all, rows, g2, sc, rows[i..j], inside);
  }

  lemma SameGroupCovers(f: Found, all: Found, rows: seq<Row>, g2: string, sc: Follow, part: seq<Row>, inside: Found)
    requires Covers(f, rows, g2, sc) && f.required == all.required && f.optional == all.optional
    requires Covers(inside, part, g2, sc) && all.group == inside.group
    ensures Covers(all, rows, g2, sc)
  {
  }

  lemma {:induction false} SoundInside(st: Stmt, ga: string, g: string, rows: seq<Row>, g2: string, sc: Follow)
    requires ReadyInside(st, sc) && FindStmt(Bare(st), ga).Some? && (sc.groups ==> ga == g)
    requires RunsInside(st, g, rows, g2)
    ensures Covers(FindStmt(Bare(st), ga).value, rows, g2, sc)
    decreases st, 2
  {
    match st
    case Group(name, _) =>
    case Simple(checks, _) => CheckCovered(checks, ga, g, rows, sc);
    case OneLine(condition, yes, no) => OneLineCovered(condition, yes, no, ga, g, rows, sc);
    case OneLineLoop(checks) =>
      var n: nat :| Repeats(checks, n, g, rows);
      OneLineLoopCovered(checks, n, ga, g, rows, sc);
    case If(_, _, _, _, _) => SoundIf(st, ga, g, rows, g2, sc);
    case Case(_, _, _) => SoundCase(st, ga, g, rows, g2, sc);
    case Loop(heading, body, _) =>
      var n: nat :| RunsLoop(heading, body, n, g, rows, g2);
      SoundLoop(st, n, ga, g, rows, g2, sc);
  }

  lemma OneLineLoopCovered(checks: Checks, n: nat, ga: string, g: string, rows: seq<Row>, sc: Follow)
    requires Repeats(checks, n, g, rows) && checks.required == [] && (sc.optionals ==> checks.optional == [])
    requires sc.groups ==> ga == g
    ensures Covers(CheckSites(checks, ga).value, rows, g, sc)
  {
    RepeatsCovered(checks, n, g, rows, sc);
  }

  lemma {:induction false} SoundHeaded(heading: Checks, body: Script, ga: string, g: string, rows: seq<Row>, g2: string,
                                       sc: Follow)
    requires ReadyNested(body, sc) && PinnedLine(heading) && (sc.groups ==> ga == g)
    requires Both(CheckSites(heading, ga), Find(body, ga)).Some? && RunsHeaded(heading, body, g, rows, g2)
    ensures Covers(Both(CheckSites(heading, ga), Find(body, ga)).value, rows, g2, sc)
    decreases body, 1
  {
    var k: nat :| k <= |rows| && LineRuns(heading, g, rows[..k]) && Runs(body, g, rows[k..], g2);
    CheckCovered(heading, ga, g, rows[..k], sc);
    if sc.groups {
      OneGroupIsFlat(body);
    }
    Sound(body, ga, g, rows[k..], g2, sc);
    CoversBoth(CheckSites(heading, ga).value, Find(body, ga).value, rows, k, g, g2, sc);
  }

  /** The line that opens an `elif` branch is not looked at, so it must not carry checks. */
  lemma {:induction false} SoundElif(heading: Checks, body: Script, ga: string, g: string, rows: seq<Row>, g2: string,
                                     sc: Follow)
    requires ReadyNested(body, sc) && (sc.groups ==> ga == g) && Find(body, ga).Some?
    requires Most(heading.line, true) == 0 && (sc.optionals ==> heading.optional == [])
    requires RunsHeaded(heading, body, g, rows, g2)
    ensures Covers(Find(body, ga).value, rows, g2, sc)
    decreases body, 1
  {
    var k: nat :| k <= |rows| && LineRuns(heading, g, rows[..k]) && Runs(body, g, rows[k..], g2);
    if sc.groups {
      OneGroupIsFlat(body);
    }
    Sound(body, ga, g, rows[k..], g2, sc);
    EmitsBetween(heading.line, true, g, rows[..k]);
    QuietCovered(heading, g, rows[..k], sc);
    var f := Find(body, ga).value;
    CoversBoth(Found([], [], g), f, rows, k, g, g2, sc);
    assert [] + f.required == f.required && [] + f.optional == f.optional;
  }

  /** A run through a conditional's tail took one of its branches, or fell through it. */
  ghost predicate TailCovers(t: Branches, fallsThrough: bool, rows: seq<Row>, g2: string, sc: Follow) {
    && ((fallsThrough && Required(rows) == [])
        || exists b :: 0 <= b < |t.required| && Matches(Required(rows), t.required[b], sc.groups))
    && (sc.optionals ==> Embeds(Optional(rows), t.optional, sc.groups))
    && (sc.groups ==> g2 == t.group)
  }

  lemma FirstBranchCovers(f: Found, t: Option<Branches>, falls: bool, rows: seq<Row>, g2: string, sc: Follow)
    requires Covers(f, rows, g2, sc) && t.Some? && (sc.groups ==> t.value.group == f.group)
    ensures TailCovers(AddBranch(Some(f), t).value, falls, rows, g2, sc)
  {
    var r := AddBranch(Some(f), t).value;
    assert r.required[0] == f.required;
    if sc.optionals {
      EmbedsWider(Optional(rows), [], f.optional, t.value.optional, sc.groups);
    }
  }

  lemma LaterBranchCovers(f: Found, t: Option<Branches>, falls: bool, rows: seq<Row>, g2: string, sc: Follow)
    requires t.Some? && TailCovers(t.value, falls, rows, g2, sc)
    ensures TailCovers(AddBranch(Some(f), t).value, falls, rows, g2, sc)
  {
    var r := AddBranch(Some(f), t).value;
    if !(falls && Required(rows) == []) {
      var b :| 0 <= b < |t.value.required| && Matches(Required(rows), t.value.required[b], sc.groups);
      assert r.required[b + 1] == t.value.required[b];
    }
    if sc.optionals {
      EmbedsWider(Optional(rows), f.optional, t.value.optional, [], sc.groups);
    }
  }

  /** Without checks in the condition, the rows are those that follow it. */
  lemma SameRows(condition: Checks, g: string, rows: seq<Row>, k: nat, sc: Follow)
    requires k <= |rows| && MayRun(condition, g, rows[..k]) && Quiet(condition) && (sc.optionals ==> condition.optional == [])
    ensures Required(rows) == Required(rows[k..]) && (sc.optionals ==> Optional(rows) == Optional(rows[k..]))
  {
    SplitRows(rows, k);
    MayRunBetween(condition, g, rows[..k]);
    LinePicks(condition, g, rows[..k]);
  }

  lemma TailCoversSame(t: Branches, falls: bool, part: seq<Row>, rows: seq<Row>, g2: string, sc: Follow)
    requires TailCovers(t, falls, part, g2, sc)
    requires Required(rows) == Required(part) && (sc.optionals ==> Optional(rows) == Optional(part))
    ensures TailCovers(t, falls, rows, g2, sc)
  {
    hide Only;
  }

  lemma {:induction false} SoundTail(t: Tail, ga: string, g: string, rows: seq<Row>, g2: string, sc: Follow)
    requires PinnedTail(t) && (sc.optionals ==> PinnedOptionalsTail(t))
    requires sc.groups ==> OneGroupTail(t) && ga == g
    requires FindTail(t, ga).Some? && RunsTail(t, g, rows, g2)
    ensures TailCovers(FindTail(t, ga).value, !EndsInElse(t), rows, g2, sc)
    decreases t, 0
  {
    hide MayRun, RunsHeaded, Find;
    match t
    case Fi =>
    case Elif(condition, heading, body, tail) =>
      var f := Find(body, ga).value;
      var next := FindTail(tail, f.group);
      if sc.groups {
        FoundInGroup(body, ga);
        TailInGroup(tail, ga);
      }
      var k: nat :| k <= |rows| && MayRun(condition, g, rows[..k])
                    && (RunsHeaded(heading, body, g, rows[k..], g2) || RunsTail(tail, g, rows[k..], g2));
      SameRows(condition, g, rows, k, sc);
      if RunsHeaded(heading, body, g, rows[k..], g2) {
        SoundElif(heading, body, ga, g, rows[k..], g2, sc);
        FirstBranchCovers(f, next, !EndsInElse(t), rows[k..], g2, sc);
      } else {
        SoundTail(tail, f.group, g, rows[k..], g2, sc);
        LaterBranchCovers(f, next, !EndsInElse(t), rows[k..], g2, sc);
      }
      TailCoversSame(FindTail(t, ga).value, !EndsInElse(t), rows[k..], rows, g2, sc);
    case Else(heading, body) =>
      SoundHeaded(heading, body, ga, g, rows, g2, sc);
      assert FindTail(t, ga).value.required[0] == Both(CheckSites(heading, ga), Find(body, ga)).value.required;
  }

  lemma {:induction false} TailInGroupAll(t: Tail, g: string)
    requires OneGroupTail(t) && FindTail(t, g).Some?
    ensures forall b :: 0 <= b < |FindTail(t, g).value.required| ==> AllIn(FindTail(t, g).value.required[b], g)
    decreases t
  {
    match t
    case Fi =>
    case Elif(_, _, body, tail) =>
      FoundInGroup(body, g);
      TailInGroupAll(tail, g);
    case Else(_, body) => FoundInGroup(body, g);
  }

  lemma JoinNone(h: Checks)
    ensures Join(NO_CHECKS, h) == h
  {
    assert NO_CHECKS.line + h.line == h.line;
  }

  lemma {:induction false} SoundIf(st: Stmt, ga: string, g: string, rows: seq<Row>, g2: string, sc: Follow)
    requires st.If? && ReadyInside(st, sc) && FindStmt(Bare(st), ga).Some? && (sc.groups ==> ga == g) && RunsInside(st, g, rows, g2)
    ensures Covers(FindStmt(Bare(st), ga).value, rows, g2, sc)
    decreases st, 1
  {
    JoinNone(st.heading);
    var heading, body, tail := st.heading, st.body, st.tail;
    var f := Both(CheckSites(heading, ga), Find(body, ga)).value;
    var t := FindTail(tail, f.group).value;
    var branches := IfBranches(f, t);
    assert FindStmt(Bare(st), ga) == Compare(branches, f.optional + t.optional, t.group);
    if sc.groups {
      FoundInGroup(body, ga);
      TailInGroup(tail, ga);
      TailInGroupAll(tail, ga);
    }
    if RunsHeaded(heading, body, g, rows, g2) {
      SoundHeaded(heading, body, ga, g, rows, g2, sc);
      hide Covers, Compare, AllIn;
      FirstBranchSuffices(f, t, branches, FindStmt(Bare(st), ga), ga, rows, g2, sc);
    } else {
      SoundTail(tail, f.group, g, rows, g2, sc);
      SoundIfTail(Bare(st), ga, f, t, branches, rows, g2, sc);
    }
  }

  lemma FirstBranchSuffices(f: Found, t: Branches, branches: seq<seq<Site>>, r: Option<Found>, ga: string, rows: seq<Row>,
                            g2: string, sc: Follow)
    requires branches != [] && branches[0] == f.required && Covers(f, rows, g2, sc)
    requires r == Compare(branches, f.optional + t.optional, t.group) && r.Some?
    requires sc.groups ==> AllIn(f.required, ga) && t.group == f.group
    ensures Covers(r.value, rows, g2, sc)
  {
    hide Only, Fits, Embeds, Pair;
    PairMatches(Required(rows), branches, 0, ga, sc.groups);
    if sc.optionals {
      EmbedsWider(Optional(rows), [], f.optional, t.optional, sc.groups);
      assert [] + f.optional + t.optional == f.optional + t.optional;
    }
  }

  /** The branches after the first, and the branch that is not written. */
  lemma SoundIfTail(st: Stmt, ga: string, f: Found, t: Branches, branches: seq<seq<Site>>, rows: seq<Row>, g2: string,
                    sc: Follow)
    requires st.If? && FindStmt(st, ga).Some? && PinnedInside(st) && Join(st.condition, st.heading) == st.heading
    requires Both(CheckSites(st.heading, ga), Find(st.body, ga)) == Some(f) && FindTail(st.tail, f.group) == Some(t)
    requires branches == IfBranches(f, t)
    requires FindStmt(st, ga) == Compare(branches, f.optional + t.optional, t.group)
    requires sc.groups ==> AllIn(f.required, ga) && forall b :: 0 <= b < |t.required| ==> AllIn(t.required[b], ga)
    requires TailCovers(t, !EndsInElse(st.tail), rows, g2, sc)
    ensures Covers(FindStmt(st, ga).value, rows, g2, sc)
  {
    hide Find, CheckSites, Only, Fits, Embeds, Pair, AllIn, FindStmt, Join;
    if b :| 0 <= b < |t.required| && Matches(Required(rows), t.required[b], sc.groups) {
      assert branches[b + 1] == t.required[b];
      PairMatches(Required(rows), branches, b + 1, ga, sc.groups);
    } else if t.required == [] {
      PairMatches(Required(rows), branches, 1, ga, sc.groups);
    } else {
      FoundStmtSize(st, ga);
      assert st.tail.Elif?;
    }
    if sc.optionals {
      EmbedsWider(Optional(rows), f.optional, t.optional, [], sc.groups);
    }
  }

  lemma {:induction false} SoundArms(a: Arms, ga: string, g: string, rows: seq<Row>, g2: string, sc: Follow)
    requires PinnedArms(a) && (sc.optionals ==> PinnedOptionalsArms(a))
    requires sc.groups ==> OneGroupArms(a) && ga == g
    requires FindArms(a, ga).Some? && RunsArms(a, g, rows, g2)
    ensures TailCovers(FindArms(a, ga).value, false, rows, g2, sc)
    decreases a, 0
  {
    var f := Both(CheckSites(a.heading, ga), Find(a.body, ga)).value;
    var next := FindArms(a.next, f.group);
    if sc.groups {
      FoundInGroup(a.body, ga);
      ArmsInGroup(a.next, ga);
    }
    if RunsHeaded(a.heading, a.body, g, rows, g2) {
      SoundHeaded(a.heading, a.body, ga, g, rows, g2, sc);
      FirstBranchCovers(f, next, false, rows, g2, sc);
    } else {
      SoundArms(a.next, f.group, g, rows, g2, sc);
      LaterBranchCovers(f, next, false, rows, g2, sc);
    }
  }

  /** A `case` starts with an empty branch, so in an accepted one no arm has a required check. */
  lemma CaseIsEmpty(word: Checks, arms: Arms, rest: Checks, ga: string)
    requires FindStmt(Case(word, arms, rest), ga).Some?
    ensures FindStmt(Case(word, arms, rest), ga).value.required == []
    ensures forall b :: 0 <= b < |FindArms(arms, ga).value.required| ==> FindArms(arms, ga).value.required[b] == []
  {
    var t := FindArms(arms, ga).value;
    var branches := [[]] + t.required + (if HasDefault(arms) then [] else [[]]);
    assert SameSizes(branches) && branches[0] == [];
    forall b | 0 <= b < |t.required|
      ensures t.required[b] == []
    {
      assert branches[b + 1] == t.required[b];
    }
  }

  lemma {:induction false} SoundCase(st: Stmt, ga: string, g: string, rows: seq<Row>, g2: string, sc: Follow)
    requires st.Case? && ReadyInside(st, sc) && FindStmt(st, ga).Some? && (sc.groups ==> ga == g) && RunsInside(st, g, rows, g2)
    ensures Covers(FindStmt(st, ga).value, rows, g2, sc)
    decreases st, 1
  {
    var arms := st.arms;
    CaseIsEmpty(st.word, arms, st.rest, ga);
    var t := FindArms(arms, ga).value;
    if sc.groups {
      ArmsInGroup(arms, ga);
    }
    if RunsArms(arms, g, rows, g2) {
      SoundArms(arms, ga, g, rows, g2, sc);
      var b :| 0 <= b < |t.required| && Matches(Required(rows), t.required[b], sc.groups);
    } else {
      NoneEmbed(t.optional, sc.groups);
    }
  }

  lemma {:induction false} SoundLoop(st: Stmt, n: nat, ga: string, g: string, rows: seq<Row>, g2: string, sc: Follow)
    requires st.Loop? && ReadyInside(st, sc) && FindStmt(st, ga).Some? && (sc.groups ==> ga == g)
    requires RunsLoop(st.heading, st.body, n, g, rows, g2)
    ensures Covers(FindStmt(st, ga).value, rows, g2, sc)
    decreases st, 1, n
  {
    var f := FindStmt(st, ga).value;
    var heading, body := st.heading, st.body;
    if sc.groups {
      FoundInGroup(body, ga);
    }
    if n > 0 {
      var k: nat, m: string :|
        k <= |rows| && RunsHeaded(heading, body, g, rows[..k], m) && RunsLoop(heading, body, n - 1, m, rows[k..], g2);
      SoundHeaded(heading, body, ga, g, rows[..k], m, sc);
      SoundLoop(st, n - 1, ga, m, rows[k..], g2, sc);
      CoversBoth(f, f, rows, k, m, g2, sc);
    }
  }
}
