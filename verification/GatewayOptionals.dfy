/**
 Optional rows, for scripts whose optional labels all differ: every one of them has a site, if and
 only if no optional check can run where the scan does not look, or in a loop on one line.
 */
module GatewayOptionals {
  import opened ShellLists
  import opened GatewaySites
  import opened GatewayLines
  import opened GatewayScript
  import opened GatewayPaths
  import opened GatewayCounts

  // ----- the labels of a script ----------------------------------------------------------------

  /** The optional labels the scan looks at, in order. */
  function Scanned(s: Script): seq<string> {
    match s
    case Done => []
    case Then(first, rest) => ScannedStmt(first) + Scanned(rest)
  }

  function ScannedStmt(st: Stmt): seq<string>
    decreases st, 1
  {
    (if st.If? then st.condition.optional else []) + ScannedInside(st)
  }

  function ScannedInside(st: Stmt): seq<string>
    decreases st, 0
  {
    match st
    case Group(_, _) => []
    case Simple(checks, _) => checks.optional
    case OneLine(_, yes, no) => yes.optional + no.optional
    case OneLineLoop(checks) => checks.optional
    case If(_, heading, body, tail, _) => heading.optional + Scanned(body) + ScannedTail(tail)
    case Case(_, arms, _) => ScannedArms(arms)
    case Loop(heading, body, _) => heading.optional + Scanned(body)
  }

  function ScannedTail(t: Tail): seq<string> {
    match t
    case Fi => []
    case Elif(_, _, body, tail) => Scanned(body) + ScannedTail(tail)
    case Else(heading, body) => heading.optional + Scanned(body)
  }

  function ScannedArms(a: Arms): seq<string> {
    match a
    case Esac => []
    case Arm(_, _, heading, body, next) => heading.optional + Scanned(body) + ScannedArms(next)
  }

  /** The optional labels the scan passes over. */
  function Passed(s: Script): multiset<string> {
    match s
    case Done => multiset{}
    case Then(first, rest) => PassedStmt(first) + Passed(rest)
  }

  function PassedStmt(st: Stmt): multiset<string>
    decreases st, 1
  {
    (if st.If? then multiset{} else multiset(Before(st).optional)) + PassedInside(st) + multiset(After(st).optional)
  }

  function PassedInside(st: Stmt): multiset<string>
    decreases st, 0
  {
    match st
    case If(_, _, body, tail, _) => Passed(body) + PassedTail(tail)
    case Case(_, arms, _) => PassedArms(arms)
    case Loop(_, body, _) => Passed(body)
    case _ => multiset{}
  }

  function PassedTail(t: Tail): multiset<string> {
    match t
    case Fi => multiset{}
    case Elif(condition, heading, body, tail) =>
      multiset(condition.optional) + multiset(heading.optional) + Passed(body) + PassedTail(tail)
    case Else(_, body) => Passed(body)
  }

  function PassedArms(a: Arms): multiset<string> {
    match a
    case Esac => multiset{}
    case Arm(_, _, _, body, next) => Passed(body) + PassedArms(next)
  }

  /** No label of the script is written twice. */
  ghost predicate Distinct(labels: multiset<string>) {
    forall t :: labels[t] <= 1
  }

  // ----- optional checks that stray from the scan --------------------------------------------------

  /** Some optional check of the line can run. */
  predicate Reaches(line: seq<Part>, ok: bool) {
    if line == [] then false
    else if !Executes(line[0].op, ok) then Reaches(line[1..], ok)
    else if line[0].command.Other? then Reaches(line[1..], true) || Reaches(line[1..], false)
    else line[0].command.optional || Reaches(line[1..], true)
  }

  predicate MayReach(c: Checks) {
    Reaches(c.line, true) || Reaches(c.line, false)
  }

  predicate Stray(s: Script) {
    match s
    case Done => false
    case Then(first, rest) => StrayStmt(first) || Stray(rest)
  }

  predicate StrayStmt(st: Stmt)
    decreases st, 1
  {
    (!st.If? && MayReach(Before(st))) || MayReach(After(st)) || StrayInside(st)
  }

  predicate StrayInside(st: Stmt)
    decreases st, 0
  {
    match st
    case OneLineLoop(checks) => Reaches(checks.line, true)
    case If(_, _, body, tail, _) => Stray(body) || StrayTail(tail)
    case Case(_, arms, _) => StrayArms(arms)
    case Loop(_, body, _) => Stray(body)
    case _ => false
  }

  predicate StrayTail(t: Tail) {
    match t
    case Fi => false
    case Elif(condition, heading, body, tail) =>
      MayReach(condition) || Reaches(heading.line, true) || Stray(body) || StrayTail(tail)
    case Else(_, body) => Stray(body)
  }

  predicate StrayArms(a: Arms) {
    match a
    case Esac => false
    case Arm(_, _, _, body, next) => Stray(body) || StrayArms(next)
  }

  // ----- the labels of rows and sites ------------------------------------------------------------

  function TagList(rows: seq<Row>): seq<string> {
    seq(|rows|, i requires 0 <= i < |rows| => rows[i].tag)
  }

  /** The labels of the optional rows. */
  function Tags(rows: seq<Row>): seq<string> {
    TagList(Optional(rows))
  }

  lemma TagsConcat(a: seq<Row>, b: seq<Row>)
    ensures Tags(a + b) == Tags(a) + Tags(b)
  {
    OnlyConcat(a, b, true);
  }

  lemma TagsSplit(rows: seq<Row>, k: nat)
    requires k <= |rows|
    ensures Tags(rows) == Tags(rows[..k]) + Tags(rows[k..])
  {
    TagsConcat(rows[..k], rows[k..]);
    assert rows[..k] + rows[k..] == rows;
  }

  /** The first list is the second with some of its members left out. */
  predicate Subseq(a: seq<string>, b: seq<string>)
  {
    if b == [] then a == []
    else Subseq(a, b[1..]) || (a != [] && a[0] == b[0] && Subseq(a[1..], b[1..]))
  }

  lemma {:induction false} NoneSubseq(b: seq<string>)
    ensures Subseq([], b)
  {
    if b != [] {
      NoneSubseq(b[1..]);
    }
  }

  lemma {:induction false} SubseqConcat(a: seq<string>, s: seq<string>, b: seq<string>, t: seq<string>)
    requires Subseq(a, s) && Subseq(b, t)
    ensures Subseq(a + b, s + t)
    decreases |s|
  {
    if s == [] {
      assert s + t == t && a + b == b;
    } else {
      assert (s + t)[1..] == s[1..] + t;
      if Subseq(a, s[1..]) {
        SubseqConcat(a, s[1..], b, t);
      } else {
        SubseqConcat(a[1..], s[1..], b, t);
        assert (a + b)[1..] == a[1..] + b;
      }
    }
  }

  lemma SubseqWider(a: seq<string>, before: seq<string>, s: seq<string>, after: seq<string>)
    requires Subseq(a, s)
    ensures Subseq(a, before + s) && Subseq(a, s + after)
  {
    NoneSubseq(before);
    NoneSubseq(after);
    SubseqConcat([], before, a, s);
    SubseqConcat(a, s, [], after);
    assert [] + a == a && a + [] == a;
  }

  lemma {:induction false} SubseqHolds(a: seq<string>, b: seq<string>)
    requires Subseq(a, b)
    ensures multiset(a) <= multiset(b)
  {
    if b != [] {
      assert b == [b[0]] + b[1..];
      if Subseq(a, b[1..]) {
        SubseqHolds(a, b[1..]);
      } else {
        assert a == [a[0]] + a[1..];
        SubseqHolds(a[1..], b[1..]);
      }
    }
  }

  /** Sites with these labels, one each. */
  predicate Carry(sites: seq<Site>, labels: seq<string>) {
    |sites| == |labels| && forall i :: 0 <= i < |sites| ==> sites[i].labels == [labels[i]]
  }

  lemma {:induction false} EmbedsIsSubseq(rows: seq<Row>, sites: seq<Site>, labels: seq<string>)
    requires Carry(sites, labels)
    ensures Embeds(rows, sites, false) <==> Subseq(TagList(rows), labels)
    decreases |sites|
  {
    if sites != [] {
      assert Carry(sites[1..], labels[1..]);
      EmbedsIsSubseq(rows, sites[1..], labels[1..]);
      if rows != [] {
        EmbedsIsSubseq(rows[1..], sites[1..], labels[1..]);
        assert TagList(rows)[1..] == TagList(rows[1..]);
      }
    }
  }

  // ----- what the scan finds ----------------------------------------------------------------------

  lemma {:induction false} SinglesCarry(labels: seq<string>, g: string)
    ensures Carry(Singles(labels, g), labels)
  {
    if labels != [] {
      SinglesCarry(labels[1..], g);
    }
  }

  lemma CarryConcat(a: seq<Site>, s: seq<string>, b: seq<Site>, t: seq<string>)
    requires Carry(a, s) && Carry(b, t)
    ensures Carry(a + b, s + t)
  {
  }

  lemma CarryNone(sites: seq<Site>, labels: seq<string>)
    requires Carry(sites, labels)
    ensures sites == [] <==> labels == []
  {
  }

  /** Blocks that loop hold no optional check the scan could see. */
  predicate LoopsClear(s: Script) {
    match s
    case Done => true
    case Then(first, rest) => LoopsClearStmt(first) && LoopsClear(rest)
  }

  predicate LoopsClearStmt(st: Stmt) {
    match st
    case If(_, _, body, tail, _) => LoopsClear(body) && LoopsClearTail(tail)
    case Case(_, arms, _) => LoopsClearArms(arms)
    case Loop(heading, body, _) => heading.optional == [] && Scanned(body) == [] && LoopsClear(body)
    case _ => true
  }

  predicate LoopsClearTail(t: Tail) {
    match t
    case Fi => true
    case Elif(_, _, body, tail) => LoopsClear(body) && LoopsClearTail(tail)
    case Else(_, body) => LoopsClear(body)
  }

  predicate LoopsClearArms(a: Arms) {
    match a
    case Esac => true
    case Arm(_, _, _, body, next) => LoopsClear(body) && LoopsClearArms(next)
  }

  lemma {:induction false} FoundOptional(s: Script, g: string)
    requires Find(s, g).Some?
    ensures Carry(Find(s, g).value.optional, Scanned(s)) && LoopsClear(s)
    decreases s, 0
  {
    match s
    case Done =>
    case Then(first, rest) =>
      FoundOptionalStmt(first, g);
      var f := FindStmt(first, g).value;
      FoundOptional(rest, f.group);
      CarryConcat(f.optional, ScannedStmt(first), Find(rest, f.group).value.optional, Scanned(rest));
  }

  /** The checks of a line and the script after it. */
  lemma {:induction false} FoundOptionalHeaded(heading: Checks, body: Script, g: string)
    requires Both(CheckSites(heading, g), Find(body, g)).Some?
    ensures Find(body, g).Some? && LoopsClear(body)
    ensures Carry(Both(CheckSites(heading, g), Find(body, g)).value.optional, heading.optional + Scanned(body))
    decreases body, 1
  {
    hide Carry;
    FoundOptional(body, g);
    SinglesCarry(heading.optional, g);
    CarryConcat(Singles(heading.optional, g), heading.optional, Find(body, g).value.optional, Scanned(body));
  }

  lemma IfFound(st: Stmt, g: string)
    requires st.If? && FindStmt(st, g).Some?
    ensures var f := Both(CheckSites(Join(st.condition, st.heading), g), Find(st.body, g));
            f.Some? && FindTail(st.tail, f.value.group).Some?
            && FindStmt(st, g).value.optional == f.value.optional + FindTail(st.tail, f.value.group).value.optional
  {
    hide Find, FindTail, CheckSites, Join, Both, Pair, SameSizes;
  }

  lemma Regroup(a: seq<string>, b: seq<string>, c: seq<string>, d: seq<string>)
    ensures a + b + c + d == a + (b + c + d)
  {
  }

  lemma IfCarries(st: Stmt, g: string)
    requires st.If? && FindStmt(st, g).Some?
    requires var f := Both(CheckSites(Join(st.condition, st.heading), g), Find(st.body, g));
             && f.Some? && FindTail(st.tail, f.value.group).Some?
             && Carry(f.value.optional, Join(st.condition, st.heading).optional + Scanned(st.body))
             && Carry(FindTail(st.tail, f.value.group).value.optional, ScannedTail(st.tail))
    ensures Carry(FindStmt(st, g).value.optional, ScannedStmt(st))
  {
    IfFound(st, g);
    JoinLabels(st.condition, st.heading);
    hide Find, FindTail, FindStmt, CheckSites, Join, Both, Carry, Scanned, ScannedTail, TagsOf;
    var all, f := Join(st.condition, st.heading), Both(CheckSites(Join(st.condition, st.heading), g), Find(st.body, g)).value;
    CarryConcat(f.optional, all.optional + Scanned(st.body), FindTail(st.tail, f.group).value.optional, ScannedTail(st.tail));
    Regroup(st.condition.optional, st.heading.optional, Scanned(st.body), ScannedTail(st.tail));
  }

  lemma {:induction false} FoundOptionalStmt(st: Stmt, g: string)
    requires FindStmt(st, g).Some?
    ensures Carry(FindStmt(st, g).value.optional, ScannedStmt(st)) && LoopsClearStmt(st)
    decreases st, 1
  {
    hide Carry, Find, FindTail, FindArms, Scanned, ScannedTail, LoopsClear, LoopsClearTail, Pair, SameSizes, TagsOf;
    assert [] + ScannedInside(st) == ScannedInside(st);
    match st
    case Group(_, _) => SinglesCarry([], g);
    case Simple(checks, _) => SinglesCarry(checks.optional, g);
    case OneLineLoop(checks) => SinglesCarry(checks.optional, g);
    case OneLine(_, yes, no) =>
      SinglesCarry(yes.optional, g);
      SinglesCarry(no.optional, g);
      CarryConcat(Singles(yes.optional, g), yes.optional, Singles(no.optional, g), no.optional);
    case If(condition, heading, body, tail, _) =>
      IfFound(st, g);
      var all := Join(condition, heading);
      FoundOptionalHeaded(all, body, g);
      FoundOptionalTail(tail, Both(CheckSites(all, g), Find(body, g)).value.group);
      IfCarries(st, g);
    case Case(_, arms, _) => FoundOptionalArms(arms, g);
    case Loop(heading, body, _) =>
      FoundOptionalHeaded(heading, body, g);
      CarryNone(FindStmt(st, g).value.optional, ScannedInside(st));
  }

  lemma {:induction false} FoundOptionalTail(t: Tail, g: string)
    requires FindTail(t, g).Some?
    ensures Carry(FindTail(t, g).value.optional, ScannedTail(t)) && LoopsClearTail(t)
    decreases t, 0
  {
    match t
    case Fi =>
    case Elif(_, _, body, tail) =>
      var f := Find(body, g).value;
      FoundOptional(body, g);
      FoundOptionalTail(tail, f.group);
      CarryConcat(f.optional, Scanned(body), FindTail(tail, f.group).value.optional, ScannedTail(tail));
    case Else(heading, body) => FoundOptionalHeaded(heading, body, g);
  }

  lemma {:induction false} FoundOptionalArms(a: Arms, g: string)
    requires FindArms(a, g).Some?
    ensures Carry(FindArms(a, g).value.optional, ScannedArms(a)) && LoopsClearArms(a)
    decreases a, 0
  {
    if a.Arm? {
      FoundOptionalHeaded(a.heading, a.body, g);
      var f := Both(CheckSites(a.heading, g), Find(a.body, g)).value;
      FoundOptionalArms(a.next, f.group);
      CarryConcat(f.optional, a.heading.optional + Scanned(a.body), FindArms(a.next, f.group).value.optional, ScannedArms(a.next));
    }
  }

  // ----- no optional check strays --------------------------------------------------------------------

  lemma {:induction false} LineTags(line: seq<ShellLists.Part>, ok: bool, g: string, rows: seq<Row>)
    requires Emits(line, ok, g, rows)
    ensures Subseq(Tags(rows), TagsOf(line, true)) && (!Reaches(line, ok) ==> Tags(rows) == [])
    decreases |line|
  {
    if line != [] {
      var p, rest := line[0], line[1..];
      if !Executes(p.op, ok) {
        LineTags(rest, ok, g, rows);
      } else if p.command.Other? {
        LineTags(rest, Emits(rest, true, g, rows), g, rows);
      } else {
        LineTags(rest, true, g, rows[1..]);
        assert rows == [rows[0]] + rows[1..];
        TagsConcat([rows[0]], rows[1..]);
        HeadRow(rows[0], []);
      }
      hide Emits, Subseq, Reaches;
      TagsHead(p, rest, rows, if !Executes(p.op, ok) || p.command.Other? then rows else rows[1..]);
    }
  }

  lemma TagsHead(p: ShellLists.Part, rest: seq<ShellLists.Part>, rows: seq<Row>, after: seq<Row>)
    requires Subseq(Tags(after), TagsOf(rest, true))
    requires rows == after || (p.command.Check? && Tags(rows) == (if p.command.optional then [p.command.tag] else []) + Tags(after))
    ensures Subseq(Tags(rows), TagsOf([p] + rest, true))
  {
    assert ([p] + rest)[1..] == rest;
    var head := if IsCheck(p, true) then [p.command.tag] else [];
    SubseqWider(Tags(after), head, TagsOf(rest, true), []);
    assert [] + Tags(after) == Tags(after);
    if rows != after && p.command.optional {
      assert (head + TagsOf(rest, true))[1..] == TagsOf(rest, true) && (head + Tags(after))[1..] == Tags(after);
    }
  }

  lemma MayRunTags(c: Checks, g: string, rows: seq<Row>)
    requires MayRun(c, g, rows)
    ensures Subseq(Tags(rows), c.optional) && (!MayReach(c) ==> Tags(rows) == [])
  {
    LineTags(c.line, Emits(c.line, true, g, rows), g, rows);
  }

  lemma {:induction false} RepeatsTags(c: Checks, n: nat, g: string, rows: seq<Row>)
    requires Repeats(c, n, g, rows) && !Reaches(c.line, true)
    ensures Tags(rows) == []
    decreases n
  {
    hide Tags, Reaches;
    NoTags();
    if n > 0 {
      var k: nat :| k <= |rows| && LineRuns(c, g, rows[..k]) && Repeats(c, n - 1, g, rows[k..]);
      LineTags(c.line, true, g, rows[..k]);
      RepeatsTags(c, n - 1, g, rows[k..]);
      TagsSplit(rows, k);
    }
  }

  lemma NoTags()
    ensures Tags([]) == []
  {
  }

  lemma SplitSubseq(rows: seq<Row>, k: nat, s: seq<string>, t: seq<string>)
    requires k <= |rows| && Subseq(Tags(rows[..k]), s) && Subseq(Tags(rows[k..]), t)
    ensures Subseq(Tags(rows), s + t)
  {
    hide Tags, Subseq;
    TagsSplit(rows, k);
    SubseqConcat(Tags(rows[..k]), s, Tags(rows[k..]), t);
  }

  /** If none strays, the optional rows of every execution come from the labels the scan looks at, in order. */
  lemma {:induction false} Placed(s: Script, g: string, rows: seq<Row>, g2: string)
    requires !Stray(s) && LoopsClear(s) && Runs(s, g, rows, g2)
    ensures Subseq(Tags(rows), Scanned(s))
    decreases s, 0
  {
    hide Tags, Subseq, RunsStmt, StrayStmt, ScannedStmt, LoopsClearStmt;
    match s
    case Done =>
      NoTags();
      NoneSubseq([]);
    case Then(first, rest) =>
      var k: nat, m: string :| k <= |rows| && RunsStmt(first, g, rows[..k], m) && Runs(rest, m, rows[k..], g2);
      PlacedStmt(first, g, rows[..k], m);
      Placed(rest, m, rows[k..], g2);
      SplitSubseq(rows, k, ScannedStmt(first), Scanned(rest));
  }

  lemma {:induction false} PlacedStmt(st: Stmt, g: string, rows: seq<Row>, g2: string)
    requires !StrayStmt(st) && LoopsClearStmt(st) && RunsStmt(st, g, rows, g2)
    ensures Subseq(Tags(rows), ScannedStmt(st))
    decreases st, 1
  {
    hide Tags, Subseq, MayRun, RunsInside, StrayInside, ScannedInside, LoopsClearStmt, MayReach, After;
    var i: nat, j: nat :| i <= j <= |rows| && MayRun(Before(st), g, rows[..i]) && RunsInside(st, g, rows[i..j], g2)
                          && MayRun(After(st), g2, rows[j..]);
    MayRunTags(Before(st), g, rows[..i]);
    MayRunTags(After(st), g2, rows[j..]);
    PlacedInside(st, g, rows[i..j], g2);
    NoneSubseq([]);
    var before := if st.If? then st.condition.optional else [];
    assert rows[..j][..i] == rows[..i] && rows[..j][i..] == rows[i..j];
    SplitSubseq(rows[..j], i, before, ScannedInside(st));
    SplitSubseq(rows, j, before + ScannedInside(st), []);
    assert before + ScannedInside(st) + [] == ScannedStmt(st);
  }

  lemma {:induction false} PlacedHeaded(heading: Checks, body: Script, g: string, rows: seq<Row>, g2: string)
    requires !Stray(body) && LoopsClear(body) && RunsHeaded(heading, body, g, rows, g2)
    ensures Subseq(Tags(rows), heading.optional + Scanned(body))
    ensures !Reaches(heading.line, true) ==> Subseq(Tags(rows), Scanned(body))
    decreases body, 1
  {
    hide Tags, Subseq, Runs, Stray, LoopsClear, Scanned, Reaches;
    var k: nat :| k <= |rows| && LineRuns(heading, g, rows[..k]) && Runs(body, g, rows[k..], g2);
    LineTags(heading.line, true, g, rows[..k]);
    Placed(body, g, rows[k..], g2);
    SplitSubseq(rows, k, heading.optional, Scanned(body));
    if !Reaches(heading.line, true) {
      NoneSubseq([]);
      SplitSubseq(rows, k, [], Scanned(body));
      assert [] + Scanned(body) == Scanned(body);
    }
  }

  lemma {:induction false} PlacedInside(st: Stmt, g: string, rows: seq<Row>, g2: string)
    requires !StrayInside(st) && LoopsClearStmt(st) && RunsInside(st, g, rows, g2)
    ensures Subseq(Tags(rows), ScannedInside(st))
    decreases st, 0
  {
    hide Tags, Subseq, RunsHeaded, RunsTail, RunsArms, Reaches, Stray, StrayTail, StrayArms, Scanned, ScannedTail, ScannedArms;
    hide LoopsClear, LoopsClearTail, LoopsClearArms;
    NoTags();
    NoneSubseq(ScannedInside(st));
    match st
    case Group(_, _) =>
    case Simple(checks, _) => LineTags(checks.line, true, g, rows);
    case OneLine(_, yes, no) =>
      var arm := if LineRuns(yes, g, rows) then yes else no;
      LineTags(arm.line, true, g, rows);
      SubseqWider(Tags(rows), yes.optional, arm.optional, no.optional);
    case OneLineLoop(checks) =>
      var n: nat :| Repeats(checks, n, g, rows);
      RepeatsTags(checks, n, g, rows);
    case If(_, heading, body, tail, _) =>
      if RunsHeaded(heading, body, g, rows, g2) {
        PlacedHeaded(heading, body, g, rows, g2);
        SubseqWider(Tags(rows), [], heading.optional + Scanned(body), ScannedTail(tail));
      } else {
        PlacedTail(tail, g, rows, g2);
        SubseqWider(Tags(rows), heading.optional + Scanned(body), ScannedTail(tail), []);
      }
    case Case(_, arms, _) =>
      if RunsArms(arms, g, rows, g2) {
        PlacedArms(arms, g, rows, g2);
      }
    case Loop(heading, body, _) =>
      var n: nat :| RunsLoop(heading, body, n, g, rows, g2);
      LoopTags(heading, body, n, g, rows, g2);
  }

  lemma {:induction false} PlacedTail(t: Tail, g: string, rows: seq<Row>, g2: string)
    requires !StrayTail(t) && LoopsClearTail(t) && RunsTail(t, g, rows, g2)
    ensures Subseq(Tags(rows), ScannedTail(t))
    decreases t, 0
  {
    hide Tags, Subseq, RunsHeaded, MayRun, Reaches, MayReach, Stray, Scanned, LoopsClear;
    NoTags();
    NoneSubseq(ScannedTail(t));
    match t
    case Fi =>
    case Elif(condition, heading, body, tail) =>
      var k: nat :| k <= |rows| && MayRun(condition, g, rows[..k])
                    && (RunsHeaded(heading, body, g, rows[k..], g2) || RunsTail(tail, g, rows[k..], g2));
      MayRunTags(condition, g, rows[..k]);
      if RunsHeaded(heading, body, g, rows[k..], g2) {
        PlacedHeaded(heading, body, g, rows[k..], g2);
        SubseqWider(Tags(rows[k..]), [], Scanned(body), ScannedTail(tail));
      } else {
        PlacedTail(tail, g, rows[k..], g2);
        SubseqWider(Tags(rows[k..]), Scanned(body), ScannedTail(tail), []);
      }
      NoneSubseq([]);
      SplitSubseq(rows, k, [], ScannedTail(t));
      assert [] + ScannedTail(t) == ScannedTail(t);
    case Else(heading, body) => PlacedHeaded(heading, body, g, rows, g2);
  }

  lemma {:induction false} PlacedArms(a: Arms, g: string, rows: seq<Row>, g2: string)
    requires !StrayArms(a) && LoopsClearArms(a) && RunsArms(a, g, rows, g2)
    ensures Subseq(Tags(rows), ScannedArms(a))
    decreases a, 0
  {
    hide Tags, Subseq, RunsHeaded, Stray, Scanned, LoopsClear;
    if RunsHeaded(a.heading, a.body, g, rows, g2) {
      PlacedHeaded(a.heading, a.body, g, rows, g2);
      SubseqWider(Tags(rows), [], a.heading.optional + Scanned(a.body), ScannedArms(a.next));
    } else {
      PlacedArms(a.next, g, rows, g2);
      SubseqWider(Tags(rows), a.heading.optional + Scanned(a.body), ScannedArms(a.next), []);
    }
  }

  lemma {:induction false} LoopTags(heading: Checks, body: Script, n: nat, g: string, rows: seq<Row>, g2: string)
    requires RunsLoop(heading, body, n, g, rows, g2)
    requires heading.optional == [] && Scanned(body) == [] && !Stray(body) && LoopsClear(body)
    ensures Tags(rows) == []
    decreases body, 2, n
  {
    hide Tags, RunsHeaded, Stray, Scanned, LoopsClear;
    NoTags();
    if n > 0 {
      var k: nat, m: string :|
        k <= |rows| && RunsHeaded(heading, body, g, rows[..k], m) && RunsLoop(heading, body, n - 1, m, rows[k..], g2);
      PlacedHeaded(heading, body, g, rows[..k], m);
      LoopTags(heading, body, n - 1, m, rows[k..], g2);
      TagsSplit(rows, k);
    }
  }

  // ----- an optional check that strays ----------------------------------------------------------------

  /** The rows show the label more often than the scan looks at it. */
  ghost predicate Over(rows: seq<Row>, t: string, scanned: multiset<string>, passed: multiset<string>) {
    multiset(Tags(rows))[t] > scanned[t] && (scanned + passed)[t] > 0
  }

  /** As part of more rows, and of a script with more labels, all different, it stays so. */
  lemma OverIn(part: seq<Row>, total: seq<Row>, t: string, scanned: multiset<string>, passed: multiset<string>,
               allScanned: multiset<string>, allPassed: multiset<string>)
    requires Over(part, t, scanned, passed) && multiset(Tags(part)) <= multiset(Tags(total))
    requires scanned <= allScanned && passed <= allPassed && Distinct(allScanned + allPassed)
    ensures Over(total, t, allScanned, allPassed)
  {
    hide Tags;
    assert (allScanned + allPassed)[t] <= 1;
  }

  lemma DistinctIn(a: multiset<string>, b: multiset<string>)
    requires a <= b && Distinct(b)
    ensures Distinct(a)
  {
  }

  lemma TagsAdd(a: seq<Row>, b: seq<Row>)
    ensures multiset(Tags(a + b)) == multiset(Tags(a)) + multiset(Tags(b))
  {
    TagsConcat(a, b);
  }

  lemma {:induction false} StrayEmission(line: seq<ShellLists.Part>, ok: bool, g: string) returns (rows: seq<Row>, t: string)
    requires Reaches(line, ok)
    ensures Emits(line, ok, g, rows) && t in TagsOf(line, true) && t in Tags(rows)
    decreases |line|
  {
    var p, rest := line[0], line[1..];
    if !Executes(p.op, ok) {
      rows, t := StrayEmission(rest, ok, g);
    } else if p.command.Other? {
      rows, t := StrayEmission(rest, Reaches(rest, true), g);
    } else {
      var row := Row(p.command.optional, g, p.command.tag);
      if p.command.optional {
        rows := SomeEmission(rest, true, g, false);
        t := p.command.tag;
      } else {
        rows, t := StrayEmission(rest, true, g);
      }
      assert ([row] + rows)[1..] == rows;
      TagsConcat([row], rows);
      HeadRow(row, []);
      hide Tags;
      if p.command.optional {
        assert Tags([row]) == [t] by { OneTag(row); }
      }
      rows := [row] + rows;
    }
  }

  lemma OneTag(row: Row)
    ensures Tags([row]) == if row.optional then [row.tag] else []
  {
    HeadRow(row, []);
    assert [row] == [row] + [];
  }

  lemma StrayMayRun(c: Checks, g: string) returns (rows: seq<Row>, t: string)
    requires MayReach(c)
    ensures MayRun(c, g, rows) && Over(rows, t, multiset{}, multiset(c.optional))
  {
    hide Reaches, Emits, Tags;
    rows, t := StrayEmission(c.line, Reaches(c.line, true), g);
  }

  // ----- a script with one has an execution that shows it ---------------------------------------------

  lemma {:induction false} StrayRun(s: Script, g: string) returns (rows: seq<Row>, g2: string, t: string)
    requires Stray(s) && Distinct(multiset(Scanned(s)) + Passed(s))
    ensures Runs(s, g, rows, g2) && Over(rows, t, multiset(Scanned(s)), Passed(s))
    decreases s, 0
  {
    hide Over, Tags, Runs, RunsStmt, StrayStmt, ScannedStmt, PassedStmt, Distinct;
    var first, rest := s.first, s.rest;
    var all := multiset(Scanned(s)) + Passed(s);
    if StrayStmt(first) {
      DistinctIn(multiset(ScannedStmt(first)) + PassedStmt(first), all);
      var a, m, u := StrayStmtRun(first, g);
      var b, h := LeastRun(rest, m);
      RunsInTurn(first, rest, g, a, m, b, h);
      TagsAdd(a, b);
      rows, g2, t := a + b, h, u;
      OverIn(a, rows, t, multiset(ScannedStmt(first)), PassedStmt(first), multiset(Scanned(s)), Passed(s));
    } else {
      DistinctIn(multiset(Scanned(rest)) + Passed(rest), all);
      var a, m := LeastStmtRun(first, g);
      var b, h, u := StrayRun(rest, m);
      RunsInTurn(first, rest, g, a, m, b, h);
      TagsAdd(a, b);
      rows, g2, t := a + b, h, u;
      OverIn(b, rows, t, multiset(Scanned(rest)), Passed(rest), multiset(Scanned(s)), Passed(s));
    }
  }

  lemma {:induction false} StrayStmtRun(st: Stmt, g: string) returns (rows: seq<Row>, g2: string, t: string)
    requires StrayStmt(st) && Distinct(multiset(ScannedStmt(st)) + PassedStmt(st))
    ensures RunsStmt(st, g, rows, g2) && Over(rows, t, multiset(ScannedStmt(st)), PassedStmt(st))
    decreases st, 1
  {
    hide Over, Tags, RunsInside, RunsStmt, MayRun, StrayInside, ScannedInside, PassedInside, Distinct, MayReach, Before, After;
    var scanned, passed := multiset(ScannedStmt(st)), PassedStmt(st);
    var a, r, c;
    if StrayInside(st) {
      DistinctIn(multiset(ScannedInside(st)) + PassedInside(st), scanned + passed);
      r, g2, t := StrayInsideRun(st, g);
      a := SomeMayRun(Before(st), g, false);
      c := SomeMayRun(After(st), g2, false);
      TagsAround(a, r, c);
      OverIn(r, a + r + c, t, multiset(ScannedInside(st)), PassedInside(st), scanned, passed);
    } else {
      r, g2 := LeastInsideRun(st, g);
      if MayReach(After(st)) {
        a := SomeMayRun(Before(st), g, false);
        c, t := StrayMayRun(After(st), g2);
        TagsAround(a, r, c);
        OverIn(c, a + r + c, t, multiset{}, multiset(After(st).optional), scanned, passed);
      } else {
        a, t := StrayMayRun(Before(st), g);
        c := SomeMayRun(After(st), g2, false);
        TagsAround(a, r, c);
        OverIn(a, a + r + c, t, multiset{}, multiset(Before(st).optional), scanned, passed);
      }
    }
    Surrounded(st, g, a, r, g2, c);
    rows := a + r + c;
  }

  lemma TagsAround(a: seq<Row>, r: seq<Row>, c: seq<Row>)
    ensures multiset(Tags(a)) <= multiset(Tags(a + r + c)) && multiset(Tags(r)) <= multiset(Tags(a + r + c))
    ensures multiset(Tags(c)) <= multiset(Tags(a + r + c))
  {
    hide Tags;
    TagsAdd(a + r, c);
    TagsAdd(a, r);
  }

  lemma {:induction false} StrayHeadedRun(heading: Checks, body: Script, g: string) returns (rows: seq<Row>, g2: string, t: string)
    requires Stray(body) && Distinct(multiset(Scanned(body)) + Passed(body))
    ensures RunsHeaded(heading, body, g, rows, g2) && Over(rows, t, multiset(Scanned(body)), Passed(body))
    decreases body, 1
  {
    hide Over, Tags, Runs, RunsHeaded, Stray, Scanned, Passed, Distinct;
    var a := SomeLine(heading, g, false);
    var b;
    b, g2, t := StrayRun(body, g);
    HeadedRuns(heading, body, g, a, b, g2);
    TagsAdd(a, b);
    rows := a + b;
    OverIn(b, rows, t, multiset(Scanned(body)), Passed(body), multiset(Scanned(body)), Passed(body));
  }

  lemma {:induction false} StrayInsideRun(st: Stmt, g: string) returns (rows: seq<Row>, g2: string, t: string)
    requires StrayInside(st) && Distinct(multiset(ScannedInside(st)) + PassedInside(st))
    ensures RunsInside(st, g, rows, g2) && Over(rows, t, multiset(ScannedInside(st)), PassedInside(st))
    decreases st, 0
  {
    hide Over, Tags, Runs, RunsHeaded, RunsTail, RunsArms, RunsLoop, Stray, StrayTail, StrayArms, Scanned, ScannedTail, ScannedArms;
    hide Passed, PassedTail, PassedArms, Distinct, LineRuns, Repeats;
    var scanned, passed := multiset(ScannedInside(st)), PassedInside(st);
    g2 := g;
    match st
    case OneLineLoop(checks) =>
      DistinctIn(multiset(checks.optional), scanned + passed);
      rows, t := StrayTwice(checks, g);
    case If(_, heading, body, tail, _) =>
      if Stray(body) {
        DistinctIn(multiset(Scanned(body)) + Passed(body), scanned + passed);
        rows, g2, t := StrayHeadedRun(heading, body, g);
        OverIn(rows, rows, t, multiset(Scanned(body)), Passed(body), scanned, passed);
      } else {
        DistinctIn(multiset(ScannedTail(tail)) + PassedTail(tail), scanned + passed);
        rows, g2, t := StrayTailRun(tail, g);
        OverIn(rows, rows, t, multiset(ScannedTail(tail)), PassedTail(tail), scanned, passed);
      }
    case Case(_, arms, _) => rows, g2, t := StrayArmsRun(arms, g);
    case Loop(heading, body, _) =>
      DistinctIn(multiset(Scanned(body)) + Passed(body), scanned + passed);
      var a;
      a, g2, t := StrayHeadedRun(heading, body, g);
      OnceRound(heading, body, g, a, g2);
      rows := a;
      OverIn(rows, rows, t, multiset(Scanned(body)), Passed(body), scanned, passed);
  }

  lemma OnceRound(heading: Checks, body: Script, g: string, a: seq<Row>, g2: string)
    requires RunsHeaded(heading, body, g, a, g2)
    ensures RunsLoop(heading, body, 1, g, a, g2)
  {
    hide RunsHeaded;
    LoopOnce(heading, body, 0, g, a, g2, [], g2);
    assert a + [] == a;
  }

  /** A loop on one line that goes round twice shows a label twice. */
  lemma StrayTwice(c: Checks, g: string) returns (rows: seq<Row>, t: string)
    requires Reaches(c.line, true) && Distinct(multiset(c.optional))
    ensures Repeats(c, 2, g, rows) && Over(rows, t, multiset(c.optional), multiset{})
  {
    hide Reaches, Emits, Tags;
    var a;
    a, t := StrayEmission(c.line, true, g);
    RepeatOnce(c, 0, g, a, []);
    RepeatOnce(c, 1, g, a, a + []);
    assert a + [] == a;
    TagsAdd(a, a);
    rows := a + a;
    assert multiset(c.optional)[t] <= 1;
  }

  lemma {:induction false} StrayTailRun(tail: Tail, g: string) returns (rows: seq<Row>, g2: string, t: string)
    requires StrayTail(tail) && Distinct(multiset(ScannedTail(tail)) + PassedTail(tail))
    ensures RunsTail(tail, g, rows, g2) && Over(rows, t, multiset(ScannedTail(tail)), PassedTail(tail))
    decreases tail, 0
  {
    hide Over, Tags, Runs, RunsHeaded, RunsTail, MayRun, Stray, Scanned, Passed, Distinct, Reaches, MayReach;
    var scanned, passed := multiset(ScannedTail(tail)), PassedTail(tail);
    if tail.Else? {
      rows, g2, t := StrayElseRun(tail, g);
    } else {
      var heading, body := tail.heading, tail.body;
      var a, b;
      if MayReach(tail.condition) {
        a, t := StrayMayRun(tail.condition, g);
        b, g2 := LeastHeadedRun(heading, body, g);
        TagsAdd(a, b);
        OverIn(a, a + b, t, multiset{}, multiset(tail.condition.optional), scanned, passed);
      } else {
        a := SomeMayRun(tail.condition, g, false);
        if Reaches(heading.line, true) {
          b, g2, t := StrayHeadingRun(heading, body, g);
          TagsAdd(a, b);
          OverIn(b, a + b, t, multiset{}, multiset(heading.optional), scanned, passed);
        } else if Stray(body) {
          DistinctIn(multiset(Scanned(body)) + Passed(body), scanned + passed);
          b, g2, t := StrayHeadedRun(heading, body, g);
          TagsAdd(a, b);
          OverIn(b, a + b, t, multiset(Scanned(body)), Passed(body), scanned, passed);
        } else {
          DistinctIn(multiset(ScannedTail(tail.tail)) + PassedTail(tail.tail), scanned + passed);
          b, g2, t := StrayTailRun(tail.tail, g);
          TagsAdd(a, b);
          OverIn(b, a + b, t, multiset(ScannedTail(tail.tail)), PassedTail(tail.tail), scanned, passed);
        }
      }
      ElifRuns(tail, g, a, b, g2);
      rows := a + b;
    }
  }

  lemma {:induction false} StrayElseRun(tail: Tail, g: string) returns (rows: seq<Row>, g2: string, t: string)
    requires tail.Else? && Stray(tail.body) && Distinct(multiset(ScannedTail(tail)) + PassedTail(tail))
    ensures RunsTail(tail, g, rows, g2) && Over(rows, t, multiset(ScannedTail(tail)), PassedTail(tail))
    decreases tail.body, 2
  {
    hide Over, Tags, RunsHeaded, Stray, Scanned, Passed, Distinct;
    var body := tail.body;
    DistinctIn(multiset(Scanned(body)) + Passed(body), multiset(ScannedTail(tail)) + PassedTail(tail));
    rows, g2, t := StrayHeadedRun(tail.heading, body, g);
    OverIn(rows, rows, t, multiset(Scanned(body)), Passed(body), multiset(ScannedTail(tail)), PassedTail(tail));
  }

  lemma StrayHeadingRun(heading: Checks, body: Script, g: string) returns (rows: seq<Row>, g2: string, t: string)
    requires Reaches(heading.line, true)
    ensures RunsHeaded(heading, body, g, rows, g2) && Over(rows, t, multiset{}, multiset(heading.optional))
  {
    hide Reaches, Emits, Tags, Runs, RunsHeaded;
    var a, b;
    a, t := StrayEmission(heading.line, true, g);
    b, g2 := LeastRun(body, g);
    HeadedRuns(heading, body, g, a, b, g2);
    TagsAdd(a, b);
    rows := a + b;
  }

  lemma {:induction false} StrayArmsRun(arms: Arms, g: string) returns (rows: seq<Row>, g2: string, t: string)
    requires StrayArms(arms) && Distinct(multiset(ScannedArms(arms)) + PassedArms(arms))
    ensures RunsArms(arms, g, rows, g2) && Over(rows, t, multiset(ScannedArms(arms)), PassedArms(arms))
    decreases arms, 0
  {
    hide Over, Tags, RunsHeaded, Stray, Scanned, Passed, Distinct;
    var scanned, passed, body := multiset(ScannedArms(arms)), PassedArms(arms), arms.body;
    if Stray(body) {
      DistinctIn(multiset(Scanned(body)) + Passed(body), scanned + passed);
      rows, g2, t := StrayHeadedRun(arms.heading, body, g);
      OverIn(rows, rows, t, multiset(Scanned(body)), Passed(body), scanned, passed);
    } else {
      DistinctIn(multiset(ScannedArms(arms.next)) + PassedArms(arms.next), scanned + passed);
      rows, g2, t := StrayArmsRun(arms.next, g);
      OverIn(rows, rows, t, multiset(ScannedArms(arms.next)), PassedArms(arms.next), scanned, passed);
    }
  }

  // ----- the main result ---------------------------------------------------------------------------------

  /**
   For an accepted script whose optional labels, also those the scan passes over, are all different:
   the optional rows of every execution have sites, in order and each its own, if and only if no
   optional check strays.
   */
  lemma OptionalsExactly(s: Script, g: string)
    requires Find(s, g).Some? && Distinct(multiset(Scanned(s)) + Passed(s))
    ensures !Stray(s) <==>
            forall rows, g2 :: Runs(s, g, rows, g2) ==> Embeds(Optional(rows), Find(s, g).value.optional, false)
  {
    hide Stray, Runs, Scanned, Passed, Find, Embeds, Subseq, Carry, LoopsClear;
    FoundOptional(s, g);
    var sites := Find(s, g).value.optional;
    if Stray(s) {
      var rows, g2, t := StrayRun(s, g);
      EmbedsIsSubseq(Optional(rows), sites, Scanned(s));
      if Subseq(Tags(rows), Scanned(s)) {
        SubseqHolds(Tags(rows), Scanned(s));
        assert false;
      }
    } else {
      forall rows, g2 | Runs(s, g, rows, g2)
        ensures Embeds(Optional(rows), sites, false)
      {
        Placed(s, g, rows, g2);
        EmbedsIsSubseq(Optional(rows), sites, Scanned(s));
      }
    }
  }
}
