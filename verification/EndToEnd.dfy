/**
 From the text of a gateway script to the verdict on its register: whatever path an all-passing
 run takes, its register satisfies the scope generated from the script.
 */
module EndToEnd {
  import opened Wrappers
  import opened GatewaySites
  import opened GatewayLines
  import opened GatewayScript
  import opened GatewayPaths
  import opened GatewaySoundness
  import opened Manifest
  import opened Assignment
  import opened ResultsValidator
  import opened RegisterGuarantees
  import opened DocumentGuarantees

  /** Each check prints a name that begins with the label it was found under. */
  predicate PrintedAs(rows: seq<GatewayLines.Row>, names: seq<string>) {
    |names| == |rows| && forall i :: 0 <= i < |rows| ==> rows[i].tag <= names[i]
  }

  /** A passing row as the register records it. */
  function Recorded(row: GatewayLines.Row, name: string): Check {
    Check(Text(row.group), Text(name), Text("pass"), Bool(row.optional))
  }

  function Register(rows: seq<GatewayLines.Row>, names: seq<string>): (checks: seq<Check>)
    requires |names| == |rows|
    ensures |checks| == |rows|
  {
    seq(|rows|, i requires 0 <= i < |rows| => Recorded(rows[i], names[i]))
  }

  function Items(rows: seq<GatewayLines.Row>, names: seq<string>): (items: seq<Item>)
    requires |names| == |rows|
    ensures |items| == |rows|
  {
    seq(|rows|, i requires 0 <= i < |rows| => ResultsValidator.Row(Recorded(rows[i], names[i])))
  }

  /** The scope as the validator reads it from the manifest. */
  function Declare(scope: Scope): Spec {
    Spec(scope.expectedTotal, map g | g in scope.groups :: scope.groups[g] as int, scope.required, scope.optional)
  }

  // ----- labels of found sites ------------------------------------------------------------------

  predicate Labelled(sites: seq<Site>) {
    forall i :: 0 <= i < |sites| ==> sites[i].labels != []
  }

  lemma {:induction false} SinglesLabelled(labels: seq<string>, g: string)
    ensures Labelled(Singles(labels, g))
  {
    if labels != [] {
      SinglesLabelled(labels[1..], g);
    }
  }

  lemma PairLabelled(branches: seq<seq<Site>>)
    requires branches != [] && SameSizes(branches) && Labelled(branches[0])
    ensures Labelled(Pair(branches))
  {
    forall i | 0 <= i < |branches[0]|
      ensures Pair(branches)[i].labels != []
    {
      var l := branches[0][i].labels[0];
      assert l in branches[0][i].labels;
      LabelsAtHolds(branches, i, |branches|, l);
    }
  }

  lemma {:induction false} FoundLabelled(s: Script, g: string)
    requires Find(s, g).Some?
    ensures Labelled(Find(s, g).value.required) && Labelled(Find(s, g).value.optional)
    decreases s, 0
  {
    if s.Then? {
      FoundStmtLabelled(s.first, g);
      FoundLabelled(s.rest, FindStmt(s.first, g).value.group);
    }
  }

  lemma {:induction false} HeadedLabelled(heading: Checks, body: Script, g: string)
    requires Both(CheckSites(heading, g), Find(body, g)).Some?
    ensures var f := Both(CheckSites(heading, g), Find(body, g)).value; Labelled(f.required) && Labelled(f.optional)
    decreases body, 1
  {
    SinglesLabelled(heading.optional, g);
    FoundLabelled(body, g);
  }

  lemma {:induction false} FoundStmtLabelled(st: Stmt, g: string)
    requires FindStmt(st, g).Some?
    ensures Labelled(FindStmt(st, g).value.required) && Labelled(FindStmt(st, g).value.optional)
    decreases st, 2
  {
    match st
    case Group(_, _) =>
    case Simple(checks, _) => SinglesLabelled(checks.optional, g);
    case OneLineLoop(checks) => SinglesLabelled(checks.optional, g);
    case OneLine(_, yes, no) =>
      AlternativesSize(yes.required, no.required, g);
      SinglesLabelled(yes.optional, g);
      SinglesLabelled(no.optional, g);
    case If(condition, heading, body, tail, _) =>
      HeadedLabelled(Join(condition, heading), body, g);
      var f := Both(CheckSites(Join(condition, heading), g), Find(body, g)).value;
      TailLabelled(tail, f.group);
      var t := FindTail(tail, f.group).value;
      PairLabelled(IfBranches(f, t));
    case Case(word, arms, rest) =>
      CaseIsEmpty(word, arms, rest, g);
      ArmsLabelled(arms, g);
    case Loop(heading, body, _) => HeadedLabelled(heading, body, g);
  }

  lemma {:induction false} TailLabelled(t: Tail, g: string)
    requires FindTail(t, g).Some?
    ensures Labelled(FindTail(t, g).value.optional)
    decreases t, 0
  {
    match t
    case Fi =>
    case Elif(_, _, body, tail) =>
      FoundLabelled(body, g);
      TailLabelled(tail, Find(body, g).value.group);
    case Else(heading, body) => HeadedLabelled(heading, body, g);
  }

  lemma {:induction false} ArmsLabelled(a: Arms, g: string)
    requires FindArms(a, g).Some?
    ensures Labelled(FindArms(a, g).value.optional)
    decreases a, 0
  {
    if a.Arm? {
      HeadedLabelled(a.heading, a.body, g);
      ArmsLabelled(a.next, Both(CheckSites(a.heading, g), Find(a.body, g)).value.group);
    }
  }

  // ----- who owns a row ------------------------------------------------------------------------------

  /** Where each embedded row's site is. */
  lemma {:induction false} Placement(rows: seq<GatewayLines.Row>, sites: seq<Site>) returns (place: seq<nat>)
    requires Embeds(rows, sites, true)
    ensures |place| == |rows|
    ensures forall i :: 0 <= i < |rows| ==> place[i] < |sites| && Fits(rows[i], sites[place[i]], true)
    ensures forall i, j :: 0 <= i < j < |rows| ==> place[i] < place[j]
    decreases |sites|
  {
    if sites == [] {
      place := [];
    } else if Embeds(rows, sites[1..], true) {
      var p := Placement(rows, sites[1..]);
      place := seq(|p|, i requires 0 <= i < |p| => p[i] + 1);
    } else {
      var p := Placement(rows[1..], sites[1..]);
      place := [0] + seq(|p|, i requires 0 <= i < |p| => p[i] + 1);
    }
  }

  /** The position of a row among the rows of its kind. */
  function Rank(rows: seq<GatewayLines.Row>, j: nat): nat
    requires j < |rows|
  {
    |Only(rows[..j], rows[j].optional)|
  }

  lemma RankPlaces(rows: seq<GatewayLines.Row>, j: nat)
    requires j < |rows|
    ensures var kind := Only(rows, rows[j].optional);
            Rank(rows, j) < |kind| && kind[Rank(rows, j)] == rows[j]
  {
    var o := rows[j].optional;
    assert rows == rows[..j] + rows[j..];
    OnlyConcat(rows[..j], rows[j..], o);
    assert Only(rows[j..], o)[0] == rows[j];
  }

  lemma RankGrows(rows: seq<GatewayLines.Row>, i: nat, j: nat)
    requires i < j < |rows| && rows[i].optional == rows[j].optional
    ensures Rank(rows, i) < Rank(rows, j)
  {
    var o := rows[i].optional;
    assert rows[..j] == rows[..i] + rows[i..j];
    OnlyConcat(rows[..i], rows[i..j], o);
    assert rows[i..j][0] == rows[i];
  }

  function Owner(rows: seq<GatewayLines.Row>, n: nat, place: seq<nat>, j: nat): nat
    requires j < |rows| && |place| == |Optional(rows)|
  {
    RankPlaces(rows, j);
    if rows[j].optional then n + place[Rank(rows, j)] else Rank(rows, j)
  }

  lemma FitIsCandidate(row: GatewayLines.Row, name: string, site: Site)
    requires Fits(row, site, true) && row.tag <= name
    ensures Candidate(EntryOf(site), Recorded(row, name))
  {
    CandidateMeans(site.labels, name);
  }

  ghost predicate Placed(rows: seq<GatewayLines.Row>, f: Found, place: seq<nat>) {
    && Matches(Required(rows), f.required, true)
    && |place| == |Optional(rows)|
    && (forall i :: 0 <= i < |place| ==> place[i] < |f.optional| && Fits(Optional(rows)[i], f.optional[place[i]], true))
    && (forall i, j :: 0 <= i < j < |place| ==> place[i] < place[j])
  }

  lemma OwnerFits(rows: seq<GatewayLines.Row>, names: seq<string>, f: Found, place: seq<nat>, j: nat)
    requires Placed(rows, f, place) && j < |rows| && PrintedAs(rows, names)
    ensures var e := Owner(rows, |f.required|, place, j);
            var entries := Entries(f.required) + Entries(f.optional);
            && e < |entries| && Candidate(entries[e], Recorded(rows[j], names[j]))
            && (rows[j].optional <==> e >= |f.required|)
  {
    RankPlaces(rows, j);
    var r := Rank(rows, j);
    if rows[j].optional {
      FitIsCandidate(rows[j], names[j], f.optional[place[r]]);
    } else {
      assert Fits(Required(rows)[r], f.required[r], true);
      FitIsCandidate(rows[j], names[j], f.required[r]);
    }
  }

  lemma OwnerKind(rows: seq<GatewayLines.Row>, f: Found, place: seq<nat>, j: nat)
    requires Placed(rows, f, place) && j < |rows|
    ensures rows[j].optional <==> Owner(rows, |f.required|, place, j) >= |f.required|
  {
    RankPlaces(rows, j);
  }

  lemma OwnersDiffer(rows: seq<GatewayLines.Row>, f: Found, place: seq<nat>, i: nat, j: nat)
    requires Placed(rows, f, place) && i < j < |rows|
    ensures Owner(rows, |f.required|, place, i) != Owner(rows, |f.required|, place, j)
  {
    RankPlaces(rows, i);
    RankPlaces(rows, j);
    OwnerKind(rows, f, place, i);
    OwnerKind(rows, f, place, j);
    if rows[i].optional == rows[j].optional {
      RankGrows(rows, i, j);
    }
  }

  lemma {:induction false} RowOfRank(rows: seq<GatewayLines.Row>, optional: bool, k: nat) returns (j: nat)
    requires k < |Only(rows, optional)|
    ensures j < |rows| && rows[j].optional == optional && Rank(rows, j) == k
  {
    var n := |rows| - 1;
    assert rows == rows[..n] + [rows[n]];
    OnlyConcat(rows[..n], [rows[n]], optional);
    if k < |Only(rows[..n], optional)| {
      j := RowOfRank(rows[..n], optional, k);
      assert rows[..n][..j] == rows[..j];
    } else {
      j := n;
    }
  }

  /** The rows of a covered run correspond one-to-one to the declared checks. */
  lemma RunIsBijection(rows: seq<GatewayLines.Row>, names: seq<string>, f: Found, scope: Scope) returns (owner: seq<nat>)
    requires PrintedAs(rows, names)
    requires Matches(Required(rows), f.required, true) && Embeds(Optional(rows), f.optional, true)
    requires Describes(scope, f.required, f.optional)
    ensures Bijection(Declare(scope), Register(rows, names), owner)
  {
    var place := Placement(Optional(rows), f.optional);
    assert Placed(rows, f, place);
    var n := |f.required|;
    owner := seq(|rows|, j requires 0 <= j < |rows| => Owner(rows, n, place, j));
    hide Only, Rank, Embeds, Matches, Placed, Candidate, Owner;
    forall j: nat | j < |rows|
      ensures owner[j] < |Declared(Declare(scope))|
      ensures Candidate(Declared(Declare(scope))[owner[j]], Register(rows, names)[j])
      ensures Register(rows, names)[j].optional == Bool(true) <==> owner[j] >= n
    {
      OwnerFits(rows, names, f, place, j);
    }
    forall i: nat, j: nat | i < j < |rows|
      ensures owner[i] != owner[j]
    {
      OwnersDiffer(rows, f, place, i, j);
    }
    forall k: nat | k < n
      ensures k in owner
    {
      var j := RequiredRow(rows, f, place, k);
      assert owner[j] == k;
    }
  }

  lemma RequiredRow(rows: seq<GatewayLines.Row>, f: Found, place: seq<nat>, k: nat) returns (j: nat)
    requires Placed(rows, f, place) && k < |f.required|
    ensures j < |rows| && Owner(rows, |f.required|, place, j) == k
  {
    j := RowOfRank(rows, false, k);
    RankPlaces(rows, j);
  }

  // ----- names and counts ------------------------------------------------------------------------------

  lemma NamesAreDistinct(spec: Spec, rows: seq<GatewayLines.Row>, names: seq<string>, owner: seq<nat>)
    requires |names| == |rows|
    requires NonShadowing(Declared(spec)) && Bijection(spec, Register(rows, names), owner)
    ensures DistinctNames(Items(rows, names))
  {
    hide NonShadowing, Candidate;
    assert forall i :: 0 <= i < |rows| ==> Items(rows, names)[i].check == Register(rows, names)[i];
    forall i, j | 0 <= i < j < |rows|
      ensures Register(rows, names)[i].name != Register(rows, names)[j].name
    {
      if Register(rows, names)[i].name == Register(rows, names)[j].name {
        NameHasOneEntry(Declared(spec), Register(rows, names)[i], Register(rows, names)[j], owner[i], owner[j]);
      }
    }
  }

  function GroupSize(rows: seq<GatewayLines.Row>, g: string): nat {
    if rows == [] then 0 else GroupSize(rows[..|rows| - 1], g) + if rows[|rows| - 1].group == g then 1 else 0
  }

  lemma OnlyLast(rows: seq<GatewayLines.Row>, row: GatewayLines.Row, optional: bool)
    ensures Only(rows + [row], optional) == Only(rows, optional) + if row.optional == optional then [row] else []
  {
    OnlyConcat(rows, [row], optional);
    assert [row][1..] == [];
  }

  lemma CountsOfLast(items: seq<Item>, last: Item, g: string)
    ensures CountRequired(items + [last]) == CountRequired(items) + if CountsAsRequired(last) then 1 else 0
    ensures CountInGroup(items + [last], Text(g)) == CountInGroup(items, Text(g)) + CountInGroup([last], Text(g))
  {
    assert (items + [last])[..|items|] == items;
    assert [last][..0] == [];
  }

  lemma SizeOfLast(rows: seq<GatewayLines.Row>, row: GatewayLines.Row, g: string)
    ensures GroupSize(rows + [row], g) == GroupSize(rows, g) + if row.group == g then 1 else 0
  {
    assert (rows + [row])[..|rows|] == rows;
  }

  lemma OneCounted(row: GatewayLines.Row, name: string, g: string)
    ensures var item := ResultsValidator.Row(Recorded(row, name));
            && (CountsAsRequired(item) <==> !row.optional)
            && CountInGroup([item], Text(g)) == if !row.optional && row.group == g then 1 else 0
  {
    var item := ResultsValidator.Row(Recorded(row, name));
    assert [item][..0] == [] && CountInGroup([], Text(g)) == 0;
  }

  /** The register's counts are those of the required rows. */
  lemma {:induction false} RegisterCounts(rows: seq<GatewayLines.Row>, names: seq<string>, g: string)
    requires |names| == |rows|
    ensures CountRequired(Items(rows, names)) == |Required(rows)|
    ensures CountInGroup(Items(rows, names), Text(g)) == GroupSize(Required(rows), g)
  {
    if rows != [] {
      var n := |rows| - 1;
      RegisterCounts(rows[..n], names[..n], g);
      assert rows == rows[..n] + [rows[n]];
      var front, last := Items(rows[..n], names[..n]), ResultsValidator.Row(Recorded(rows[n], names[n]));
      assert Items(rows, names) == front + [last];
      OnlyLast(rows[..n], rows[n], false);
      hide Only, CountRequired, CountInGroup, GroupSize, CountsAsRequired, Items;
      CountsOfLast(front, last, g);
      OneCounted(rows[n], names[n], g);
      SizeOfLast(Required(rows[..n]), rows[n], g);
      assert Required(rows[..n]) + [] == Required(rows[..n]);
    }
  }

  lemma {:induction false} MatchedGroupSize(rows: seq<GatewayLines.Row>, sites: seq<Site>, g: string)
    requires Matches(rows, sites, true)
    ensures GroupSize(rows, g) == InGroup(Entries(sites), g)
  {
    if rows != [] {
      var n := |rows| - 1;
      MatchedGroupSize(rows[..n], sites[..n], g);
      assert Entries(sites)[..n] == Entries(sites[..n]);
      assert Fits(rows[n], sites[n], true);
    }
  }

  lemma {:induction false} GroupIsNamed(entries: seq<Entry>, g: string)
    requires InGroup(entries, g) > 0
    ensures HasGroup(entries, g)
  {
    var n := |entries| - 1;
    if entries[n].group != g {
      GroupIsNamed(entries[..n], g);
      var k :| 0 <= k < n && entries[..n][k].group == g;
      assert entries[k].group == g;
    }
  }

  lemma ScopeIsUsable(scope: Scope, f: Found, declared: int)
    requires Buildable(f.required, f.optional, declared) && Describes(scope, f.required, f.optional)
    requires f.required != [] && Labelled(f.required) && Labelled(f.optional)
    ensures Usable(Declare(scope))
  {
    var spec := Declare(scope);
    hide InGroup, NonShadowing;
    forall k | 0 <= k < |Declared(spec)|
      ensures EntryOk(Declared(spec)[k])
    {
    }
    forall g | g in spec.groups && spec.groups[g] != 0
      ensures HasGroup(spec.required, g)
    {
      GroupIsNamed(spec.required, g);
    }
  }

  // ----- the theorem -----------------------------------------------------------------------------------------

  /**
   A script the scanner accepts, with a scope that can be built from its sites: any path of a
   passing run leaves a register with distinct names, the declared totals overall and per group,
   every required check claimed and no row left over.
   */
  lemma PassingRunAccepted(preamble: seq<Line>, script: Script, required: seq<Site>, optional: seq<Site>,
                           declared: int, scope: Scope, rows: seq<GatewayLines.Row>, names: seq<string>, g2: string)
    requires forall k :: 0 <= k < |preamble| ==> !preamble[k].GroupLine?
    requires Started(script) && ReadsAsWritten(script, false)
    requires Pinned(script) && PinnedOptionals(script) && FlatGroups(script)
    requires Sites(preamble + Lines(script)) == Some((required, optional)) && required != []
    requires Buildable(required, optional, declared) && Describes(scope, required, optional)
    requires Runs(script, "", rows, g2) && PrintedAs(rows, names)
    ensures Usable(Declare(scope))
    ensures RegisterOk(Declare(scope), Some(Items(rows, names)))
    ensures AssignmentOk(Declare(scope), Rows(Items(rows, names)))
  {
    assert |names| == |rows|;
    hide *;
    ScannerMatchesScript(preamble, script);
    var f := Find(script, "").value;
    CoveredRun(script, f, rows, g2);
    FoundLabelled(script, "");
    ScopeIsUsable(scope, f, declared);
    FoundRegisterAccepted(f, scope, declared, rows, names);
  }

  lemma CoveredRun(script: Script, f: Found, rows: seq<GatewayLines.Row>, g2: string)
    requires Pinned(script) && PinnedOptionals(script) && FlatGroups(script)
    requires Find(script, "") == Some(f) && Runs(script, "", rows, g2)
    ensures Matches(Required(rows), f.required, true) && Embeds(Optional(rows), f.optional, true)
  {
    hide Runs, Find, Matches, Embeds;
    Sound(script, "", "", rows, g2, Follow(true, true));
  }

  lemma FoundRegisterAccepted(f: Found, scope: Scope, declared: int, rows: seq<GatewayLines.Row>, names: seq<string>)
    requires PrintedAs(rows, names)
    requires Matches(Required(rows), f.required, true) && Embeds(Optional(rows), f.optional, true)
    requires Buildable(f.required, f.optional, declared) && Describes(scope, f.required, f.optional)
    ensures RegisterOk(Declare(scope), Some(Items(rows, names)))
    ensures AssignmentOk(Declare(scope), Rows(Items(rows, names)))
  {
    hide Only, Embeds, NonShadowing, InGroup, CountInGroup, CountRequired, GroupSize, Bijection, AssignmentOk, DistinctNames;
    var spec := Declare(scope);
    var owner := RunIsBijection(rows, names, f, scope);
    AllRows(Items(rows, names));
    assert Rows(Items(rows, names)) == Register(rows, names);
    BijectionIsFound(spec, Register(rows, names), owner);
    NamesAreDistinct(spec, rows, names, owner);
    forall g: string
      ensures CountInGroup(Items(rows, names), Text(g)) == InGroup(scope.required, g)
    {
      RegisterCounts(rows, names, g);
      MatchedGroupSize(Required(rows), f.required, g);
    }
    RegisterCounts(rows, names, "");
  }

  // ----- with the group breakdown -------------------------------------------------------------------------------

  /** A report for each group that ran, with the number of its required checks. */
  function Breakdown(rows: seq<GatewayLines.Row>, ran: seq<string>): (reports: seq<Report>)
    ensures |reports| == |ran|
  {
    seq(|ran|, i requires 0 <= i < |ran| => Report(Text(ran[i]), Number(GroupSize(Required(rows), ran[i]) as real), Number(0.0)))
  }

  lemma {:induction false} OnlyMembers(rows: seq<GatewayLines.Row>, optional: bool, r: GatewayLines.Row)
    ensures r in Only(rows, optional) <==> r in rows && r.optional == optional
  {
    if rows != [] {
      OnlyMembers(rows[1..], optional, r);
      assert rows == [rows[0]] + rows[1..];
    }
  }

  lemma {:induction false} GroupIsPresent(rows: seq<GatewayLines.Row>, g: string)
    ensures GroupSize(rows, g) > 0 <==> exists r :: r in rows && r.group == g
  {
    if rows != [] {
      var n := |rows| - 1;
      GroupIsPresent(rows[..n], g);
      assert rows == rows[..n] + [rows[n]];
    }
  }

  /** A group with rows but no required one is the group of a declared optional check. */
  lemma OptionalGroup(rows: seq<GatewayLines.Row>, sites: seq<Site>, r: GatewayLines.Row)
    requires Embeds(Optional(rows), sites, true) && r in rows && r.optional
    ensures HasGroup(Entries(sites), r.group)
  {
    OnlyMembers(rows, true, r);
    hide Only, Embeds;
    var place := Placement(Optional(rows), sites);
    var i :| 0 <= i < |Optional(rows)| && Optional(rows)[i] == r;
    assert Fits(Optional(rows)[i], sites[place[i]], true);
    assert Entries(sites)[place[i]].group == r.group;
  }

  ghost predicate ListsGroups(ran: seq<string>, rows: seq<GatewayLines.Row>) {
    && (forall i, j :: 0 <= i < j < |ran| ==> ran[i] != ran[j])
    && (forall g :: g in ran <==> exists r :: r in rows && r.group == g)
  }

  lemma BreakdownAccepted(f: Found, scope: Scope, rows: seq<GatewayLines.Row>, ran: seq<string>)
    requires Matches(Required(rows), f.required, true) && Embeds(Optional(rows), f.optional, true) && f.required != []
    requires Describes(scope, f.required, f.optional) && ListsGroups(ran, rows)
    ensures BreakdownOk(Declare(scope), Some(Breakdown(rows, ran)))
  {
    hide Only, Embeds, InGroup, GroupSize, HasGroup;
    var spec, reports := Declare(scope), Breakdown(rows, ran);
    forall g: string
      ensures GroupSize(Required(rows), g) == InGroup(scope.required, g)
    {
      MatchedGroupSize(Required(rows), f.required, g);
    }
    forall k | 0 <= k < |reports|
      ensures ReportOk(spec, reports[k])
    {
      var g := ran[k];
      assert g in ran;
      var r :| r in rows && r.group == g;
      if g !in scope.groups {
        GroupIsPresent(Required(rows), g);
        OnlyMembers(rows, false, r);
        OptionalGroup(rows, f.optional, r);
      }
    }
    forall g | g in spec.groups
      ensures Reported(reports, g)
    {
      GroupIsPresent(Required(rows), g);
      var r :| r in Required(rows) && r.group == g;
      OnlyMembers(rows, false, r);
      assert g in ran;
      var k :| 0 <= k < |ran| && ran[k] == g;
      assert reports[k].name == Text(g);
    }
    OnlyMembers(rows, false, Required(rows)[0]);
    assert Required(rows)[0].group in ran;
  }

  /**
   The whole document of a passing run, with a report of every group that ran and no failure, is
   accepted.
   */
  lemma PassingDocumentAccepted(preamble: seq<Line>, script: Script, required: seq<Site>, optional: seq<Site>,
                                declared: int, scope: Scope, rows: seq<GatewayLines.Row>, names: seq<string>, g2: string,
                                ran: seq<string>, asked: Request, values: map<string, Json>)
    requires forall k :: 0 <= k < |preamble| ==> !preamble[k].GroupLine?
    requires Started(script) && ReadsAsWritten(script, false)
    requires Pinned(script) && PinnedOptionals(script) && FlatGroups(script)
    requires Sites(preamble + Lines(script)) == Some((required, optional)) && required != []
    requires Buildable(required, optional, declared) && Describes(scope, required, optional)
    requires Runs(script, "", rows, g2) && PrintedAs(rows, names) && ListsGroups(ran, rows)
    requires AskedFor(asked, values) && Clean(Declare(scope).expectedTotal, values)
    ensures Accepts(Declare(scope), asked, Results(values, Some(Breakdown(rows, ran)), Some(Items(rows, names))))
  {
    PassingRunAccepted(preamble, script, required, optional, declared, scope, rows, names, g2);
    StatedMeans(Declare(scope), asked, Results(values, Some(Breakdown(rows, ran)), Some(Items(rows, names))));
    hide AskedFor, Clean, StatedOk, Runs, Lines, Sites, Describes, Buildable, ListsGroups, Pinned, PinnedOptionals, FlatGroups, ReadsAsWritten;
    hide RegisterOk, AssignmentOk, BreakdownOk, Matches, Embeds, Usable, Find;
    ScannerMatchesScript(preamble, script);
    var f := Find(script, "").value;
    CoveredRun(script, f, rows, g2);
    BreakdownAccepted(f, scope, rows, ran);
  }
}
