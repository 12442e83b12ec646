/**
 What acceptance of a register means, whatever the manifest, and when a register must be
 accepted.
 */
module RegisterGuarantees {
  import opened Wrappers
  import opened Manifest
  import opened Assignment
  import opened ResultsValidator

  /**
   The rows are given to declared checks one-to-one: each row to a check of its group whose
   prefix its name extends, every required check has a row, and exactly the rows flagged
   optional belong to optional checks.
   */
  ghost predicate Bijection(spec: Spec, rows: seq<Check>, owner: seq<nat>) {
    && Complete(Declared(spec), rows, |spec.required|, owner)
    && forall j :: 0 <= j < |rows| ==> (rows[j].optional == Bool(true) <==> owner[j] >= |spec.required|)
  }

  function Owners(claims: Claims): seq<nat>
    requires forall j :: 0 <= j < |claims| ==> claims[j].Some?
  {
    seq(|claims|, j requires 0 <= j < |claims| => claims[j].value)
  }

  function Final(spec: Spec, rows: seq<Check>): Claims {
    Assigned(Declared(spec), rows, |Declared(spec)|)
  }

  /** Entry `k` takes row `j`, rightly so. */
  predicate Takes(spec: Spec, rows: seq<Check>, k: nat, j: nat) {
    && k < |Declared(spec)| && j < |rows|
    && Hit(Declared(spec), rows, k) == Some(j) && Candidate(Declared(spec)[k], rows[j])
    && (rows[j].optional == Bool(true) <==> k >= |spec.required|)
  }

  lemma ClaimedRow(spec: Spec, rows: seq<Check>, j: nat)
    requires AssignmentOk(spec, rows) && j < |rows|
    ensures Final(spec, rows)[j].Some? && Takes(spec, rows, Final(spec, rows)[j].value, j)
  {
    hide Pick, BestLength;
    ClaimsAreHits(Declared(spec), rows, |Declared(spec)|);
    assert !LeftOver(Declared(spec), rows, j);
    hide Assigned;
    assert RightlyFlagged(spec, rows, Final(spec, rows)[j].value);
  }

  lemma TakersAreDistinct(spec: Spec, rows: seq<Check>, owner: seq<nat>)
    requires |owner| == |rows| && forall j :: 0 <= j < |rows| ==> Takes(spec, rows, owner[j], j)
    requires forall k: nat :: k < |spec.required| ==> k in owner
    ensures Bijection(spec, rows, owner)
  {
    hide Hit, Candidate;
    forall i, j | 0 <= i < j < |rows|
      ensures owner[i] != owner[j]
    {
      assert Takes(spec, rows, owner[i], i) && Takes(spec, rows, owner[j], j);
    }
  }

  lemma ClaimedBy(spec: Spec, rows: seq<Check>, k: nat)
    requires AssignmentOk(spec, rows) && k < |spec.required|
    ensures var hit := Hit(Declared(spec), rows, k);
            hit.Some? && Final(spec, rows)[hit.value] == Some(k)
  {
    hide Pick, BestLength;
    ClaimsAreHits(Declared(spec), rows, |Declared(spec)|);
  }

  /** Whatever the manifest, an assignment without complaints is one-to-one. */
  lemma AssignmentIsBijection(spec: Spec, rows: seq<Check>) returns (owner: seq<nat>)
    requires AssignmentOk(spec, rows)
    ensures Bijection(spec, rows, owner)
  {
    forall j: nat | j < |rows|
      ensures Final(spec, rows)[j].Some?
    {
      ClaimedRow(spec, rows, j);
    }
    owner := Owners(Final(spec, rows));
    hide Final, Takes, AssignmentOk;
    forall j: nat | j < |rows|
      ensures Takes(spec, rows, owner[j], j)
    {
      ClaimedRow(spec, rows, j);
    }
    forall k: nat | k < |spec.required|
      ensures k in owner
    {
      ClaimedBy(spec, rows, k);
      assert owner[Hit(Declared(spec), rows, k).value] == k;
    }
    TakersAreDistinct(spec, rows, owner);
  }

  /** On a manifest without shadowing any such one-to-one correspondence is found. */
  lemma BijectionIsFound(spec: Spec, rows: seq<Check>, owner: seq<nat>)
    requires NonShadowing(Declared(spec)) && Bijection(spec, rows, owner)
    ensures AssignmentOk(spec, rows)
  {
    hide Pick, BestLength, NonShadowing, Candidate;
    var entries := Declared(spec);
    GreedyIsComplete(entries, rows, |spec.required|, owner);
    ClaimsAreHits(entries, rows, |entries|);
    hide Assigned, Complete;
    forall k: nat | k < |entries|
      ensures RightlyFlagged(spec, rows, k)
    {
      var hit := Hit(entries, rows, k);
      if hit.Some? {
        assert Assigned(entries, rows, |entries|)[hit.value] == Some(owner[hit.value]);
      }
    }
  }

  /**
   On a manifest without shadowing the assignment is accepted exactly when a one-to-one
   correspondence exists at all.
   */
  lemma AcceptedIffBijection(spec: Spec, rows: seq<Check>)
    requires NonShadowing(Declared(spec))
    ensures AssignmentOk(spec, rows) <==> exists owner :: Bijection(spec, rows, owner)
  {
    if AssignmentOk(spec, rows) {
      var owner := AssignmentIsBijection(spec, rows);
    }
    if exists owner :: Bijection(spec, rows, owner) {
      var owner :| Bijection(spec, rows, owner);
      BijectionIsFound(spec, rows, owner);
    }
  }

  // ----- the whole document -----------------------------------------------------------------

  lemma {:induction false} AllRows(items: seq<Item>)
    requires forall k :: 0 <= k < |items| ==> items[k].Row?
    ensures |Rows(items)| == |items| && forall k :: 0 <= k < |items| ==> Rows(items)[k] == items[k].check
  {
    if items != [] {
      AllRows(items[..|items| - 1]);
    }
  }

  /**
   Whatever the manifest: in an accepted document every register item is a row that passed,
   the rows correspond one-to-one to declared checks, and their number per group is as declared.
   */
  lemma AcceptedMeans(spec: Spec, asked: Request, results: Results) returns (owner: seq<nat>)
    requires Accepts(spec, asked, results)
    ensures Bijection(spec, RowsOf(results), owner)
    ensures |RowsOf(results)| == |results.checks.value|
    ensures forall j :: 0 <= j < |RowsOf(results)| ==>
              var row, entry := RowsOf(results)[j], Declared(spec)[owner[j]];
              && results.checks.value[j] == Row(row) && row.result == Text("pass")
              && row.group == Text(entry.group) && row.name.Text?
              && exists p :: p in entry.prefixes && p <= row.name.s
    ensures CountRequired(results.checks.value) == spec.expectedTotal
    ensures forall g :: g in spec.groups ==> CountInGroup(results.checks.value, Text(g)) == spec.groups[g]
  {
    var items := results.checks.value;
    assert forall k :: 0 <= k < |items| ==> Passed(items[k]);
    AllRows(items);
    owner := AssignmentIsBijection(spec, RowsOf(results));
    hide BestLength, Rows;
    forall j | 0 <= j < |items|
      ensures var entry := Declared(spec)[owner[j]];
              exists p :: p in entry.prefixes && p <= Rows(items)[j].name.s
    {
      var entry := Declared(spec)[owner[j]];
      assert Passed(items[j]) && Candidate(entry, Rows(items)[j]);
      CandidateMeans(entry.prefixes, Rows(items)[j].name.s);
    }
  }

  // ----- renaming a row --------------------------------------------------------------------------

  /** No declared check of the row's group has a prefix of this name. */
  ghost predicate Foreign(spec: Spec, row: Check) {
    !row.name.Text? ||
    forall e, p :: e in Declared(spec) && row.group == Text(e.group) && p in e.prefixes ==> !(p <= row.name.s)
  }

  lemma ForeignIsNoCandidate(spec: Spec, row: Check, e: Entry)
    requires Foreign(spec, row) && e in Declared(spec)
    ensures !Candidate(e, row)
  {
    if row.name.Text? {
      CandidateMeans(e.prefixes, row.name.s);
    }
  }

  lemma {:induction false} RowKept(items: seq<Item>, j: nat)
    requires j < |items| && items[j].Row?
    ensures items[j].check in Rows(items)
  {
    if j < |items| - 1 {
      RowKept(items[..|items| - 1], j);
    }
  }

  /** A document with a row that is no declared check is rejected. */
  lemma ForeignRowRejected(spec: Spec, asked: Request, results: Results, j: nat)
    requires results.checks.Some? && j < |results.checks.value| && results.checks.value[j].Row?
    requires Foreign(spec, results.checks.value[j].check)
    ensures !Accepts(spec, asked, results)
  {
    if Accepts(spec, asked, results) {
      var owner := AssignmentIsBijection(spec, RowsOf(results));
      RowKept(results.checks.value, j);
      var i :| 0 <= i < |RowsOf(results)| && RowsOf(results)[i] == results.checks.value[j].check;
      ForeignIsNoCandidate(spec, RowsOf(results)[i], Declared(spec)[owner[i]]);
    }
  }

  lemma {:induction false} CountsIgnoreNames(items: seq<Item>, j: nat, name: Json, g: Json)
    requires j < |items| && items[j].Row?
    ensures var renamed := items[j := Row(items[j].check.(name := name))];
            CountRequired(renamed) == CountRequired(items) && CountInGroup(renamed, g) == CountInGroup(items, g)
  {
    var renamed, n := items[j := Row(items[j].check.(name := name))], |items| - 1;
    if j < n {
      CountsIgnoreNames(items[..n], j, name, g);
      assert renamed[..n] == items[..n][j := renamed[j]];
    } else {
      assert renamed[..n] == items[..n];
    }
  }

  /**
   Renaming one row to a name that extends no declared prefix of its group is rejected, even
   though every count in the register stays as it was.
   */
  lemma RenameRejected(spec: Spec, asked: Request, results: Results, j: nat, name: Json)
    requires results.checks.Some? && j < |results.checks.value| && results.checks.value[j].Row?
    requires Foreign(spec, results.checks.value[j].check.(name := name))
    ensures var items := results.checks.value;
            var renamed := items[j := Row(items[j].check.(name := name))];
            && !Accepts(spec, asked, results.(checks := Some(renamed)))
            && CountRequired(renamed) == CountRequired(items)
            && forall g :: CountInGroup(renamed, g) == CountInGroup(items, g)
  {
    var items := results.checks.value;
    var renamed := items[j := Row(items[j].check.(name := name))];
    ForeignRowRejected(spec, asked, results.(checks := Some(renamed)), j);
    forall g
      ensures CountRequired(renamed) == CountRequired(items) && CountInGroup(renamed, g) == CountInGroup(items, g)
    {
      CountsIgnoreNames(items, j, name, g);
    }
    CountsIgnoreNames(items, j, name, Other(0));
  }
}
