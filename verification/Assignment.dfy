/**
 Giving the rows of a check register to the declared entries: greedily, entry after entry,
 each taking the unclaimed row that extends its longest prefix.
 */
module Assignment {
  import opened Wrappers
  import opened Manifest

  /** A value read from a JSON document, as far as the validator looks into it. */
  datatype Json = Text(s: string) | Number(r: real) | Bool(b: bool) | Other(id: int)

  /** One register row. */
  datatype Check = Check(group: Json, name: Json, result: Json, optional: Json)

  /** Who claimed a row: the entry's place in the manifest. */
  type Claims = seq<Option<nat>>

  /** The longest of the prefixes that begins the name. */
  function BestLength(prefixes: seq<string>, name: string): Option<nat> {
    if prefixes == [] then None
    else
      var last := prefixes[|prefixes| - 1];
      var best := BestLength(prefixes[..|prefixes| - 1], name);
      if last <= name && (best.None? || |last| > best.value) then Some(|last|) else best
  }

  /** How well a row fits an entry, if it is a candidate for it at all. */
  function Score(entry: Entry, row: Check): Option<nat> {
    if row.group != Text(entry.group) || !row.name.Text? then None else BestLength(entry.prefixes, row.name.s)
  }

  predicate Candidate(entry: Entry, row: Check) {
    Score(entry, row).Some?
  }

  /** A row is a candidate when its group is the entry's and its name extends one of the prefixes. */
  lemma {:induction false} CandidateMeans(prefixes: seq<string>, name: string)
    ensures BestLength(prefixes, name).Some? <==> exists p :: p in prefixes && p <= name
    ensures BestLength(prefixes, name).Some? ==>
              (forall p :: p in prefixes && p <= name ==> |p| <= BestLength(prefixes, name).value)
              && exists p :: p in prefixes && p <= name && |p| == BestLength(prefixes, name).value
  {
    if prefixes != [] {
      var front, last := prefixes[..|prefixes| - 1], prefixes[|prefixes| - 1];
      CandidateMeans(front, name);
      assert forall p :: p in prefixes <==> p in front || p == last;
      var best := BestLength(prefixes, name);
      if best.Some? && best != BestLength(front, name) {
        assert last in prefixes && last <= name && |last| == best.value;
      } else if best.Some? {
        var p :| p in front && p <= name && |p| == best.value;
        assert p in prefixes;
      }
    }
  }

  /** `j` is an unclaimed candidate and none is better; among equals the later row is better. */
  predicate Free(entry: Entry, rows: seq<Check>, claims: Claims, j: nat)
    requires |claims| == |rows|
  {
    j < |rows| && claims[j].None? && Candidate(entry, rows[j])
  }

  predicate Before(entry: Entry, rows: seq<Check>, i: nat, j: nat)
    requires i < |rows| && j < |rows| && Candidate(entry, rows[i]) && Candidate(entry, rows[j])
  {
    var a, b := Score(entry, rows[i]).value, Score(entry, rows[j]).value;
    a > b || (a == b && i >= j)
  }

  /** The row an entry takes from those before `n`. */
  function Pick(entry: Entry, rows: seq<Check>, claims: Claims, n: nat): (j: Option<nat>)
    requires |claims| == |rows| && n <= |rows|
    ensures j.Some? ==> j.value < n && Free(entry, rows, claims, j.value)
  {
    if n == 0 then None
    else
      var best := Pick(entry, rows, claims, n - 1);
      if Free(entry, rows, claims, n - 1) && (best.None? || Before(entry, rows, n - 1, best.value)) then Some(n - 1)
      else best
  }

  lemma {:induction false} PickIsBest(entry: Entry, rows: seq<Check>, claims: Claims, n: nat)
    requires |claims| == |rows| && n <= |rows|
    ensures var j := Pick(entry, rows, claims, n);
            && (j.None? <==> forall i :: 0 <= i < n ==> !Free(entry, rows, claims, i))
            && (j.Some? ==> forall i :: 0 <= i < n && Free(entry, rows, claims, i) ==> Before(entry, rows, j.value, i))
  {
    if n > 0 {
      PickIsBest(entry, rows, claims, n - 1);
    }
  }

  /** An unclaimed row of the entry's group whose name extends this prefix of the entry. */
  predicate Extends(entry: Entry, rows: seq<Check>, claims: Claims, j: nat, prefix: string)
    requires |claims| == |rows|
  {
    && j < |rows| && claims[j].None? && rows[j].group == Text(entry.group) && rows[j].name.Text?
    && prefix in entry.prefixes && prefix <= rows[j].name.s
  }

  /**
   An entry goes without a row only if no unclaimed row of its group extends one of its prefixes; the
   row it takes extends one at least as long as any other row does, and is the last of those that do.
   */
  lemma PickMeans(entry: Entry, rows: seq<Check>, claims: Claims)
    requires |claims| == |rows|
    ensures var pick := Pick(entry, rows, claims, |rows|);
            && (pick.None? <==> forall i: nat, q :: !Extends(entry, rows, claims, i, q))
            && (pick.Some? ==> exists p :: Extends(entry, rows, claims, pick.value, p)
                                 && forall i: nat, q :: Extends(entry, rows, claims, i, q) ==>
                                      |q| < |p| || (|q| == |p| && i <= pick.value))
  {
    PickIsBest(entry, rows, claims, |rows|);
    var pick := Pick(entry, rows, claims, |rows|);
    hide Pick;
    forall i: nat | i < |rows|
      ensures Free(entry, rows, claims, i) <==> exists q :: Extends(entry, rows, claims, i, q)
      ensures forall q :: Extends(entry, rows, claims, i, q) ==> Score(entry, rows[i]).Some? && |q| <= Score(entry, rows[i]).value
    {
      FreeExtends(entry, rows, claims, i);
    }
    if pick.Some? {
      var j := pick.value;
      FreeExtends(entry, rows, claims, j);
      var p :| Extends(entry, rows, claims, j, p) && |p| == Score(entry, rows[j]).value;
      forall i: nat, q | Extends(entry, rows, claims, i, q)
        ensures |q| < |p| || (|q| == |p| && i <= j)
      {
        assert Free(entry, rows, claims, i) && Before(entry, rows, j, i);
        FreeExtends(entry, rows, claims, i);
      }
    } else {
      forall i: nat, q
        ensures !Extends(entry, rows, claims, i, q)
      {
        assert i < |rows| ==> !Free(entry, rows, claims, i);
      }
    }
  }

  lemma FreeExtends(entry: Entry, rows: seq<Check>, claims: Claims, i: nat)
    requires |claims| == |rows| && i < |rows|
    ensures Free(entry, rows, claims, i) <==> exists q :: Extends(entry, rows, claims, i, q)
    ensures forall q :: Extends(entry, rows, claims, i, q) ==> Score(entry, rows[i]).Some? && |q| <= Score(entry, rows[i]).value
    ensures Free(entry, rows, claims, i) ==> exists q :: Extends(entry, rows, claims, i, q) && |q| == Score(entry, rows[i]).value
  {
    hide BestLength;
    if rows[i].name.Text? {
      CandidateMeans(entry.prefixes, rows[i].name.s);
      if Free(entry, rows, claims, i) {
        var q :| q in entry.prefixes && q <= rows[i].name.s && |q| == BestLength(entry.prefixes, rows[i].name.s).value;
        assert Extends(entry, rows, claims, i, q);
      }
    }
  }

  function Unclaimed(n: nat): Claims {
    seq(n, _ => None)
  }

  function Claim(claims: Claims, j: Option<nat>, k: nat): (r: Claims)
    requires j.Some? ==> j.value < |claims|
    ensures |r| == |claims|
  {
    if j.None? then claims else claims[j.value := Some(k)]
  }

  /** The claims after the first `k` entries have had their turn. */
  function Assigned(entries: seq<Entry>, rows: seq<Check>, k: nat): (claims: Claims)
    requires k <= |entries|
    ensures |claims| == |rows|
  {
    if k == 0 then Unclaimed(|rows|)
    else
      var before := Assigned(entries, rows, k - 1);
      Claim(before, Pick(entries[k - 1], rows, before, |rows|), k - 1)
  }

  /** The row entry `k` takes in its turn. */
  function Hit(entries: seq<Entry>, rows: seq<Check>, k: nat): (j: Option<nat>)
    requires k < |entries|
    ensures j.Some? ==> j.value < |rows| && Candidate(entries[k], rows[j.value])
  {
    Pick(entries[k], rows, Assigned(entries, rows, k), |rows|)
  }

  // ----- the loops -----------------------------------------------------------------------

  /** Candidates are pairs of a score and a row number, the best first. */
  predicate Descending(s: seq<(nat, nat)>) {
    forall i, j :: 0 <= i < j < |s| ==> s[i].0 > s[j].0 || (s[i].0 == s[j].0 && s[i].1 >= s[j].1)
  }

  method Insert(s: seq<(nat, nat)>, x: (nat, nat)) returns (r: seq<(nat, nat)>)
    requires Descending(s)
    ensures Descending(r) && forall y :: y in r <==> y in s || y == x
  {
    var k := 0;
    while k < |s| && (s[k].0 > x.0 || (s[k].0 == x.0 && s[k].1 >= x.1))
      invariant 0 <= k <= |s|
      invariant forall i :: 0 <= i < k ==> s[i].0 > x.0 || (s[i].0 == x.0 && s[i].1 >= x.1)
    {
      k := k + 1;
    }
    r := s[..k] + [x] + s[k..];
    InsertedElements(s, k, x);
  }

  lemma InsertedElements(s: seq<(nat, nat)>, k: nat, x: (nat, nat))
    requires k <= |s|
    ensures forall y :: y in s[..k] + [x] + s[k..] <==> y in s || y == x
  {
    var r := s[..k] + [x] + s[k..];
    assert r[k] == x;
    forall y
      ensures y in r <==> y in s || y == x
    {
      assert y in s <==> y in s[..k] || y in s[k..] by {
        assert s == s[..k] + s[k..];
      }
    }
  }

  method Longest(prefixes: seq<string>, name: string) returns (best: Option<nat>)
    ensures best == BestLength(prefixes, name)
  {
    best := None;
    for k := 0 to |prefixes|
      invariant best == BestLength(prefixes[..k], name)
    {
      assert prefixes[..k + 1][..k] == prefixes[..k];
      if prefixes[k] <= name && (best.None? || |prefixes[k]| > best.value) {
        best := Some(|prefixes[k]|);
      }
    }
    assert prefixes[..|prefixes|] == prefixes;
  }

  /** The rows an entry could claim, best first. */
  method CandidatesFor(entry: Entry, rows: seq<Check>) returns (out: seq<(nat, nat)>)
    ensures Descending(out)
    ensures forall x: (nat, nat) :: x in out <==> x.1 < |rows| && Score(entry, rows[x.1]) == Some(x.0)
  {
    out := [];
    for j := 0 to |rows|
      invariant Descending(out)
      invariant forall x: (nat, nat) :: x in out <==> x.1 < j && Score(entry, rows[x.1]) == Some(x.0)
    {
      if rows[j].group != Text(entry.group) || !rows[j].name.Text? {
        continue;
      }
      var best := Longest(entry.prefixes, rows[j].name.s);
      if best.Some? {
        out := Insert(out, (best.value, j));
      }
    }
  }

  /** The first unclaimed candidate is the row the entry takes. */
  method TakeRow(entry: Entry, rows: seq<Check>, claims: Claims) returns (hit: Option<nat>)
    requires |claims| == |rows|
    ensures hit == Pick(entry, rows, claims, |rows|)
  {
    hide BestLength;
    var candidates := CandidatesFor(entry, rows);
    PickIsBest(entry, rows, claims, |rows|);
    ghost var best := Pick(entry, rows, claims, |rows|);
    for k := 0 to |candidates|
      invariant forall i :: 0 <= i < k ==> claims[candidates[i].1].Some?
    {
      var j := candidates[k].1;
      assert candidates[k] in candidates;
      if claims[j].None? {
        assert Free(entry, rows, claims, j) && best.Some?;
        assert (Score(entry, rows[best.value]).value, best.value) in candidates;
        return Some(j);
      }
    }
    forall j | 0 <= j < |rows|
      ensures !Free(entry, rows, claims, j)
    {
      if Score(entry, rows[j]).Some? {
        assert (Score(entry, rows[j]).value, j) in candidates;
      }
    }
    return None;
  }

  // ----- what every assignment keeps ----------------------------------------------------------

  lemma {:induction false} ClaimsAreHits(entries: seq<Entry>, rows: seq<Check>, k: nat)
    requires k <= |entries|
    ensures var claims := Assigned(entries, rows, k);
            forall j: nat, e: nat :: j < |rows| && e < |entries| ==>
              (claims[j] == Some(e) <==> e < k && Hit(entries, rows, e) == Some(j))
    ensures forall j :: 0 <= j < |rows| && Assigned(entries, rows, k)[j].Some? ==>
              Assigned(entries, rows, k)[j].value < k
  {
    hide Assigned, Hit, Candidate;
    if k > 0 {
      ClaimsAreHits(entries, rows, k - 1);
      TakesUnclaimed(entries, rows, k - 1);
      OneEntry(entries, rows, k);
    } else {
      NothingAssigned(entries, rows);
    }
  }

  lemma NothingAssigned(entries: seq<Entry>, rows: seq<Check>)
    ensures Assigned(entries, rows, 0) == Unclaimed(|rows|)
  {
  }

  lemma OneEntry(entries: seq<Entry>, rows: seq<Check>, k: nat)
    requires 0 < k <= |entries|
    ensures Assigned(entries, rows, k) == Claim(Assigned(entries, rows, k - 1), Hit(entries, rows, k - 1), k - 1)
  {
    hide Pick;
  }

  lemma TakesUnclaimed(entries: seq<Entry>, rows: seq<Check>, k: nat)
    requires k < |entries|
    ensures var hit := Hit(entries, rows, k); hit.Some? ==> Assigned(entries, rows, k)[hit.value].None?
  {
    hide Pick, Assigned;
  }

  /** Two entries never take the same row. */
  lemma HitsAreDistinct(entries: seq<Entry>, rows: seq<Check>, d: nat, e: nat)
    requires d < e < |entries| && Hit(entries, rows, d).Some?
    ensures Hit(entries, rows, d) != Hit(entries, rows, e)
  {
    ClaimsAreHits(entries, rows, e);
  }

  // ----- without shadowing the order does not matter --------------------------------------------

  /** Without shadowing a name extends prefixes of at most one entry, whatever the groups. */
  lemma NameHasOneEntry(entries: seq<Entry>, a: Check, b: Check, d: nat, e: nat)
    requires NonShadowing(entries) && d < |entries| && e < |entries|
    requires Candidate(entries[d], a) && Candidate(entries[e], b) && a.name == b.name
    ensures d == e
  {
    CandidateMeans(entries[d].prefixes, a.name.s);
    CandidateMeans(entries[e].prefixes, b.name.s);
    var p :| p in entries[d].prefixes && p <= a.name.s;
    var q :| q in entries[e].prefixes && q <= a.name.s;
    if |p| <= |q| {
      assert p == a.name.s[..|p|] == q[..|p|];
    } else {
      assert q == a.name.s[..|q|] == p[..|q|];
    }
  }

  /** The row an entry would take if it were alone. */
  function OwnRow(entry: Entry, rows: seq<Check>): Option<nat> {
    Pick(entry, rows, Unclaimed(|rows|), |rows|)
  }

  lemma {:induction false} PickIgnoresForeignClaims(entry: Entry, rows: seq<Check>, claims: Claims, n: nat)
    requires |claims| == |rows| && n <= |rows|
    requires forall j :: 0 <= j < |rows| && Candidate(entry, rows[j]) ==> claims[j].None?
    ensures Pick(entry, rows, claims, n) == Pick(entry, rows, Unclaimed(|rows|), n)
  {
    if n > 0 {
      PickIgnoresForeignClaims(entry, rows, claims, n - 1);
    }
  }

  lemma ClaimedIsCandidate(entries: seq<Entry>, rows: seq<Check>, k: nat, j: nat)
    requires k <= |entries| && j < |rows| && Assigned(entries, rows, k)[j].Some?
    ensures var e := Assigned(entries, rows, k)[j].value; e < k && Candidate(entries[e], rows[j])
  {
    hide Candidate, Pick;
    ClaimsAreHits(entries, rows, k);
    hide Assigned;
    var e := Assigned(entries, rows, k)[j].value;
    assert Hit(entries, rows, e) == Some(j);
  }

  /** Without shadowing each entry takes the row it would take alone, whatever the others do. */
  lemma HitIsOwnRow(entries: seq<Entry>, rows: seq<Check>, k: nat)
    requires NonShadowing(entries) && k < |entries|
    ensures Hit(entries, rows, k) == OwnRow(entries[k], rows)
  {
    hide Candidate, Pick, NonShadowing, Assigned;
    var claims := Assigned(entries, rows, k);
    forall j | 0 <= j < |rows| && Candidate(entries[k], rows[j])
      ensures claims[j].None?
    {
      if claims[j].Some? {
        ClaimedIsCandidate(entries, rows, k, j);
        NameHasOneEntry(entries, rows[j], rows[j], claims[j].value, k);
      }
    }
    PickIgnoresForeignClaims(entries[k], rows, claims, |rows|);
  }

  /** An entry goes without a row exactly when no row is a candidate for it. */
  lemma MissingExactly(entries: seq<Entry>, rows: seq<Check>, k: nat)
    requires NonShadowing(entries) && k < |entries|
    ensures Hit(entries, rows, k).None? <==> forall row :: row in rows ==> !Candidate(entries[k], row)
  {
    HitIsOwnRow(entries, rows, k);
    PickIsBest(entries[k], rows, Unclaimed(|rows|), |rows|);
    hide BestLength, Pick;
    forall j | 0 <= j < |rows|
      ensures Free(entries[k], rows, Unclaimed(|rows|), j) <==> Candidate(entries[k], rows[j])
    {
    }
    if Hit(entries, rows, k).None? {
      forall row | row in rows
        ensures !Candidate(entries[k], row)
      {
        var j :| 0 <= j < |rows| && rows[j] == row;
        assert !Free(entries[k], rows, Unclaimed(|rows|), j);
      }
    }
  }

  /** The rows left over when all entries have had their turn. */
  ghost predicate LeftOver(entries: seq<Entry>, rows: seq<Check>, j: nat) {
    j < |rows| && Assigned(entries, rows, |entries|)[j].None?
  }

  /**
   Listing the same entries in another order changes neither the row an entry takes nor which
   rows are left over.
   */
  lemma EntryOrderIrrelevant(a: seq<Entry>, b: seq<Entry>, rows: seq<Check>)
    requires NonShadowing(a) && NonShadowing(b) && forall e :: e in a <==> e in b
    ensures forall i, k :: 0 <= i < |a| && 0 <= k < |b| && a[i] == b[k] ==> Hit(a, rows, i) == Hit(b, rows, k)
    ensures forall j: nat :: LeftOver(a, rows, j) <==> LeftOver(b, rows, j)
  {
    hide BestLength, Pick;
    forall i, k | 0 <= i < |a| && 0 <= k < |b| && a[i] == b[k]
      ensures Hit(a, rows, i) == Hit(b, rows, k)
    {
      HitIsOwnRow(a, rows, i);
      HitIsOwnRow(b, rows, k);
    }
    forall j: nat
      ensures LeftOver(a, rows, j) <==> LeftOver(b, rows, j)
    {
      LeftOverTransfers(a, b, rows, j);
      LeftOverTransfers(b, a, rows, j);
    }
  }

  lemma LeftOverTransfers(a: seq<Entry>, b: seq<Entry>, rows: seq<Check>, j: nat)
    requires NonShadowing(a) && NonShadowing(b) && forall e :: e in a <==> e in b
    ensures LeftOver(a, rows, j) ==> LeftOver(b, rows, j)
  {
    hide BestLength, Pick;
    ClaimsAreHits(a, rows, |a|);
    ClaimsAreHits(b, rows, |b|);
    if LeftOver(a, rows, j) && !LeftOver(b, rows, j) {
      var k := Assigned(b, rows, |b|)[j].value;
      assert Hit(b, rows, k) == Some(j);
      assert b[k] in a;
      var i :| 0 <= i < |a| && a[i] == b[k];
      HitIsOwnRow(a, rows, i);
      HitIsOwnRow(b, rows, k);
      assert false;
    }
  }

  // ----- counting ----------------------------------------------------------------------------

  function CountLeftOver(claims: Claims): nat {
    if claims == [] then 0 else CountLeftOver(claims[..|claims| - 1]) + if claims[|claims| - 1].None? then 1 else 0
  }

  /** The number of entries among the first `k` that take a row. */
  function CountHits(entries: seq<Entry>, rows: seq<Check>, k: nat): nat
    requires k <= |entries|
  {
    if k == 0 then 0 else CountHits(entries, rows, k - 1) + if Hit(entries, rows, k - 1).Some? then 1 else 0
  }

  lemma {:induction false} ClaimOne(claims: Claims, j: nat, k: nat)
    requires j < |claims| && claims[j].None?
    ensures CountLeftOver(claims[j := Some(k)]) + 1 == CountLeftOver(claims)
  {
    var n := |claims| - 1;
    if j < n {
      ClaimOne(claims[..n], j, k);
      assert claims[j := Some(k)][..n] == claims[..n][j := Some(k)];
    } else {
      assert claims[j := Some(k)][..n] == claims[..n];
    }
  }

  lemma {:induction false} AllUnclaimed(n: nat)
    ensures CountLeftOver(Unclaimed(n)) == n
  {
    if n > 0 {
      AllUnclaimed(n - 1);
      assert Unclaimed(n)[..n - 1] == Unclaimed(n - 1);
    }
  }

  /** Each entry that takes a row takes one: rows left over and entries served add up. */
  lemma {:induction false} ServedAndLeftOver(entries: seq<Entry>, rows: seq<Check>, k: nat)
    requires k <= |entries|
    ensures CountLeftOver(Assigned(entries, rows, k)) + CountHits(entries, rows, k) == |rows|
  {
    hide Assigned, Hit, Candidate, CountLeftOver;
    if k == 0 {
      NothingAssigned(entries, rows);
      AllUnclaimed(|rows|);
    } else {
      ServedAndLeftOver(entries, rows, k - 1);
      OneEntry(entries, rows, k);
      TakesUnclaimed(entries, rows, k - 1);
      var hit := Hit(entries, rows, k - 1);
      if hit.Some? {
        ClaimOne(Assigned(entries, rows, k - 1), hit.value, k - 1);
      }
    }
  }

  lemma {:induction false} HitsOfPermutedRows(entries: seq<Entry>, rows: seq<Check>, rows': seq<Check>, k: nat)
    requires NonShadowing(entries) && k <= |entries| && forall row :: row in rows <==> row in rows'
    ensures CountHits(entries, rows, k) == CountHits(entries, rows', k)
    ensures forall e :: 0 <= e < k ==> Hit(entries, rows, e).None? == Hit(entries, rows', e).None?
  {
    hide Pick, Assigned, Candidate, NonShadowing;
    if k > 0 {
      HitsOfPermutedRows(entries, rows, rows', k - 1);
      MissingExactly(entries, rows, k - 1);
      MissingExactly(entries, rows', k - 1);
    }
  }

  /** Reordering the rows changes neither which entries go without one nor how many are left over. */
  lemma RowOrderIrrelevant(entries: seq<Entry>, rows: seq<Check>, rows': seq<Check>)
    requires NonShadowing(entries) && multiset(rows) == multiset(rows')
    ensures forall e :: 0 <= e < |entries| ==> Hit(entries, rows, e).None? == Hit(entries, rows', e).None?
    ensures CountLeftOver(Assigned(entries, rows, |entries|)) == CountLeftOver(Assigned(entries, rows', |entries|))
  {
    assert |rows| == |multiset(rows)| == |multiset(rows')| == |rows'|;
    forall row
      ensures row in rows <==> row in rows'
    {
      assert row in rows <==> row in multiset(rows);
      assert row in rows' <==> row in multiset(rows');
    }
    HitsOfPermutedRows(entries, rows, rows', |entries|);
    ServedAndLeftOver(entries, rows, |entries|);
    ServedAndLeftOver(entries, rows', |entries|);
  }

  // ----- completeness ---------------------------------------------------------------------------

  /**
   A complete one-to-one assignment: every row is given to an entry it is a candidate for, no
   entry gets two rows, and each of the first `required` entries gets one.
   */
  ghost predicate Complete(entries: seq<Entry>, rows: seq<Check>, required: nat, owner: seq<nat>) {
    && required <= |entries| && |owner| == |rows|
    && (forall j :: 0 <= j < |rows| ==> owner[j] < |entries| && Candidate(entries[owner[j]], rows[j]))
    && (forall i, j :: 0 <= i < j < |rows| ==> owner[i] != owner[j])
    && (forall k :: 0 <= k < required ==> k in owner)
  }

  /**
   Without shadowing the greedy loop is complete: if any complete one-to-one assignment exists
   it finds that one.
   */
  lemma GreedyIsComplete(entries: seq<Entry>, rows: seq<Check>, required: nat, owner: seq<nat>)
    requires NonShadowing(entries) && Complete(entries, rows, required, owner)
    ensures forall j :: 0 <= j < |rows| ==> Assigned(entries, rows, |entries|)[j] == Some(owner[j])
    ensures forall k :: 0 <= k < required ==> Hit(entries, rows, k).Some?
  {
    hide BestLength, Pick, Assigned, Candidate, NonShadowing, Hit;
    forall j: nat | j < |rows|
      ensures Assigned(entries, rows, |entries|)[j] == Some(owner[j])
    {
      OwnerTakesItsRow(entries, rows, required, owner, j);
      HitClaims(entries, rows, owner[j], j);
    }
    forall k: nat | k < required
      ensures Hit(entries, rows, k).Some?
    {
      assert k in owner;
      var j :| 0 <= j < |owner| && owner[j] == k;
      OwnerTakesItsRow(entries, rows, required, owner, j);
    }
  }

  lemma HitClaims(entries: seq<Entry>, rows: seq<Check>, e: nat, j: nat)
    requires e < |entries| && j < |rows| && Hit(entries, rows, e) == Some(j)
    ensures Assigned(entries, rows, |entries|)[j] == Some(e)
  {
    ClaimsAreHits(entries, rows, |entries|);
  }

  lemma OwnerTakesItsRow(entries: seq<Entry>, rows: seq<Check>, required: nat, owner: seq<nat>, j: nat)
    requires NonShadowing(entries) && Complete(entries, rows, required, owner) && j < |rows|
    ensures Hit(entries, rows, owner[j]) == Some(j)
  {
    hide BestLength, Pick, Assigned, NonShadowing;
    var e := owner[j];
    assert rows[j] in rows && Candidate(entries[e], rows[j]);
    MissingExactly(entries, rows, e);
    var i := Hit(entries, rows, e).value;
    NameHasOneEntry(entries, rows[i], rows[i], e, owner[i]);
    assert owner[i] == owner[j];
  }
}
