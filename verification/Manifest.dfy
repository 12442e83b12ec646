/**
 The manifest's gateway scope: entries made from check sites, and the refusal of labels that
 are too short or that shadow each other.
 */
module Manifest {
  import opened Wrappers
  import opened GatewaySites

  const MIN_PREFIX := 12

  /** A declared check: any one of the prefixes identifies it. */
  datatype Entry = Entry(group: string, prefixes: seq<string>)

  datatype Scope = Scope(required: seq<Entry>, optional: seq<Entry>, groups: map<string, nat>, expectedTotal: nat)

  predicate LongEnough(labels: seq<string>) {
    forall l :: l in labels ==> |l| >= MIN_PREFIX
  }

  method CheckEntry(site: Site) returns (entry: Option<Entry>)
    ensures entry == if LongEnough(site.labels) then Some(Entry(site.group, site.labels)) else None
  {
    for k := 0 to |site.labels|
      invariant forall i :: 0 <= i < k ==> |site.labels[i]| >= MIN_PREFIX
    {
      if |site.labels[k]| < MIN_PREFIX {
        assert site.labels[k] in site.labels;
        return None;
      }
    }
    return Some(Entry(site.group, site.labels));
  }

  function EntryOf(site: Site): Entry {
    Entry(site.group, site.labels)
  }

  function Entries(sites: seq<Site>): (entries: seq<Entry>)
    ensures |entries| == |sites|
  {
    seq(|sites|, i requires 0 <= i < |sites| => EntryOf(sites[i]))
  }

  predicate AllLongEnough(sites: seq<Site>) {
    forall i :: 0 <= i < |sites| ==> LongEnough(sites[i].labels)
  }

  method CheckEntries(sites: seq<Site>) returns (entries: Option<seq<Entry>>)
    ensures entries == if AllLongEnough(sites) then Some(Entries(sites)) else None
  {
    var out: seq<Entry> := [];
    for k := 0 to |sites|
      invariant out == Entries(sites)[..k]
      invariant forall i :: 0 <= i < k ==> LongEnough(sites[i].labels)
    {
      var entry := CheckEntry(sites[k]);
      if entry.None? {
        return None;
      }
      out := out + [entry.value];
    }
    assert out == Entries(sites);
    return Some(out);
  }

  /** No prefix of one entry begins a prefix of another. */
  ghost predicate NonShadowing(entries: seq<Entry>) {
    forall i, j, a, b ::
      0 <= i < |entries| && 0 <= j < |entries| && i != j && a in entries[i].prefixes && b in entries[j].prefixes
      ==> !(a <= b)
  }

  /** Every prefix with the entry it belongs to. */
  ghost predicate IsFlat(entries: seq<Entry>, flat: seq<(string, nat)>) {
    && (forall k :: 0 <= k < |flat| ==> flat[k].1 < |entries| && flat[k].0 in entries[flat[k].1].prefixes)
    && (forall i, a :: 0 <= i < |entries| && a in entries[i].prefixes ==> (a, i) in flat)
  }

  method Flatten(entries: seq<Entry>) returns (flat: seq<(string, nat)>)
    ensures IsFlat(entries, flat)
  {
    flat := [];
    for i := 0 to |entries|
      invariant forall k :: 0 <= k < |flat| ==> flat[k].1 < |entries| && flat[k].0 in entries[flat[k].1].prefixes
      invariant forall e, a :: 0 <= e < i && a in entries[e].prefixes ==> (a, e) in flat
    {
      var prefixes := entries[i].prefixes;
      for p := 0 to |prefixes|
        invariant forall k :: 0 <= k < |flat| ==> flat[k].1 < |entries| && flat[k].0 in entries[flat[k].1].prefixes
        invariant forall e, a :: 0 <= e < i && a in entries[e].prefixes ==> (a, e) in flat
        invariant forall q :: 0 <= q < p ==> (prefixes[q], i) in flat
      {
        var before := flat;
        flat := flat + [(prefixes[p], i)];
        assert flat[|before|] == (prefixes[p], i);
        assert forall x :: x in before ==> x in flat;
      }
    }
  }

  /** Refuse a scope in which a row could be attributed to either of two checks. */
  method RejectShadowing(entries: seq<Entry>) returns (ok: bool)
    ensures ok <==> NonShadowing(entries)
  {
    var flat := Flatten(entries);
    for x := 0 to |flat|
      invariant forall u, v :: 0 <= u < x && 0 <= v < |flat| && flat[u].1 != flat[v].1 ==> !(flat[u].0 <= flat[v].0)
    {
      for y := 0 to |flat|
        invariant forall v :: 0 <= v < y && flat[x].1 != flat[v].1 ==> !(flat[x].0 <= flat[v].0)
      {
        if flat[x].1 != flat[y].1 && flat[x].0 <= flat[y].0 {
          return false;
        }
      }
    }
    forall i, j, a, b | 0 <= i < |entries| && 0 <= j < |entries| && i != j
                        && a in entries[i].prefixes && b in entries[j].prefixes
      ensures !(a <= b)
    {
      assert (a, i) in flat && (b, j) in flat;
      var u :| 0 <= u < |flat| && flat[u] == (a, i);
      var v :| 0 <= v < |flat| && flat[v] == (b, j);
    }
    ok := true;
  }

  /** How many entries a group has. */
  function InGroup(entries: seq<Entry>, g: string): nat {
    if entries == [] then 0
    else InGroup(entries[..|entries| - 1], g) + if entries[|entries| - 1].group == g then 1 else 0
  }

  ghost predicate CountsGroups(entries: seq<Entry>, groups: map<string, nat>) {
    forall g :: (g in groups <==> InGroup(entries, g) > 0) && (g in groups ==> groups[g] == InGroup(entries, g))
  }

  method CountGroups(entries: seq<Entry>) returns (groups: map<string, nat>)
    ensures CountsGroups(entries, groups)
  {
    groups := map[];
    for k := 0 to |entries|
      invariant CountsGroups(entries[..k], groups)
    {
      var g := entries[k].group;
      assert entries[..k + 1][..k] == entries[..k];
      groups := groups[g := (if g in groups then groups[g] else 0) + 1];
    }
    assert entries[..|entries|] == entries;
  }

  /** When a scope can be built from the found sites and the number the script declares. */
  ghost predicate Buildable(required: seq<Site>, optional: seq<Site>, declared: int) {
    && AllLongEnough(required) && AllLongEnough(optional)
    && NonShadowing(Entries(required) + Entries(optional))
    && declared == |required|
  }

  ghost predicate Describes(scope: Scope, required: seq<Site>, optional: seq<Site>) {
    && scope.required == Entries(required) && scope.optional == Entries(optional)
    && CountsGroups(scope.required, scope.groups)
    && scope.expectedTotal == |required|
  }

  /**
   A scope is built if and only if every label has twelve characters or more, no label of one site
   begins a label of another, and the declared number is that of the required sites.
   */
  lemma BuildableMeans(required: seq<Site>, optional: seq<Site>, declared: int)
    ensures var sites := required + optional;
            Buildable(required, optional, declared) <==>
              && (forall i, l :: 0 <= i < |sites| && l in sites[i].labels ==> |l| >= 12)
              && (forall i, j, a, b :: 0 <= i < |sites| && 0 <= j < |sites| && i != j && a in sites[i].labels && b in sites[j].labels
                    ==> !(a <= b))
              && declared == |required|
  {
    var sites, entries := required + optional, Entries(required) + Entries(optional);
    assert forall i :: 0 <= i < |sites| ==> entries[i].prefixes == sites[i].labels;
    assert forall i :: 0 <= i < |required| ==> sites[i] == required[i];
    assert forall i :: 0 <= i < |optional| ==> sites[|required| + i] == optional[i];
  }

  method BuildGateway(required: seq<Site>, optional: seq<Site>, declared: int) returns (scope: Option<Scope>)
    ensures scope.Some? <==> Buildable(required, optional, declared)
    ensures scope.Some? ==> Describes(scope.value, required, optional)
  {
    var req := CheckEntries(required);
    if req.None? {
      return None;
    }
    var opt := CheckEntries(optional);
    if opt.None? {
      return None;
    }
    var ok := RejectShadowing(req.value + opt.value);
    if !ok || declared != |req.value| {
      return None;
    }
    var groups := CountGroups(req.value);
    return Some(Scope(req.value, opt.value, groups, |req.value|));
  }
}
