/**
 The gateway script's check sites: a stack machine over its logical lines. A line comes with
 the labels its check calls carry; a check that cannot be pinned to a place makes the scan
 abort.
 */
module GatewaySites {
  import opened Wrappers
  import opened ShellLists

  /** A piece of a line; the scan looks at the labels of its required and of its optional checks. */
  datatype Checks = Checks(line: seq<Part>) {
    const required: seq<string> := TagsOf(line, false)
    const optional: seq<string> := TagsOf(line, true)
  }

  /** How a line reads when it stands directly in a `case`: as the opening of an arm. */
  datatype ArmReading = ArmReading(isDefault: bool, rest: Checks)

  /**
   A logical line with the checks on it. Those on the line of a `group`, an `elif`, a `case` or a
   closing keyword, and in the condition of a one-line conditional, are not looked at. A loop on
   one line is a plain line, since it does not end in `do`.
   */
  datatype Line =
    | GroupLine(name: string, ignored: Checks)
    | OneLineIf(ignored: Checks, yes: Checks, no: Checks)
    | IfLine(checks: Checks)
    | ElifLine(ignored: Checks)
    | ElseLine(checks: Checks)
    | LoopLine(checks: Checks)
    | CaseLine(ignored: Checks)
    | CloseLine(ignored: Checks)
    | PlainLine(whole: Checks, arm: Option<ArmReading>)

  /** A place where exactly one check is emitted, under one of its labels. */
  datatype Site = Site(group: string, labels: seq<string>)

  datatype Kind = IfBlock | CaseBlock | LoopBlock

  /** An open block: the required sites of each branch so far, and the optional sites. */
  datatype Frame = Frame(kind: Kind, branches: seq<seq<Site>>, optional: seq<Site>, sawDefault: bool)

  /** The scan between two lines. Until the first `group` line nothing is looked at. */
  datatype Scan = Scan(stack: seq<Frame>, group: Option<string>, required: seq<Site>, optional: seq<Site>)

  const INITIAL := Scan([], None, [], [])

  function NewFrame(kind: Kind): Frame {
    Frame(kind, [[]], [], false)
  }

  // ----- pairing branches ------------------------------------------------------------

  predicate SameSizes(branches: seq<seq<Site>>) {
    forall i :: 0 <= i < |branches| ==> |branches[i]| == |branches[0]|
  }

  /** Labels added in order, each once. */
  function Merge(labels: seq<string>, more: seq<string>): seq<string>
    decreases |more|
  {
    if more == [] then labels
    else Merge(if more[0] in labels then labels else labels + [more[0]], more[1..])
  }

  /** The labels the first `n` branches have at position `i`. */
  function LabelsAt(branches: seq<seq<Site>>, i: nat, n: nat): seq<string>
    requires n <= |branches| && forall b :: 0 <= b < |branches| ==> i < |branches[b]|
  {
    if n == 0 then [] else Merge(LabelsAt(branches, i, n - 1), branches[n - 1][i].labels)
  }

  /** One site for each position: the labels of all branches there, the group of the first branch. */
  function Pair(branches: seq<seq<Site>>): seq<Site>
    requires branches != [] && SameSizes(branches)
  {
    seq(|branches[0]|, i requires 0 <= i < |branches[0]| =>
      Site(branches[0][i].group, LabelsAt(branches, i, |branches|)))
  }

  lemma {:induction false} MergeHolds(labels: seq<string>, more: seq<string>, l: string)
    ensures l in Merge(labels, more) <==> l in labels || l in more
    decreases |more|
  {
    if more != [] {
      MergeHolds(if more[0] in labels then labels else labels + [more[0]], more[1..], l);
    }
  }

  /** Merging keeps what is there in its place, and adds nothing twice. */
  lemma {:induction false} MergeIsOrdered(labels: seq<string>, more: seq<string>)
    requires forall i, j :: 0 <= i < j < |labels| ==> labels[i] != labels[j]
    ensures labels <= Merge(labels, more)
    ensures forall i, j :: 0 <= i < j < |Merge(labels, more)| ==> Merge(labels, more)[i] != Merge(labels, more)[j]
    decreases |more|
  {
    if more != [] {
      MergeIsOrdered(if more[0] in labels then labels else labels + [more[0]], more[1..]);
    }
  }

  /** A paired site carries exactly the labels some branch has at its position. */
  lemma {:induction false} LabelsAtHolds(branches: seq<seq<Site>>, i: nat, n: nat, l: string)
    requires n <= |branches| && forall b :: 0 <= b < |branches| ==> i < |branches[b]|
    ensures l in LabelsAt(branches, i, n) <==> exists b :: 0 <= b < n && l in branches[b][i].labels
  {
    if n > 0 {
      LabelsAtHolds(branches, i, n - 1, l);
      MergeHolds(LabelsAt(branches, i, n - 1), branches[n - 1][i].labels, l);
    }
  }

  // ----- the machine -------------------------------------------------------------------

  function AddRequired(s: Scan, sites: seq<Site>): Scan
    requires WellFormed(s)
  {
    if s.stack == [] then s.(required := s.required + sites)
    else
      var top := s.stack[|s.stack| - 1];
      var last := |top.branches| - 1;
      s.(stack := s.stack[|s.stack| - 1 := top.(branches := top.branches[last := top.branches[last] + sites])])
  }

  function AddOptional(s: Scan, sites: seq<Site>): Scan {
    if s.stack == [] then s.(optional := s.optional + sites)
    else
      var top := s.stack[|s.stack| - 1];
      s.(stack := s.stack[|s.stack| - 1 := top.(optional := top.optional + sites)])
  }

  ghost predicate WellFormed(s: Scan) {
    forall i :: 0 <= i < |s.stack| ==> s.stack[i].branches != []
  }

  /** The branches to compare: an `if` alone and a `case` without default have an empty one more. */
  function AllBranches(f: Frame): seq<seq<Site>> {
    var more := if f.kind.IfBlock? && |f.branches| == 1 then f.branches + [[]] else f.branches;
    if f.kind.CaseBlock? && !f.sawDefault then more + [[]] else more
  }

  predicate AllEmpty(branches: seq<seq<Site>>) {
    forall i :: 0 <= i < |branches| ==> branches[i] == []
  }

  /** The sites a closed block hands on, or nothing if it has to be refused. */
  function Closed(f: Frame): Option<seq<Site>>
    requires f.branches != []
  {
    if f.kind.LoopBlock? then if AllEmpty(f.branches) && f.optional == [] then Some([]) else None
    else if SameSizes(AllBranches(f)) then Some(Pair(AllBranches(f)))
    else None
  }

  function Singles(labels: seq<string>, group: string): seq<Site> {
    if labels == [] then [] else [Site(group, [labels[0]])] + Singles(labels[1..], group)
  }

  /** A line's required labels are alternatives of one site; an optional label is a site of its own. */
  function Emit(s: Scan, checks: Checks): (r: Option<Scan>)
    requires WellFormed(s) && s.group.Some?
    ensures r.Some? ==> WellFormed(r.value) && r.value.group == s.group
  {
    var g := s.group.value;
    if checks.required != [] && checks.optional != [] then None
    else if checks.required != [] then Some(AddRequired(s, [Site(g, checks.required)]))
    else Some(AddOptional(s, Singles(checks.optional, g)))
  }

  /** The arms of a one-line conditional are paired label by label. */
  function Alternatives(yes: seq<string>, no: seq<string>, group: string): seq<Site>
    requires |yes| == |no|
  {
    if yes == [] then []
    else [Site(group, Merge(Merge([], [yes[0]]), [no[0]]))] + Alternatives(yes[1..], no[1..], group)
  }

  /** Each site of a one-line conditional is of the group and carries exactly the labels both arms have there. */
  lemma {:induction false} AlternativesHold(yes: seq<string>, no: seq<string>, group: string)
    requires |yes| == |no|
    ensures var sites := Alternatives(yes, no, group);
            && |sites| == |yes|
            && forall i :: 0 <= i < |sites| ==>
                 sites[i].group == group && forall l :: l in sites[i].labels <==> l == yes[i] || l == no[i]
  {
    if yes != [] {
      AlternativesHold(yes[1..], no[1..], group);
      forall l
        ensures l in Merge(Merge([], [yes[0]]), [no[0]]) <==> l == yes[0] || l == no[0]
      {
        MergeHolds([], [yes[0]], l);
        MergeHolds(Merge([], [yes[0]]), [no[0]], l);
      }
      hide Merge;
    }
  }

  function OneLineIfSites(s: Scan, yes: Checks, no: Checks, g: string): (r: Scan)
    requires WellFormed(s) && |yes.required| == |no.required|
    ensures WellFormed(r) && r.group == s.group
  {
    var t := AddRequired(s, Alternatives(yes.required, no.required, g));
    AddOptional(AddOptional(t, Singles(yes.optional, g)), Singles(no.optional, g))
  }

  function Push(s: Scan, kind: Kind): Scan {
    s.(stack := s.stack + [NewFrame(kind)])
  }

  /** A further branch of the block on top, whatever its kind. */
  function Branch(s: Scan, isDefault: bool): Scan
    requires s.stack != []
  {
    var top := s.stack[|s.stack| - 1];
    s.(stack := s.stack[|s.stack| - 1 :=
      top.(branches := top.branches + [[]], sawDefault := top.sawDefault || isDefault)])
  }

  function Pop(s: Scan): (r: Option<Scan>)
    requires WellFormed(s) && s.stack != []
    ensures r.Some? ==> WellFormed(r.value) && r.value.group == s.group
  {
    var top := s.stack[|s.stack| - 1];
    var below := s.(stack := s.stack[..|s.stack| - 1]);
    match Closed(top)
    case None => None
    case Some(sites) => Some(AddOptional(AddRequired(below, sites), top.optional))
  }

  predicate InCase(s: Scan) {
    s.stack != [] && s.stack[|s.stack| - 1].kind.CaseBlock?
  }

  /** One logical line. */
  function Step(s: Scan, line: Line): (r: Option<Scan>)
    requires WellFormed(s)
    ensures r.Some? ==> WellFormed(r.value) && (s.group.Some? ==> r.value.group.Some?)
  {
    if line.GroupLine? then Some(s.(group := Some(line.name)))
    else if s.group.None? then Some(s)
    else
      match line
      case OneLineIf(_, yes, no) =>
        if |yes.required| != |no.required| then None else Some(OneLineIfSites(s, yes, no, s.group.value))
      case IfLine(checks) => Emit(Push(s, IfBlock), checks)
      case LoopLine(checks) => Emit(Push(s, LoopBlock), checks)
      case CaseLine(_) => Some(Push(s, CaseBlock))
      case ElseLine(checks) => if s.stack == [] then None else Emit(Branch(s, false), checks)
      case ElifLine(_) => if s.stack == [] then None else Some(Branch(s, false))
      case CloseLine(_) => if s.stack == [] then None else Pop(s)
      case PlainLine(whole, arm) =>
        if InCase(s) && arm.Some? then Emit(Branch(s, arm.value.isDefault), arm.value.rest) else Emit(s, whole)
  }

  function Run(s: Scan, lines: seq<Line>): (r: Option<Scan>)
    requires WellFormed(s)
    ensures r.Some? ==> WellFormed(r.value)
    decreases |lines|
  {
    if lines == [] then Some(s)
    else
      match Step(s, lines[0])
      case None => None
      case Some(t) => Run(t, lines[1..])
  }

  /** The required and optional sites of a whole script, unless the scan aborts. */
  function Sites(lines: seq<Line>): Option<(seq<Site>, seq<Site>)> {
    match Run(INITIAL, lines)
    case None => None
    case Some(s) => if s.stack == [] then Some((s.required, s.optional)) else None
  }

  // ----- the scanner ----------------------------------------------------------------------

  class Block {
    const kind: Kind
    var branches: seq<seq<Site>>
    var optional: seq<Site>
    var sawDefault: bool

    constructor (kind: Kind)
      ensures this.kind == kind && View() == NewFrame(kind)
    {
      this.kind := kind;
      branches, optional, sawDefault := [[]], [], false;
    }

    function View(): Frame
      reads this
    {
      Frame(kind, branches, optional, sawDefault)
    }

    /** Name the branches that are only implied. */
    method Complete()
      requires branches != []
      modifies this`branches
      ensures branches == AllBranches(old(View()))
    {
      if kind.IfBlock? && |branches| == 1 {
        branches := branches + [[]];
      }
      if kind.CaseBlock? && !sawDefault {
        branches := branches + [[]];
      }
    }

    /** The paired sites, unless a loop holds a check or the branches differ in size. */
    method Pairing() returns (paired: Option<seq<Site>>)
      requires branches != []
      modifies this`branches
      ensures paired == Closed(old(View()))
    {
      Complete();
      hide Pair, SameSizes, AllEmpty;
      if kind.LoopBlock? {
        return if AllEmpty(branches) && optional == [] then Some([]) else None;
      }
      if !SameSizes(branches) {
        return None;
      }
      var sites := PairBranches(branches);
      return Some(sites);
    }
  }

  ghost function Views(blocks: seq<Block>): seq<Frame>
    reads blocks
  {
    seq(|blocks|, i requires 0 <= i < |blocks| reads blocks => blocks[i].View())
  }

  class Scanner {
    var stack: seq<Block>
    var scanning: bool
    var group: string
    var required: seq<Site>
    var optional: seq<Site>

    constructor ()
      ensures Valid() && View() == INITIAL && stack == []
    {
      stack, scanning, group, required, optional := [], false, "", [], [];
    }

    ghost predicate Valid()
      reads this, stack
    {
      && (forall i, j :: 0 <= i < j < |stack| ==> stack[i] != stack[j])
      && (forall i :: 0 <= i < |stack| ==> stack[i].branches != [])
    }

    ghost function View(): Scan
      reads this, stack
    {
      Scan(Views(stack),
           if scanning then Some(group) else None, required, optional)
    }

    method AddRequiredSites(sites: seq<Site>)
      requires Valid()
      modifies this`required, stack
      ensures Valid() && View() == AddRequired(old(View()), sites)
    {
      if stack != [] {
        var top := stack[|stack| - 1];
        var last := |top.branches| - 1;
        top.branches := top.branches[last := top.branches[last] + sites];
        assert View().stack == AddRequired(old(View()), sites).stack;
      } else {
        required := required + sites;
      }
    }

    method AddOptionalSites(sites: seq<Site>)
      requires Valid()
      modifies this`optional, stack
      ensures Valid() && View() == AddOptional(old(View()), sites)
    {
      if stack != [] {
        var top := stack[|stack| - 1];
        top.optional := top.optional + sites;
        assert View().stack == AddOptional(old(View()), sites).stack;
      } else {
        optional := optional + sites;
      }
    }

    method EmitOptional(labels: seq<string>)
      requires Valid() && scanning
      modifies this`optional, stack
      ensures Valid() && View() == AddOptional(old(View()), Singles(labels, group))
    {
      hide AddOptional, View;
      AddNoOptional(View());
      var k := 0;
      while k < |labels|
        invariant 0 <= k <= |labels| && Valid()
        invariant AddOptional(View(), Singles(labels[k..], group)) == AddOptional(old(View()), Singles(labels, group))
      {
        var site := Site(group, [labels[k]]);
        AddOptionalTwice(View(), [site], Singles(labels[k + 1..], group));
        assert labels[k..][1..] == labels[k + 1..];
        AddOptionalSites([site]);
        k := k + 1;
      }
      AddNoOptional(View());
    }

    /** Close a block that was taken off the stack: hand its sites on, or refuse it. */
    method CloseBlock(block: Block) returns (ok: bool)
      requires Valid() && block !in stack && block.branches != []
      modifies this`required, this`optional, stack, block
      ensures ok <==> Closed(old(block.View())).Some?
      ensures ok ==> Valid() && stack == old(stack) && scanning == old(scanning) && group == old(group)
      ensures ok ==>
        View() == AddOptional(AddRequired(old(View()), Closed(old(block.View())).value), old(block.optional))
    {
      hide AddRequired, AddOptional, Closed;
      var paired := block.Pairing();
      assert Views(stack) == old(Views(stack));
      if paired.None? {
        return false;
      }
      AddRequiredSites(paired.value);
      AddOptionalSites(block.optional);
      ok := true;
    }

    /** Take in one logical line; a refusal ends the scan. */
    method ReadLine(line: Line) returns (ok: bool)
      requires Valid()
      modifies this, stack
      ensures ok <==> Step(old(View()), line).Some?
      ensures ok ==> Valid() && View() == Step(old(View()), line).value && fresh(set b | b in stack && b !in old(stack))
    {
      hide Emit, Pop, OneLineIfSites, Push, Branch;
      ok := true;
      if line.GroupLine? {
        scanning, group := true, line.name;
        return;
      }
      if !scanning {
        return;
      }
      match line
      case OneLineIf(_, yes, no) =>
        ok := OneLine(yes, no);
      case IfLine(checks) =>
        ok := OpenWith(IfBlock, checks);
      case LoopLine(checks) =>
        ok := OpenWith(LoopBlock, checks);
      case CaseLine(_) =>
        Open(CaseBlock);
      case ElseLine(checks) =>
        if stack == [] {
          return false;
        }
        ok := BranchWith(false, checks);
      case ElifLine(_) =>
        if stack == [] {
          return false;
        }
        NextBranch(false);
      case CloseLine(_) =>
        if stack == [] {
          return false;
        }
        ok := PopBlock();
      case PlainLine(whole, arm) =>
        if stack != [] && stack[|stack| - 1].kind.CaseBlock? && arm.Some? {
          ok := BranchWith(arm.value.isDefault, arm.value.rest);
        } else {
          ok := EmitChecks(whole);
        }
    }

    method PopBlock() returns (ok: bool)
      requires Valid() && stack != []
      modifies this, stack
      ensures ok <==> Pop(old(View())).Some?
      ensures ok ==> Valid() && View() == Pop(old(View())).value && stack == old(stack)[..|old(stack)| - 1]
      ensures ok ==> scanning == old(scanning) && group == old(group)
    {
      hide AddRequired, AddOptional, Closed;
      var block := stack[|stack| - 1];
      stack := stack[..|stack| - 1];
      assert View() == old(View()).(stack := old(View().stack)[..|old(stack)| - 1]);
      ok := CloseBlock(block);
    }

    method OneLine(yes: Checks, no: Checks) returns (ok: bool)
      requires Valid() && scanning
      modifies this`required, this`optional, stack
      ensures ok <==> |yes.required| == |no.required|
      ensures ok ==> Valid() && View() == OneLineIfSites(old(View()), yes, no, group)
    {
      if |yes.required| != |no.required| {
        return false;
      }
      hide AddRequired, AddOptional, Alternatives, View;
      var sites := PairArms(yes.required, no.required, group);
      AddRequiredSites(sites);
      EmitOptional(yes.optional);
      EmitOptional(no.optional);
      ok := true;
    }

    method Open(kind: Kind)
      requires Valid()
      modifies this`stack
      ensures Valid() && View() == Push(old(View()), kind)
      ensures |stack| == |old(stack)| + 1 && stack[..|old(stack)|] == old(stack) && fresh(stack[|old(stack)|])
    {
      var block := new Block(kind);
      stack := stack + [block];
      assert View().stack == Push(old(View()), kind).stack;
    }

    method OpenWith(kind: Kind, checks: Checks) returns (ok: bool)
      requires Valid() && scanning
      modifies this`stack, this`required, this`optional, stack
      ensures ok <==> Emit(Push(old(View()), kind), checks).Some?
      ensures ok ==> Valid() && View() == Emit(Push(old(View()), kind), checks).value
      ensures ok ==> fresh(set b | b in stack && b !in old(stack))
    {
      hide Emit, Push;
      Open(kind);
      ok := EmitChecks(checks);
    }

    method BranchWith(isDefault: bool, checks: Checks) returns (ok: bool)
      requires Valid() && scanning && stack != []
      modifies this`required, this`optional, stack
      ensures ok <==> Emit(Branch(old(View()), isDefault), checks).Some?
      ensures ok ==> Valid() && View() == Emit(Branch(old(View()), isDefault), checks).value
    {
      hide Emit, Branch;
      NextBranch(isDefault);
      ok := EmitChecks(checks);
    }

    method NextBranch(isDefault: bool)
      requires Valid() && stack != []
      modifies stack
      ensures Valid() && View() == Branch(old(View()), isDefault)
    {
      var top := stack[|stack| - 1];
      top.branches := top.branches + [[]];
      if isDefault {
        top.sawDefault := true;
      }
      assert View().stack == Branch(old(View()), isDefault).stack;
    }

    method EmitChecks(checks: Checks) returns (ok: bool)
      requires Valid() && scanning
      modifies this`required, this`optional, stack
      ensures ok <==> Emit(old(View()), checks).Some?
      ensures ok ==> Valid() && View() == Emit(old(View()), checks).value
    {
      if checks.required != [] && checks.optional != [] {
        return false;
      }
      ok := true;
      if checks.required != [] {
        AddRequiredSites([Site(group, checks.required)]);
      } else {
        EmitOptional(checks.optional);
      }
    }
  }

  /** The arms of a one-line conditional, label by label. */
  method PairArms(yes: seq<string>, no: seq<string>, group: string) returns (sites: seq<Site>)
    requires |yes| == |no|
    ensures sites == Alternatives(yes, no, group)
  {
    var i := 0;
    sites := [];
    assert yes[0..] == yes && no[0..] == no;
    while i < |yes|
      invariant 0 <= i <= |yes|
      invariant sites + Alternatives(yes[i..], no[i..], group) == Alternatives(yes, no, group)
    {
      OnePair(yes, no, i, group);
      hide Alternatives;
      var labels := [yes[i]];
      if no[i] !in labels {
        labels := labels + [no[i]];
      }
      sites := sites + [Site(group, labels)];
      i := i + 1;
    }
  }

  lemma OnePair(yes: seq<string>, no: seq<string>, i: nat, group: string)
    requires i < |yes| == |no|
    ensures Alternatives(yes[i..], no[i..], group)
         == [Site(group, if no[i] in [yes[i]] then [yes[i]] else [yes[i]] + [no[i]])] + Alternatives(yes[i + 1..], no[i + 1..], group)
  {
    TwoLabels(yes[i], no[i]);
    hide Merge;
    assert yes[i..][1..] == yes[i + 1..] && no[i..][1..] == no[i + 1..];
  }

  /** The labels of all branches at one position, in branch order and without repetition. */
  method PairBranches(branches: seq<seq<Site>>) returns (paired: seq<Site>)
    requires branches != [] && SameSizes(branches)
    ensures paired == Pair(branches)
  {
    paired := [];
    for i := 0 to |branches[0]|
      invariant paired == Pair(branches)[..i]
    {
      var labels: seq<string> := [];
      for b := 0 to |branches|
        invariant labels == LabelsAt(branches, i, b)
      {
        var more := branches[b][i].labels;
        ghost var before := labels;
        var k := 0;
        while k < |more|
          invariant 0 <= k <= |more| && Merge(labels, more[k..]) == Merge(before, more)
        {
          assert more[k..][1..] == more[k + 1..];
          if more[k] !in labels {
            labels := labels + [more[k]];
          }
          k := k + 1;
        }
      }
      paired := paired + [Site(branches[0][i].group, labels)];
    }
  }

  /** Scan a whole script. */
  method GatewaySites(lines: seq<Line>) returns (sites: Option<(seq<Site>, seq<Site>)>)
    ensures sites == Sites(lines)
  {
    var scanner := new Scanner();
    var k := 0;
    assert lines[0..] == lines;
    while k < |lines|
      invariant 0 <= k <= |lines| && scanner.Valid() && fresh(scanner) && fresh(scanner.stack)
      invariant Run(INITIAL, lines) == Run(scanner.View(), lines[k..])
    {
      assert lines[k..][1..] == lines[k + 1..];
      var ok := scanner.ReadLine(lines[k]);
      if !ok {
        return None;
      }
      k := k + 1;
    }
    if scanner.stack != [] {
      return None;
    }
    return Some((scanner.required, scanner.optional));
  }

  lemma TwoLabels(a: string, b: string)
    ensures Merge(Merge([], [a]), [b]) == if b in [a] then [a] else [a] + [b]
  {
    assert [a][1..] == [] && [b][1..] == [];
  }

  lemma AddNoOptional(s: Scan)
    ensures AddOptional(s, []) == s
  {
    if s.stack != [] {
      var top := s.stack[|s.stack| - 1];
      assert top.optional + [] == top.optional;
      assert AddOptional(s, []).stack == s.stack;
    }
  }

  lemma AddOptionalTwice(s: Scan, a: seq<Site>, b: seq<Site>)
    ensures AddOptional(AddOptional(s, a), b) == AddOptional(s, a + b)
  {
    if s.stack == [] {
      assert (s.optional + a) + b == s.optional + (a + b);
    } else {
      var top := s.stack[|s.stack| - 1];
      assert (top.optional + a) + b == top.optional + (a + b);
      assert AddOptional(AddOptional(s, a), b).stack == AddOptional(s, a + b).stack;
    }
  }
}
