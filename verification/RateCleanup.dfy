/** What the cleanup of rate records changes in the limiter's decisions, and the runs that reach its bounds. */
module RateCleanup {
  import opened RateLimiter

  function WithoutCleanup(events: seq<Event>): seq<Event> {
    if events == [] then []
    else
      var last := events[|events| - 1];
      WithoutCleanup(events[..|events| - 1]) + if last.Submit? then [last] else []
  }

  /** The same submissions, decided alike, with the same record written by each accepted one. */
  ghost predicate SameDecisions(x: seq<Decision>, y: seq<Decision>) {
    |x| == |y| && forall i :: 0 <= i < |x| ==> x[i].(broke := false) == y[i].(broke := false)
  }

  /** No submission met a window whose record had been deleted while the window was open. */
  predicate NoBreak(log: seq<Decision>) {
    forall i :: 0 <= i < |log| ==> !log[i].broke
  }

  /** Stored or deleted, the latest record of each address is the one the plain run has. */
  ghost predicate SameLatest(s: System, p: System) {
    p.lost == map[] && forall a :: Latest(s, a) == Latest(p, a)
  }

  /** As long as nothing broke the runs agree; from the first break on they differ in a written record. */
  ghost predicate Compares(s: System, p: System) {
    && |s.log| == |p.log|
    && (NoBreak(s.log) ==> SameDecisions(s.log, p.log) && SameLatest(s, p))
    && (!NoBreak(s.log) ==> exists i :: 0 <= i < |s.log| && s.log[i].written != p.log[i].written)
  }

  lemma SubmitAlike(s: System, p: System, now: int, a: string, at: int)
    requires Good(s, now) && now <= at && at >= RATE_WINDOW_MS && SameLatest(s, p)
    ensures Meets(s, a, at) ==> Attempt(s.rates, a, at) != Attempt(p.rates, a, at)
    ensures !Meets(s, a, at) ==> Attempt(s.rates, a, at) == Attempt(p.rates, a, at)
    ensures !Meets(s, a, at) ==> SameLatest(Step(s, Submit(a, at)), Step(p, Submit(a, at)))
  {
    assert Latest(s, a) == Latest(p, a);
    AttemptCases(s, a, now, at);
    if !Meets(s, a, at) {
      var s', p' := Step(s, Submit(a, at)), Step(p, Submit(a, at));
      forall b
        ensures Latest(s', b) == Latest(p', b)
      {
        assert Latest(s, b) == Latest(p, b);
      }
    }
  }

  lemma ComparesSubmit(s: System, p: System, now: int, a: string, at: int)
    requires Good(s, now) && now <= at && at >= RATE_WINDOW_MS && Compares(s, p)
    ensures Compares(Step(s, Submit(a, at)), Step(p, Submit(a, at)))
  {
    var s', p' := Step(s, Submit(a, at)), Step(p, Submit(a, at));
    var n := |s.log|;
    assert s'.log[..n] == s.log && p'.log[..n] == p.log;
    assert s'.log[n] == Decision(a, at, Attempt(s.rates, a, at), Meets(s, a, at));
    assert p'.log[n] == Decision(a, at, Attempt(p.rates, a, at), Meets(p, a, at));
    assert forall i :: 0 <= i < n ==> s'.log[i] == s.log[i] && p'.log[i] == p.log[i];
    if NoBreak(s.log) {
      SubmitAlike(s, p, now, a, at);
    } else {
      var i :| 0 <= i < n && s.log[i].written != p.log[i].written;
      assert s'.log[i].written != p'.log[i].written;
      var k :| 0 <= k < n && s.log[k].broke;
      assert s'.log[k].broke;
    }
    hide SameLatest, Attempt, Meets, Good, Step;
    if NoBreak(s.log) && s'.log[n].broke {
      assert s'.log[n].written != p'.log[n].written;
    }
  }

  lemma ComparesCleanup(s: System, p: System, e: Event)
    requires Compares(s, p) && !e.Submit?
    ensures Compares(Step(s, e), p)
  {
    var s' := Step(s, e);
    assert s'.log == s.log && forall a :: Latest(s', a) == Latest(s, a);
  }

  lemma WithoutCleanupAppend(events: seq<Event>, e: Event)
    ensures WithoutCleanup(events + [e]) == WithoutCleanup(events) + if e.Submit? then [e] else []
  {
    assert (events + [e])[..|events + [e]| - 1] == events;
  }

  lemma ComparesMore(before: seq<Event>, last: Event)
    requires Compares(Run(EMPTY, before), Run(EMPTY, WithoutCleanup(before)))
    requires Good(Run(EMPTY, before), LastTime(before)) && LastTime(before) <= last.at && last.at >= RATE_WINDOW_MS
    ensures Compares(Run(EMPTY, before + [last]), Run(EMPTY, WithoutCleanup(before + [last])))
  {
    hide Run, Good, Step, Compares, WithoutCleanup, LastTime;
    var plain := WithoutCleanup(before);
    WithoutCleanupAppend(before, last);
    RunAppend(EMPTY, before, last);
    RunAppend(EMPTY, plain, last);
    if last.Submit? {
      ComparesSubmit(Run(EMPTY, before), Run(EMPTY, plain), LastTime(before), last.address, last.at);
    } else {
      assert plain + [] == plain;
      ComparesCleanup(Run(EMPTY, before), Run(EMPTY, plain), last);
    }
  }

  lemma {:induction false} ComparesAlways(events: seq<Event>)
    requires Timely(events)
    ensures Compares(Run(EMPTY, events), Run(EMPTY, WithoutCleanup(events)))
  {
    hide Compares, Good, Run, WithoutCleanup, Timely, LastTime;
    if events == [] {
      StartsAlike();
    } else {
      var before, last := events[..|events| - 1], events[|events| - 1];
      TimelyFront(events);
      ComparesAlways(before);
      assert before + [last] == events;
      GoodAlways(before);
      ComparesMore(before, last);
    }
  }

  lemma StartsAlike()
    ensures Compares(Run(EMPTY, []), Run(EMPTY, WithoutCleanup([])))
  {
  }

  lemma TimelyFront(events: seq<Event>)
    requires events != [] && Timely(events)
    ensures var before, last := events[..|events| - 1], events[|events| - 1];
            Timely(before) && LastTime(before) <= last.at && last.at >= RATE_WINDOW_MS
  {
  }

  /**
   Cleanups inserted anywhere in a run change no decision, nor any record that a submission
   writes, if and only if no submission meets the open window of a deleted record.
   */
  lemma CleanupInvisibleExactly(events: seq<Event>)
    requires Timely(events)
    ensures SameDecisions(Run(EMPTY, events).log, Run(EMPTY, WithoutCleanup(events)).log) <==> NoBreak(Run(EMPTY, events).log)
  {
    ComparesAlways(events);
    hide Run, SameLatest;
    var x, y := Run(EMPTY, events).log, Run(EMPTY, WithoutCleanup(events)).log;
    if !NoBreak(x) {
      var i :| 0 <= i < |x| && x[i].written != y[i].written;
      assert x[i].(broke := false).written != y[i].(broke := false).written;
    }
  }

  /** Such a record had expired when the query listed it, and was written anew before the batch was committed. */
  lemma MetRecordWasRewritten(events: seq<Event>, a: string, at: int)
    requires Timely(events) && LastTime(events) <= at && Meets(Run(EMPTY, events), a, at)
    ensures var deleted := Run(EMPTY, events).lost[a];
            deleted.queriedAt < deleted.record.expiresAt
  {
    GoodAlways(events);
  }

  // ----- without breaks the limits are the strict ones ------------------------------------------

  lemma {:induction false} NoBreakNoBreaks(log: seq<Decision>, a: string, lo: int, hi: int)
    requires NoBreak(log)
    ensures Breaks(log, a, lo, hi) == 0
  {
    if log != [] {
      NoBreakNoBreaks(log[..|log| - 1], a, lo, hi);
    }
  }

  /** Where cleanup is invisible the limits hold as they stand. */
  lemma StrictLimits(events: seq<Event>, a: string, w: int, lo: int)
    requires Timely(events) && NoBreak(Run(EMPTY, events).log)
    ensures InWindow(Run(EMPTY, events).log, a, w) <= 5
    ensures Between(Run(EMPTY, events).log, a, lo, lo + 3_600_000) <= 9
  {
    LimitPerWindow(events, a, w);
    LimitPerInterval(events, a, lo);
    NoBreakNoBreaks(Run(EMPTY, events).log, a, w, w + 1);
    NoBreakNoBreaks(Run(EMPTY, events).log, a, lo, lo + RATE_WINDOW_MS);
  }

  /** How many commits deleted a record of the address. */
  function Deletions(s: System, events: seq<Event>, a: string): nat {
    if events == [] then 0
    else
      var n := |events| - 1;
      var before := Run(s, events[..n]);
      Deletions(s, events[..n], a) + if events[n].Commit? && a in before.pending && a in before.rates then 1 else 0
  }

  function AllBreaks(log: seq<Decision>, a: string): nat {
    if log == [] then 0
    else AllBreaks(log[..|log| - 1], a) + if log[|log| - 1].address == a && log[|log| - 1].broke then 1 else 0
  }

  lemma BreaksAppend(log: seq<Decision>, d: Decision, a: string)
    ensures AllBreaks(log + [d], a) == AllBreaks(log, a) + if d.address == a && d.broke then 1 else 0
  {
    assert (log + [d])[..|log|] == log;
  }

  ghost predicate BreaksBound(s: System, deletions: nat, a: string) {
    AllBreaks(s.log, a) + (if a !in s.rates && a in s.lost then 1 else 0) <= deletions
  }

  lemma BreaksStep(s: System, e: Event, deletions: nat, a: string)
    requires BreaksBound(s, deletions, a) && (e.Submit? ==> e.at >= RATE_WINDOW_MS)
    ensures BreaksBound(Step(s, e), deletions + if e.Commit? && a in s.pending && a in s.rates then 1 else 0, a)
  {
    if e.Submit? {
      BreaksAppend(s.log, Decision(e.address, e.at, Attempt(s.rates, e.address, e.at), Meets(s, e.address, e.at)), a);
      hide AllBreaks;
    }
  }

  /** Each deletion of an address's record leads to at most one break. */
  lemma {:induction false} BreaksAreDeletions(events: seq<Event>, a: string)
    requires Timely(events)
    ensures BreaksBound(Run(EMPTY, events), Deletions(EMPTY, events, a), a)
  {
    if events != [] {
      var n := |events| - 1;
      BreaksAreDeletions(events[..n], a);
      hide Step, BreaksBound;
      BreaksStep(Run(EMPTY, events[..n]), events[n], Deletions(EMPTY, events[..n], a), a);
    }
  }

  // ----- the bounds are reached ---------------------------------------------------------------------

  function Burst(a: string, at: int, n: nat): seq<Event> {
    if n == 0 then [] else Burst(a, at, n - 1) + [Submit(a, at)]
  }

  lemma {:induction false} RunConcat(s: System, x: seq<Event>, y: seq<Event>)
    ensures Run(s, x + y) == Run(Run(s, x), y)
  {
    if y == [] {
      assert x + y == x;
    } else {
      assert (x + y)[..|x + y| - 1] == x + y[..|y| - 1];
      RunConcat(s, x, y[..|y| - 1]);
    }
  }

  lemma {:induction false} BurstTimes(a: string, at: int, n: nat)
    ensures |Burst(a, at, n)| == n && forall i :: 0 <= i < n ==> Burst(a, at, n)[i] == Submit(a, at)
  {
    if n > 0 {
      BurstTimes(a, at, n - 1);
    }
  }

  /** The state after accepted submissions: the latest record, and how many more were accepted. */
  ghost predicate Accepted(s: System, t: System, a: string, count: nat, started: int, w: int, lo: int, hi: int, n: nat, k: nat) {
    && a in t.rates && t.rates[a].count == count && t.rates[a].windowStartedAt == started
    && Between(t.log, a, lo, hi) == Between(s.log, a, lo, hi) + n
    && InWindow(t.log, a, w) == InWindow(s.log, a, w) + k
    && t.pending == s.pending && t.lost == s.lost
  }

  /** A burst within an open window is accepted while there is room. */
  lemma {:induction false} BurstAccepted(s: System, a: string, at: int, n: nat, w: int, lo: int, hi: int)
    requires a in s.rates && s.rates[a].windowStartedAt <= at < s.rates[a].windowStartedAt + RATE_WINDOW_MS
    requires s.rates[a].count + n <= RATE_LIMIT
    ensures Accepted(s, Run(s, Burst(a, at, n)), a, s.rates[a].count + n, s.rates[a].windowStartedAt, w, lo, hi,
                     if lo <= at < hi then n else 0, if s.rates[a].windowStartedAt == w then n else 0)
  {
    if n > 0 {
      BurstAccepted(s, a, at, n - 1, w, lo, hi);
      var t := Run(s, Burst(a, at, n - 1));
      RunAppend(s, Burst(a, at, n - 1), Submit(a, at));
      CountsAppend(t.log, Decision(a, at, Attempt(t.rates, a, at), Meets(t, a, at)), a, w, lo, hi);
      hide Run, Between, InWindow, Burst;
    }
  }

  /** A submission that finds no open window opens one, and four more fill it. */
  lemma OpensWindow(s: System, a: string, at: int, n: nat, w: int, lo: int, hi: int)
    requires at >= RATE_WINDOW_MS && (a in s.rates ==> s.rates[a].windowStartedAt + RATE_WINDOW_MS <= at)
    requires 1 <= n <= RATE_LIMIT
    ensures Accepted(s, Run(s, [Submit(a, at)] + Burst(a, at, n - 1)), a, n, at, w, lo, hi,
                     if lo <= at < hi then n else 0, if at == w then n else 0)
  {
    RunConcat(s, [Submit(a, at)], Burst(a, at, n - 1));
    RunOne(s, Submit(a, at));
    CountsAppend(s.log, Decision(a, at, Attempt(s.rates, a, at), Meets(s, a, at)), a, w, lo, hi);
    hide Run, Between, InWindow, Burst, Breaks;
    BurstAccepted(Step(s, Submit(a, at)), a, at, n - 1, w, lo, hi);
  }

  lemma RunOne(s: System, e: Event)
    ensures Run(s, [e]) == Step(s, e)
  {
    assert [e][..0] == [];
  }

  function Fill(a: string, at: int, n: nat): seq<Event>
    requires n > 0
  {
    [Submit(a, at)] + Burst(a, at, n - 1)
  }

  lemma FillTimes(a: string, at: int, n: nat)
    requires n > 0
    ensures |Fill(a, at, n)| == n && forall i :: 0 <= i < n ==> Fill(a, at, n)[i] == Submit(a, at)
  {
    BurstTimes(a, at, n - 1);
  }

  const FIRST_MS := RATE_WINDOW_MS
  const LATE_MS := 2 * RATE_WINDOW_MS - 1
  const NEXT_MS := 2 * RATE_WINDOW_MS
  const EXPIRY_MS := 3 * RATE_WINDOW_MS

  /** One acceptance opens a window, four more come at its end, and five right after it. */
  function NineBursts(a: string): seq<Event> {
    Fill(a, FIRST_MS, 1) + Burst(a, LATE_MS, 4) + Fill(a, NEXT_MS, 5)
  }

  lemma NineIsTimely(a: string)
    ensures Timely(NineBursts(a))
  {
    FillTimes(a, FIRST_MS, 1);
    BurstTimes(a, LATE_MS, 4);
    FillTimes(a, NEXT_MS, 5);
    hide Fill, Burst;
  }

  lemma EmptyCounts(a: string, w: int, lo: int, hi: int)
    ensures Between([], a, lo, hi) == 0 && InWindow([], a, w) == 0
  {
  }

  /** Without any cleanup the strict bound is reached. */
  lemma NineInOneInterval(a: string)
    ensures Timely(NineBursts(a))
    ensures Between(Run(EMPTY, NineBursts(a)).log, a, FIRST_MS + 1, FIRST_MS + 1 + RATE_WINDOW_MS) == 2 * RATE_LIMIT - 1
  {
    var lo, hi := FIRST_MS + 1, FIRST_MS + 1 + RATE_WINDOW_MS;
    hide Burst, Run, Between, InWindow, Timely;
    var first, late, next := Fill(a, FIRST_MS, 1), Burst(a, LATE_MS, 4), Fill(a, NEXT_MS, 5);
    NineIsTimely(a);
    OpensWindow(EMPTY, a, FIRST_MS, 1, 0, lo, hi);
    RunConcat(EMPTY, first + late, next);
    RunConcat(EMPTY, first, late);
    EmptyCounts(a, 0, lo, hi);
    var s1 := Run(EMPTY, first);
    BurstAccepted(s1, a, LATE_MS, 4, 0, lo, hi);
    OpensWindow(Run(s1, late), a, NEXT_MS, 5, 0, lo, hi);
  }

  /** A record expires, is listed, is written anew by five submissions and deleted; five more follow. */
  function TenBursts(a: string): seq<Event> {
    Fill(a, FIRST_MS, 1) + [Query(EXPIRY_MS, {a})] + Fill(a, EXPIRY_MS, 5) + [Commit(EXPIRY_MS)] + Fill(a, EXPIRY_MS, 5)
  }

  lemma TenIsTimely(a: string)
    ensures Timely(TenBursts(a))
  {
    FillTimes(a, FIRST_MS, 1);
    FillTimes(a, EXPIRY_MS, 5);
    hide Fill;
  }

  lemma Listed(s: System, a: string, at: int)
    requires a in s.rates && s.rates[a].expiresAt <= at
    ensures Run(s, [Query(at, {a})]) == s.(pending := {a}, queriedAt := at)
  {
    RunOne(s, Query(at, {a}));
  }

  lemma Deleted(s: System, a: string, at: int)
    requires s.pending == {a}
    ensures var t := Run(s, [Commit(at)]); a !in t.rates && t.log == s.log
  {
    RunOne(s, Commit(at));
  }

  lemma FirstExpiry(a: string)
    ensures var s := Run(EMPTY, Fill(a, FIRST_MS, 1)); a in s.rates && s.rates[a].expiresAt == EXPIRY_MS
  {
    RunOne(EMPTY, Submit(a, FIRST_MS));
    assert Fill(a, FIRST_MS, 1) == [Submit(a, FIRST_MS)];
  }

  /** With a deletion between, ten submissions are accepted in one interval, all in one stored window. */
  lemma TenInOneInterval(a: string)
    ensures Timely(TenBursts(a))
    ensures var log := Run(EMPTY, TenBursts(a)).log;
            Between(log, a, EXPIRY_MS, EXPIRY_MS + RATE_WINDOW_MS) == InWindow(log, a, EXPIRY_MS) == 2 * RATE_LIMIT
  {
    var lo, hi := EXPIRY_MS, EXPIRY_MS + RATE_WINDOW_MS;
    hide Fill, Run, Between, InWindow, Timely;
    var first, query, fill, commit := Fill(a, FIRST_MS, 1), [Query(EXPIRY_MS, {a})], Fill(a, EXPIRY_MS, 5), [Commit(EXPIRY_MS)];
    TenIsTimely(a);
    RunConcat(EMPTY, first + query + fill + commit, fill);
    RunConcat(EMPTY, first + query + fill, commit);
    RunConcat(EMPTY, first + query, fill);
    RunConcat(EMPTY, first, query);
    EmptyCounts(a, lo, lo, hi);
    FirstWindow(a, lo, lo, hi);
    FilledAgain(Run(EMPTY, first), a, EXPIRY_MS, lo, hi);
  }

  lemma FirstWindow(a: string, w: int, lo: int, hi: int)
    requires lo > FIRST_MS && w > FIRST_MS
    ensures Accepted(EMPTY, Run(EMPTY, Fill(a, FIRST_MS, 1)), a, 1, FIRST_MS, w, lo, hi, 0, 0)
    ensures var s := Run(EMPTY, Fill(a, FIRST_MS, 1)); s.rates[a].expiresAt == EXPIRY_MS
  {
    OpensWindow(EMPTY, a, FIRST_MS, 1, w, lo, hi);
    FirstExpiry(a);
  }

  /** Listed while expired, filled, deleted, filled again. */
  lemma FilledAgain(s: System, a: string, at: int, lo: int, hi: int)
    requires a in s.rates && s.rates[a].expiresAt <= at && s.rates[a].windowStartedAt + RATE_WINDOW_MS <= at
    requires at >= RATE_WINDOW_MS && lo <= at < hi
    ensures var fill := Fill(a, at, RATE_LIMIT);
            var log := Run(Run(Run(Run(s, [Query(at, {a})]), fill), [Commit(at)]), fill).log;
            && Between(log, a, lo, hi) == Between(s.log, a, lo, hi) + 2 * RATE_LIMIT
            && InWindow(log, a, at) == InWindow(s.log, a, at) + 2 * RATE_LIMIT
  {
    hide Run, Between, InWindow, Burst;
    var fill := Fill(a, at, RATE_LIMIT);
    Listed(s, a, at);
    var s2 := Run(s, [Query(at, {a})]);
    OpensWindow(s2, a, at, RATE_LIMIT, at, lo, hi);
    var s3 := Run(s2, fill);
    Deleted(s3, a, at);
    OpensWindow(Run(s3, [Commit(at)]), a, at, RATE_LIMIT, at, lo, hi);
  }
}
