/**
 Whose results a generation shows. The guard on a generation does not keep an earlier render's
 fetcher out: the continuations of focus, visibility and manual refresh re-arm the timer
 unconditionally, with the fetcher they captured. Exactly these calls matter.
 */
module LiveRefreshFreshness {
  import opened Wrappers
  import opened LiveRefreshSpec
  import opened LiveRefreshRuns

  // ----- numbering --------------------------------------------------------------------------

  ghost predicate CallOk<T>(s: State<T>, call: Call) {
    && (call.next.While? ==> call.next.gen <= s.generation)
    && (call.Fetching? ==> call.gen <= s.generation && (call.next.While? ==> call.next.gen == call.gen))
  }

  ghost predicate Numbers<T>(s: State<T>) {
    && s.shown.applied <= s.sequence
    && (s.inFlight ==> exists id :: id in s.calls && s.calls[id].Fetching?)
    && (forall id :: id in s.calls ==> id < s.nextId && CallOk(s, s.calls[id]))
    && (forall id :: id in s.calls && s.calls[id].Fetching? ==> s.calls[id].seqNo <= s.sequence)
  }

  lemma NumbersAfterStart<T>(s: State<T>, props: Props, next: Continuation)
    requires Numbers(s) && (next.While? ==> next.gen == s.generation)
    ensures Numbers(StartFetch(s, props, next))
  {
    var r := StartFetch(s, props, next);
    assert r.calls.Keys == s.calls.Keys + {s.nextId};
    if s.inFlight {
      var id :| id in s.calls && s.calls[id].Fetching?;
      assert r.calls[id].Fetching?;
    } else if s.mounted {
      assert r.calls[s.nextId].Fetching?;
    }
  }

  /** Steps that change neither calls nor numbers, save for later ids. */
  lemma NumbersFrame<T>(s: State<T>, r: State<T>)
    requires Numbers(s) && r.calls == s.calls && r.nextId >= s.nextId && r.generation >= s.generation
    requires r.shown.applied == s.shown.applied && r.sequence == s.sequence && (r.inFlight ==> s.inFlight)
    ensures Numbers(r)
  {
    if r.inFlight {
      var id :| id in s.calls && s.calls[id].Fetching?;
      assert r.calls[id].Fetching?;
    }
  }

  lemma NumbersAfterSettle<T>(s: State<T>, r: State<T>, id: nat)
    requires Numbers(s) && SettlesOnly(s, r, id) && r.shown.applied <= r.sequence
    ensures Numbers(r)
  {
  }

  lemma NumbersAfterProceed<T>(s: State<T>, id: nat)
    requires Numbers(s) && id in s.calls && s.calls[id].Returned?
    ensures Numbers(Proceeded(s, id))
  {
    hide Schedule;
    var t := s.(calls := s.calls - {id});
    if s.inFlight {
      var i :| i in s.calls && s.calls[i].Fetching?;
      assert i in t.calls && t.calls[i].Fetching?;
    }
    assert Numbers(t);
    NumbersAfterSchedule(t, s.calls[id].props);
  }

  lemma ScheduleNumbers<T>(s: State<T>, props: Props)
    ensures var r := Schedule(s, props);
            r.calls == s.calls && r.nextId >= s.nextId && r.generation == s.generation && r.shown.applied == s.shown.applied
            && r.sequence == s.sequence && r.inFlight == s.inFlight
  {
    Scheduled(s, props);
    hide Schedule;
  }

  lemma NumbersAfterSchedule<T>(s: State<T>, props: Props)
    requires Numbers(s)
    ensures Numbers(Schedule(s, props))
  {
    ScheduleNumbers(s, props);
    hide Numbers, Schedule;
    NumbersFrame(s, Schedule(s, props));
  }

  lemma NumbersAfterFire<T>(s: State<T>, id: nat)
    requires Numbers(s) && id in s.timers
    ensures Numbers(Fired(s, id))
  {
    hide Numbers, StartFetch;
    var t := s.(timers := s.timers - {id});
    NumbersFrame(s, t);
    if s.timers[id].gen == s.generation {
      NumbersAfterStart(t, s.timers[id].props, While(s.timers[id].gen));
    }
  }

  lemma NumbersAfterVisibility<T>(s: State<T>, nowHidden: bool)
    requires Numbers(s)
    ensures Numbers(StartFetch(s.(hidden := nowHidden), s.props, Always))
    ensures Numbers(Schedule(s.(hidden := nowHidden), s.props))
  {
    hide Numbers, StartFetch, Schedule;
    var t := s.(hidden := nowHidden);
    NumbersFrame(s, t);
    NumbersAfterStart(t, s.props, Always);
    NumbersAfterSchedule(t, s.props);
  }

  lemma NumbersAfterEnter<T>(s: State<T>)
    requires Numbers(s)
    ensures Numbers(Enter(s))
  {
    hide Numbers, StartFetch;
    var t := s.(mounted := true, generation := s.generation + 1, inFlight := false);
    NumbersFrame(s, t);
    NumbersAfterStart(t, t.props, While(t.generation));
    NumbersFrame(t, ClearTimer(t).(loading := false));
  }

  lemma NumbersAfterRender<T>(s: State<T>, props: Props, enabled: bool)
    requires Numbers(s)
    ensures Numbers(Rendered(s, props, enabled))
  {
    hide Numbers, Enter;
    var t := Leave(s.(props := props, enabled := enabled));
    NumbersFrame(s, t);
    NumbersAfterEnter(t);
  }

  lemma NumbersAfterResolve<T>(s: State<T>, id: nat, payload: T)
    requires Numbers(s) && id in s.calls && s.calls[id].Fetching?
    ensures Numbers(Resolved(s, id, payload))
  {
    ResolveFrame(s, id, payload);
    assert Resolved(s, id, payload).shown.applied <= s.sequence;
    hide Resolved;
    NumbersAfterSettle(s, Resolved(s, id, payload), id);
  }

  lemma NumbersAfterReject<T>(s: State<T>, id: nat, message: string)
    requires Numbers(s) && id in s.calls && s.calls[id].Fetching?
    ensures Numbers(Rejected(s, id, message))
  {
    RejectFrame(s, id, message);
    assert Rejected(s, id, message).shown.applied <= s.sequence;
    hide Rejected;
    NumbersAfterSettle(s, Rejected(s, id, message), id);
  }

  lemma NumbersStep<T>(s: State<T>, e: Event<T>)
    requires Numbers(s)
    ensures Numbers(Step(s, e))
  {
    hide Numbers, StartFetch, Schedule, Resolved, Rejected, Proceeded, Fired, Rendered, Leave;
    match e
    case Resolve(id, payload) =>
      if id in s.calls && s.calls[id].Fetching? {
        NumbersAfterResolve(s, id, payload);
      }
    case Reject(id, message) =>
      if id in s.calls && s.calls[id].Fetching? {
        NumbersAfterReject(s, id, message);
      }
    case Proceed(id) =>
      if id in s.calls && s.calls[id].Returned? {
        NumbersAfterProceed(s, id);
      }
    case Fire(id) =>
      if id in s.timers {
        NumbersAfterFire(s, id);
      }
    case Focus => NumbersAfterVisibility(s, false);
    case Visibility(nowHidden) => NumbersAfterVisibility(s, nowHidden);
    case Refresh(props) => NumbersAfterStart(s, props, Always);
    case Render(props, enabled) => NumbersAfterRender(s, props, enabled);
    case Unmount =>
      LeaveFrame(s);
      NumbersFrame(s, Leave(s));
  }

  lemma LeaveFrame<T>(s: State<T>)
    ensures var r := Leave(s);
            r.calls == s.calls && r.nextId == s.nextId && r.generation == s.generation && r.shown.applied == s.shown.applied
            && r.sequence == s.sequence && r.inFlight == s.inFlight
  {
  }

  lemma {:induction false} NumbersAlways<T>(props: Props, enabled: bool, hidden: bool, events: seq<Event<T>>)
    ensures Numbers(Run(Start(props, enabled, hidden), events))
  {
    if events == [] {
      NumbersAfterEnter(Blank<T>(props, enabled, hidden));
    } else {
      NumbersAlways(props, enabled, hidden, events[..|events| - 1]);
      hide Numbers, Step;
      NumbersStep(Run(Start(props, enabled, hidden), events[..|events| - 1]), events[|events| - 1]);
    }
  }

  // ----- who can still bring another fetcher's result -----------------------------------------

  /** The call can still apply its result in this generation, or re-arm the timer. */
  predicate Live(call: Call, generation: nat) {
    (call.Fetching? && call.gen == generation) || Rearms(call.next, generation)
  }

  /** Nothing pending carries a fetcher other than `f`. */
  ghost predicate OnlyFetcher<T>(s: State<T>, f: nat) {
    && (forall id :: id in s.timers ==> s.timers[id].props.fetcher == f)
    && (forall id :: id in s.calls && Live(s.calls[id], s.generation) ==> s.calls[id].props.fetcher == f)
    && s.props.fetcher == f
  }

  /** No re-render, and a manual refresh goes through the current render's closure. */
  predicate Ordinary<T(==)>(s: State<T>, e: Event<T>) {
    !e.Render? && (e.Refresh? ==> e.props == s.props)
  }

  /** Results applied after the first `n` outcomes all come from `f`. */
  ghost predicate AllFrom<T>(log: seq<Outcome<T>>, n: nat, f: nat) {
    forall i :: n <= i < |log| && log[i].Applied? ==> log[i].fetcher == f
  }

  lemma OnlyAfterStart<T>(s: State<T>, props: Props, next: Continuation)
    requires OnlyFetcher(s, props.fetcher)
    ensures OnlyFetcher(StartFetch(s, props, next), props.fetcher)
  {
  }

  lemma OnlyAfterSchedule<T>(s: State<T>, props: Props)
    requires OnlyFetcher(s, props.fetcher)
    ensures OnlyFetcher(Schedule(s, props), props.fetcher)
  {
    Cleared(s);
    Scheduled(s, props);
    hide Schedule, ClearTimer, NextDelay, Live;
  }

  lemma OnlyAfterSettle<T>(s: State<T>, r: State<T>, id: nat, f: nat)
    requires OnlyFetcher(s, f) && SettlesOnly(s, r, id)
    ensures OnlyFetcher(r, f)
  {
  }

  lemma OnlyAfterProceed<T>(s: State<T>, id: nat, f: nat)
    requires OnlyFetcher(s, f) && id in s.calls && s.calls[id].Returned?
    ensures OnlyFetcher(Proceeded(s, id), f)
  {
    hide Schedule;
    var t := s.(calls := s.calls - {id});
    assert OnlyFetcher(t, f);
    if Rearms(s.calls[id].next, s.generation) {
      assert Live(s.calls[id], s.generation);
      OnlyAfterSchedule(t, s.calls[id].props);
    }
  }

  lemma OnlyAfterFire<T>(s: State<T>, id: nat, f: nat)
    requires OnlyFetcher(s, f) && id in s.timers
    ensures OnlyFetcher(Fired(s, id), f)
  {
    hide StartFetch;
    var t := s.(timers := s.timers - {id});
    assert OnlyFetcher(t, f);
    OnlyAfterStart(t, s.timers[id].props, While(s.timers[id].gen));
  }

  lemma OnlyAfterVisibility<T>(s: State<T>, nowHidden: bool, f: nat)
    requires OnlyFetcher(s, f)
    ensures OnlyFetcher(StartFetch(s.(hidden := nowHidden), s.props, Always), f)
    ensures OnlyFetcher(Schedule(s.(hidden := nowHidden), s.props), f)
  {
    hide StartFetch, Schedule;
    var t := s.(hidden := nowHidden);
    assert OnlyFetcher(t, f);
    OnlyAfterStart(t, s.props, Always);
    OnlyAfterSchedule(t, s.props);
  }

  lemma OnlyAfterLeave<T>(s: State<T>, f: nat)
    requires OnlyFetcher(s, f)
    ensures OnlyFetcher(Leave(s), f)
  {
  }

  lemma OnlyStep<T>(s: State<T>, e: Event<T>, f: nat)
    requires OnlyFetcher(s, f) && Ordinary(s, e)
    ensures OnlyFetcher(Step(s, e), f)
  {
    hide OnlyFetcher, StartFetch, Schedule, Resolved, Rejected, Proceeded, Fired, Leave;
    OnlyProps(s, f);
    match e
    case Resolve(id, payload) =>
      if id in s.calls && s.calls[id].Fetching? {
        ResolveFrame(s, id, payload);
        OnlyAfterSettle(s, Resolved(s, id, payload), id, f);
      }
    case Reject(id, message) =>
      if id in s.calls && s.calls[id].Fetching? {
        RejectFrame(s, id, message);
        OnlyAfterSettle(s, Rejected(s, id, message), id, f);
      }
    case Proceed(id) =>
      if id in s.calls && s.calls[id].Returned? {
        OnlyAfterProceed(s, id, f);
      }
    case Fire(id) =>
      if id in s.timers {
        OnlyAfterFire(s, id, f);
      }
    case Focus => OnlyAfterVisibility(s, false, f);
    case Visibility(nowHidden) => OnlyAfterVisibility(s, nowHidden, f);
    case Refresh(props) => OnlyAfterStart(s, props, Always);
    case Unmount => OnlyAfterLeave(s, f);
  }

  lemma OnlyProps<T>(s: State<T>, f: nat)
    requires OnlyFetcher(s, f)
    ensures s.props.fetcher == f
  {
  }

  /** What one step adds to the history comes from the only fetcher there is. */
  lemma AppliedFrom<T>(s: State<T>, e: Event<T>, n: nat, f: nat)
    requires OnlyFetcher(s, f) && !e.Render? && AllFrom(s.shown.log, n, f)
    ensures AllFrom(Step(s, e).shown.log, n, f)
  {
    if e.Resolve? {
      if e.id in s.calls && s.calls[e.id].Fetching? {
        var c := s.calls[e.id];
        assert LetThrough(s, c) ==> Live(c, s.generation);
      }
    } else if !e.Reject? {
      OthersKeepShown(s, e);
      hide Step;
      assert Step(s, e).shown.log == s.shown.log;
    }
  }

  ghost predicate AllOrdinary<T>(s: State<T>, events: seq<Event<T>>) {
    forall i :: 0 <= i < |events| ==> Ordinary(Run(s, events[..i]), events[i])
  }

  lemma {:induction false} OnlyAlong<T>(s: State<T>, events: seq<Event<T>>, f: nat)
    requires OnlyFetcher(s, f) && AllOrdinary(s, events)
    ensures OnlyFetcher(Run(s, events), f) && AllFrom(Run(s, events).shown.log, |s.shown.log|, f)
  {
    if events != [] {
      var before, last := events[..|events| - 1], events[|events| - 1];
      forall i | 0 <= i < |before|
        ensures Ordinary(Run(s, before[..i]), before[i])
      {
        assert before[..i] == events[..i];
      }
      OnlyAlong(s, before, f);
      hide Step, OnlyFetcher, AllFrom;
      OnlyStep(Run(s, before), last, f);
      AppliedFrom(Run(s, before), last, |s.shown.log|, f);
    }
  }

  // ----- a foreign continuation does bring one --------------------------------------------------

  /** From this state on, ordinary steps can apply a result of a fetcher other than the render's. */
  ghost predicate CanShowForeign<T(!new)>(s: State<T>) {
    exists events: seq<Event<T>> ::
      AllOrdinary(s, events) && !AllFrom(Run(s, events).shown.log, |s.shown.log|, s.props.fetcher)
  }

  /** An ordinary first step towards such an application. */
  lemma ForeignAfter<T(!new)>(s: State<T>, e: Event<T>)
    requires Ordinary(s, e) && CanShowForeign(Step(s, e))
    requires Step(s, e).props == s.props && s.shown.log <= Step(s, e).shown.log
    ensures CanShowForeign(s)
  {
    hide Step, Ordinary, AllFrom;
    var r := Step(s, e);
    var events: seq<Event<T>> :|
      AllOrdinary(r, events) && !AllFrom(Run(r, events).shown.log, |r.shown.log|, r.props.fetcher);
    OrdinaryFrom(s, e, events);
    RunFrom(s, e, events);
    LaterForeign(Run(r, events).shown.log, |s.shown.log|, |r.shown.log|, s.props.fetcher);
  }

  lemma LaterForeign<T>(log: seq<Outcome<T>>, m: nat, n: nat, f: nat)
    requires m <= n
    ensures AllFrom(log, m, f) ==> AllFrom(log, n, f)
  {
  }

  lemma OrdinaryFrom<T>(s: State<T>, e: Event<T>, events: seq<Event<T>>)
    requires Ordinary(s, e) && AllOrdinary(Step(s, e), events)
    ensures AllOrdinary(s, [e] + events)
  {
    hide Step, Ordinary;
    var all := [e] + events;
    forall i | 0 <= i < |all|
      ensures Ordinary(Run(s, all[..i]), all[i])
    {
      if i == 0 {
        assert all[..0] == [];
      } else {
        RunFrom(s, e, events[..i - 1]);
        assert all[..i] == [e] + events[..i - 1];
        assert Ordinary(Run(Step(s, e), events[..i - 1]), events[i - 1]);
      }
    }
  }

  lemma {:induction false} RunFrom<T>(s: State<T>, e: Event<T>, events: seq<Event<T>>)
    ensures Run(s, [e] + events) == Run(Step(s, e), events)
  {
    hide Step;
    if events == [] {
      assert [e] + events == [e] && [e][..0] == [];
      assert Run(s, []) == s;
    } else {
      var n := |events| - 1;
      RunFrom(s, e, events[..n]);
      assert ([e] + events)[..n + 1] == [e] + events[..n];
    }
  }

  /** A let-through result of another fetcher is such an application. */
  lemma ResolveForeign<T(!new)>(s: State<T>, id: nat, payload: T)
    requires id in s.calls && s.calls[id].Fetching? && LetThrough(s, s.calls[id])
    requires s.calls[id].props.fetcher != s.props.fetcher
    ensures CanShowForeign(s)
  {
    var e: Event<T> := Resolve(id, payload);
    var r := Step(s, e);
    ResolveShows(s, id, payload);
    assert r.shown.log == s.shown.log + [Applied(s.calls[id].seqNo, s.calls[id].gen, s.generation,
                                                     s.calls[id].props.fetcher, payload)];
    assert r.shown.log[|s.shown.log|].Applied? && r.shown.log[|s.shown.log|].fetcher != s.props.fetcher;
    hide Step;
    assert [e][..0] == [] && Run(s, []) == s && Run(s, [e]) == Step(s, e);
    assert AllOrdinary(s, [e]) && !AllFrom(Run(s, [e]).shown.log, |s.shown.log|, s.props.fetcher);
  }

  /** A pending timeout of another fetcher, with nothing in flight, fires and delivers. */
  lemma FireForeign<T(!new)>(s: State<T>, id: nat, payload: T)
    requires Numbers(s) && s.mounted && !s.inFlight && id in s.timers && s.timers[id].gen == s.generation
    requires s.timers[id].props.fetcher != s.props.fetcher
    ensures CanShowForeign(s)
  {
    var r := Fired(s, id);
    assert r.calls[s.nextId] == Fetching(s.sequence + 1, s.generation, s.timers[id].props, While(s.generation));
    assert r.shown == s.shown && r.generation == s.generation && r.props == s.props && r.mounted;
    assert Step(s, Event<T>.Fire(id)) == r;
    hide Fired, Step, CanShowForeign;
    ResolveForeign(r, s.nextId, payload);
    ForeignAfter(s, Event<T>.Fire(id));
  }

  lemma ReleaseThenFire<T(!new)>(s: State<T>, id: nat, payload: T)
    requires Numbers(s) && s.mounted && id in s.timers && s.timers[id].gen == s.generation
    requires s.timers[id].props.fetcher != s.props.fetcher
    ensures CanShowForeign(s)
  {
    if s.inFlight {
      var f: nat :| f in s.calls && s.calls[f].Fetching?;
      ResolveGrows(s, f, payload);
      ResolveFrame(s, f, payload);
      NumbersAfterResolve(s, f, payload);
      var r := Resolved(s, f, payload);
      assert Step(s, Resolve(f, payload)) == r;
      hide Resolved, Step, CanShowForeign, Numbers;
      FireForeign(r, id, payload);
      ForeignAfter(s, Resolve(f, payload));
    } else {
      FireForeign(s, id, payload);
    }
  }

  lemma ResolveGrows<T(!new)>(s: State<T>, id: nat, payload: T)
    requires id in s.calls && s.calls[id].Fetching?
    ensures s.shown.log <= Resolved(s, id, payload).shown.log
  {
  }

  /** A returned call that re-arms with another fetcher's closure does deliver that fetcher's result. */
  lemma ProceedForeign<T(!new)>(s: State<T>, id: nat, payload: T)
    requires Numbers(s) && s.mounted && s.enabled && id in s.calls && s.calls[id].Returned?
    requires Rearms(s.calls[id].next, s.generation) && s.calls[id].props.fetcher != s.props.fetcher
    ensures CanShowForeign(s)
  {
    NumbersAfterProceed(s, id);
    var r := Proceeded(s, id);
    assert Step(s, Event<T>.Proceed(id)) == r;
    assert r.mounted && r.generation == s.generation && r.props == s.props && r.shown.log == s.shown.log;
    assert r.timer.Some? && r.timer.value in r.timers;
    assert r.timers[r.timer.value].gen == s.generation && r.timers[r.timer.value].props == s.calls[id].props;
    hide Proceeded, Step, CanShowForeign, Numbers;
    ReleaseThenFire(r, r.timer.value, payload);
    ForeignAfter(s, Event<T>.Proceed(id));
  }

  lemma CallForeign<T(!new)>(s: State<T>, id: nat, payload: T)
    requires Numbers(s) && s.mounted && s.enabled && id in s.calls
    requires Live(s.calls[id], s.generation) && s.calls[id].props.fetcher != s.props.fetcher
    ensures CanShowForeign(s)
  {
    if s.calls[id].Fetching? {
      ResolveGrows(s, id, payload);
      ResolveFrame(s, id, payload);
      NumbersAfterResolve(s, id, payload);
      assert CallOk(s, s.calls[id]) && Rearms(s.calls[id].next, s.generation);
      var r := Resolved(s, id, payload);
      assert Step(s, Resolve(id, payload)) == r;
      hide Resolved, Step, CanShowForeign, Numbers;
      ProceedForeign(r, id, payload);
      ForeignAfter(s, Resolve(id, payload));
    } else {
      ProceedForeign(s, id, payload);
    }
  }

  // ----- the exact condition ------------------------------------------------------------------------

  /** Focus, visibility or manual-refresh calls of another fetcher are outstanding. */
  ghost predicate ForeignUnguarded<T(!new)>(s: State<T>, f: nat) {
    exists id :: id in s.calls && s.calls[id].next.Always? && s.calls[id].props.fetcher != f
  }

  lemma EnterShape<T>(s: State<T>)
    requires s.enabled
    ensures var r := Enter(s);
            && r.mounted && r.enabled && r.props == s.props && r.timers == s.timers && r.generation == s.generation + 1
            && r.calls == s.calls[s.nextId := Fetching(s.sequence + 1, r.generation, s.props, While(r.generation))]
  {
  }

  lemma EnteredState<T>(s: State<T>, props: Props)
    requires Changes(s, props, true) && forall id :: id in s.timers ==> s.timer == Some(id)
    ensures var r := Rendered(s, props, true);
            && r.mounted && r.enabled && r.props == props && r.timers == map[] && r.generation == s.generation + 1
            && r.calls == s.calls[s.nextId := Fetching(s.sequence + 1, r.generation, props, While(r.generation))]
  {
    hide Enter;
    var t := s.(props := props, enabled := true, mounted := false);
    TimersAfterClear(t);
    EnterShape(ClearTimer(t));
  }

  /**
   After an enabled re-render, ordinary steps can show a result that is not from the render's
   fetcher if and only if an unguarded call of another fetcher was outstanding.
   */
  lemma ForeignResultExactly<T(!new)>(s: State<T>, props: Props, payload: T)
    requires Timers(s) && Numbers(s) && Changes(s, props, true)
    ensures CanShowForeign(Rendered(s, props, true)) <==> ForeignUnguarded(s, props.fetcher)
  {
    var r := Rendered(s, props, true);
    EnteredState(s, props);
    NumbersAfterRender(s, props, true);
    hide Rendered, Timers, CanShowForeign;
    if ForeignUnguarded(s, props.fetcher) {
      var id :| id in s.calls && s.calls[id].next.Always? && s.calls[id].props.fetcher != props.fetcher;
      assert id < s.nextId;
      assert r.calls[id] == s.calls[id];
      CallForeign(r, id, payload);
    } else {
      NothingForeign(s, r, props);
      NeverForeign(r, props.fetcher);
    }
  }

  lemma NothingForeign<T(!new)>(s: State<T>, r: State<T>, props: Props)
    requires Numbers(s) && !ForeignUnguarded(s, props.fetcher)
    requires r.props == props && r.timers == map[] && r.generation == s.generation + 1
    requires r.calls == s.calls[s.nextId := Fetching(s.sequence + 1, r.generation, props, While(r.generation))]
    ensures OnlyFetcher(r, props.fetcher)
  {
    forall id | id in r.calls && Live(r.calls[id], r.generation)
      ensures r.calls[id].props.fetcher == props.fetcher
    {
      if id != s.nextId {
        assert CallOk(s, s.calls[id]);
      }
    }
  }

  lemma NeverForeign<T(!new)>(s: State<T>, f: nat)
    requires OnlyFetcher(s, f)
    ensures !CanShowForeign(s)
  {
    forall events: seq<Event<T>> | AllOrdinary(s, events)
      ensures AllFrom(Run(s, events).shown.log, |s.shown.log|, s.props.fetcher)
    {
      OnlyAlong(s, events, f);
    }
  }

  /** One focus event before a changed fetcher is enough. */
  lemma FocusThenChange<T(!new)>(before: Props, props: Props, payload: T)
    requires before.fetcher != props.fetcher
    ensures CanShowForeign(Run(Start<T>(before, true, false), [Focus, Render(props, true)]))
  {
    hide Start, Run, Step, Rendered, CanShowForeign, Timers, Numbers;
    var s := FocusFirst<T>(before, props);
    TimersAlways(before, true, false, [Event<T>.Focus]);
    NumbersAlways(before, true, false, [Event<T>.Focus]);
    ForeignResultExactly(s, props, payload);
  }

  /** The focus event leaves a call of the first fetcher that re-arms unconditionally. */
  lemma FocusFirst<T(!new)>(before: Props, props: Props) returns (s: State<T>)
    ensures s == Run(Start<T>(before, true, false), [Focus])
    ensures Run(Start<T>(before, true, false), [Focus, Render(props, true)]) == Rendered(s, props, true)
    ensures s.mounted && s.props == before && exists id :: id in s.calls && s.calls[id] == Returned(before, Always)
  {
    hide Rendered;
    var none: seq<Event<T>> := [];
    var s0 := Start<T>(before, true, false);
    s := StartFetch(s0.(hidden := false), s0.props, Always);
    var es: seq<Event<T>> := [Focus, Render(props, true)];
    assert es[..1] == [Event<T>.Focus] && [Event<T>.Focus][..0] == none && Run(s0, none) == s0;
    assert Run(s0, [Event<T>.Focus]) == s;
    assert Run(s0, es) == Step(s, Render(props, true));
    assert s0.nextId in s.calls && s.calls[s0.nextId] == Returned(before, Always);
  }
}
