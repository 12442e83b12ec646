/**
 The live-refresh loop as a state machine: every callback, effect and promise continuation is
 one atomic step over the shared refs, the pending timeouts and the outstanding calls.
 */
module LiveRefreshSpec {
  import opened Wrappers

  const HIDDEN_INTERVAL_MS := 60_000
  const BACKOFF_BASE_MS := 5_000
  const BACKOFF_MAX_MS := 60_000

  /** What a render's closures capture: which fetcher, and the interval. */
  datatype Props = Props(fetcher: nat, intervalMs: nat)

  /** What follows a call: re-arm the timer, perhaps only while a generation is current. */
  datatype Continuation = Always | While(gen: nat)

  /** A call of `runFetch`, with its fetch outstanding or only its continuation. */
  datatype Call =
    | Fetching(seqNo: nat, gen: nat, props: Props, next: Continuation)
    | Returned(props: Props, next: Continuation)

  datatype Timer = Timer(gen: nat, props: Props, delay: nat)

  /** History: the outcomes that were let through, and the generations they began and ended in. */
  datatype Outcome<T> =
    | Applied(seqNo: nat, startedIn: nat, appliedIn: nat, fetcher: nat, data: T)
    | Failed(seqNo: nat)

  /** What the outcomes of fetches decide. */
  datatype Surface<T> = Surface(
    data: Option<T>, error: Option<string>, failures: nat, failuresRef: nat, applied: nat, log: seq<Outcome<T>>)

  datatype State<T> = State(
    shown: Surface<T>,
    loading: bool,
    refreshing: bool,
    // refs
    inFlight: bool,
    sequence: nat,
    mounted: bool,
    timer: Option<nat>,
    hidden: bool,
    generation: nat,
    // the last render
    enabled: bool,
    props: Props,
    // the environment: ids handed out, pending timeouts, outstanding calls
    nextId: nat,
    timers: map<nat, Timer>,
    calls: map<nat, Call>)

  datatype Event<T> =
    | Resolve(id: nat, payload: T)
    | Reject(id: nat, message: string)
    | Proceed(id: nat)
    | Fire(id: nat)
    | Focus
    | Visibility(nowHidden: bool)
    | Refresh(props: Props)
    | Render(props: Props, enabled: bool)
    | Unmount

  function Pow2(n: nat): nat {
    if n == 0 then 1 else 2 * Pow2(n - 1)
  }

  /** The delay after `n` consecutive failures. */
  function Backoff(n: nat): nat
    requires n > 0
  {
    var grown := BACKOFF_BASE_MS * Pow2(n - 1);
    if grown < BACKOFF_MAX_MS then grown else BACKOFF_MAX_MS
  }

  function NextDelay<T>(s: State<T>, props: Props): nat {
    if s.shown.failuresRef > 0 then Backoff(s.shown.failuresRef)
    else if s.hidden then HIDDEN_INTERVAL_MS
    else props.intervalMs
  }

  function ClearTimer<T>(s: State<T>): State<T> {
    s.(timers := if s.timer.None? then s.timers else s.timers - {s.timer.value}, timer := None)
  }

  /** The part of `runFetch` before its `await`; only its continuation is left when it may not run. */
  function StartFetch<T>(s: State<T>, props: Props, next: Continuation): State<T> {
    var runs := s.mounted && !s.inFlight;
    var n := if runs then s.sequence + 1 else s.sequence;
    s.(inFlight := s.inFlight || runs, sequence := n, refreshing := s.refreshing || runs,
       calls := s.calls[s.nextId := if runs then Fetching(n, s.generation, props, next) else Returned(props, next)],
       nextId := s.nextId + 1)
  }

  function Schedule<T>(s: State<T>, props: Props): State<T> {
    var cleared := ClearTimer(s).timers;
    if s.mounted && s.enabled then
      s.(timer := Some(s.nextId), timers := cleared[s.nextId := Timer(s.generation, props, NextDelay(s, props))],
         nextId := s.nextId + 1)
    else s.(timer := None, timers := cleared)
  }

  /** A settled fetch counts only while mounted, in its own generation, and if it is newer. */
  predicate LetThrough<T>(s: State<T>, call: Call)
    requires call.Fetching?
  {
    s.mounted && call.gen == s.generation && call.seqNo > s.shown.applied
  }

  function Finish<T>(s: State<T>, id: nat, call: Call): State<T> {
    s.(inFlight := false,
       refreshing := if s.mounted then false else s.refreshing,
       loading := if s.mounted then false else s.loading,
       calls := s.calls[id := Returned(call.props, call.next)])
  }

  function Resolved<T>(s: State<T>, id: nat, payload: T): State<T>
    requires id in s.calls && s.calls[id].Fetching?
  {
    var call := s.calls[id];
    var outcome := Applied(call.seqNo, call.gen, s.generation, call.props.fetcher, payload);
    var applied := Surface(Some(payload), None, 0, 0, call.seqNo, s.shown.log + [outcome]);
    Finish(s.(shown := if LetThrough(s, call) then applied else s.shown), id, call)
  }

  function Rejected<T>(s: State<T>, id: nat, message: string): State<T>
    requires id in s.calls && s.calls[id].Fetching?
  {
    var call := s.calls[id];
    var x, n := s.shown, s.shown.failuresRef + 1;
    var counted := x.(error := Some(message), failuresRef := n, failures := n, log := x.log + [Failed(call.seqNo)]);
    Finish(s.(shown := if LetThrough(s, call) then counted else x), id, call)
  }

  predicate Rearms(next: Continuation, generation: nat) {
    next.Always? || next.gen == generation
  }

  function Proceeded<T>(s: State<T>, id: nat): State<T>
    requires id in s.calls && s.calls[id].Returned?
  {
    var call := s.calls[id];
    var t := s.(calls := s.calls - {id});
    if Rearms(call.next, s.generation) then Schedule(t, call.props) else t
  }

  function Fired<T>(s: State<T>, id: nat): State<T>
    requires id in s.timers
  {
    var timer := s.timers[id];
    var t := s.(timers := s.timers - {id});
    if timer.gen != s.generation then t else StartFetch(t, timer.props, While(timer.gen))
  }

  /** The effect of a mount or of changed dependencies. */
  function Enter<T>(s: State<T>): State<T> {
    var t := s.(mounted := true, generation := s.generation + 1, inFlight := false);
    if !t.enabled then ClearTimer(t).(loading := false) else StartFetch(t, t.props, While(t.generation))
  }

  /** The effect's cleanup. */
  function Leave<T>(s: State<T>): State<T> {
    ClearTimer(s.(mounted := false))
  }

  predicate Changes<T>(s: State<T>, props: Props, enabled: bool) {
    !s.mounted || props != s.props || enabled != s.enabled
  }

  function Rendered<T>(s: State<T>, props: Props, enabled: bool): State<T> {
    if !Changes(s, props, enabled) then s else Enter(Leave(s.(props := props, enabled := enabled)))
  }

  function Blank<T>(props: Props, enabled: bool, hidden: bool): State<T> {
    State(Surface(None, None, 0, 0, 0, []), true, false, false, 0, true, None, hidden, 0, enabled, props, 0, map[], map[])
  }

  /** The state once the first render's effects have run. */
  function Start<T>(props: Props, enabled: bool, hidden: bool): State<T> {
    Enter(Blank(props, enabled, hidden))
  }

  /** The listeners for focus and visibility are in place only while mounted and enabled. */
  function Step<T>(s: State<T>, e: Event<T>): State<T> {
    match e
    case Resolve(id, payload) => if id in s.calls && s.calls[id].Fetching? then Resolved(s, id, payload) else s
    case Reject(id, message) => if id in s.calls && s.calls[id].Fetching? then Rejected(s, id, message) else s
    case Proceed(id) => if id in s.calls && s.calls[id].Returned? then Proceeded(s, id) else s
    case Fire(id) => if id in s.timers then Fired(s, id) else s
    case Focus => if s.mounted && s.enabled then StartFetch(s.(hidden := false), s.props, Always) else s
    case Visibility(nowHidden) =>
      if !(s.mounted && s.enabled) then s
      else if nowHidden then Schedule(s.(hidden := true), s.props)
      else StartFetch(s.(hidden := false), s.props, Always)
    case Refresh(props) => StartFetch(s, props, Always)
    case Render(props, enabled) => Rendered(s, props, enabled)
    case Unmount => if s.mounted then Leave(s) else s
  }

  function Run<T>(s: State<T>, events: seq<Event<T>>): State<T> {
    if events == [] then s else Step(Run(s, events[..|events| - 1]), events[|events| - 1])
  }
}
