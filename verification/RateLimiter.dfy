/**
 The waitlist's fixed-window rate limiter: the transaction on one address's record, and what
 runs of submissions keep while a cleanup queries expired records and deletes them later.
 */
module RateLimiter {
  import opened Wrappers

  const RATE_LIMIT := 5
  const RATE_WINDOW_MS := 60 * 60 * 1_000
  const RATE_RECORD_MS := 2 * 60 * 60 * 1_000
  const WAITLIST_RETENTION_MS := 365 * 24 * 60 * 60 * 1_000

  datatype Record = Record(count: nat, windowStartedAt: int, expiresAt: int)

  type Rates = map<string, Record>

  datatype Entry<S> = Entry(submission: S, createdAt: int, expiresAt: int)

  /** The record an accepted submission writes, or nothing if it is over the limit. */
  function Attempt(rates: Rates, address: string, now: int): Option<Record> {
    var started := if address in rates then rates[address].windowStartedAt else 0;
    var within := now - started < RATE_WINDOW_MS;
    var count := if within && address in rates then rates[address].count else 0;
    if count >= RATE_LIMIT then None
    else Some(Record(count + 1, if within then started else now, now + RATE_RECORD_MS))
  }

  function Write(rates: Rates, address: string, written: Option<Record>): Rates {
    if written.None? then rates else rates[address := written.value]
  }

  /** The two collections the transaction reads and writes. */
  class Database<S> {
    var rates: Rates
    var waitlist: map<string, Entry<S>>

    constructor ()
      ensures rates == map[] && waitlist == map[]
    {
      rates, waitlist := map[], map[];
    }

    /** One submission. A rejected one changes nothing; an entry once stored is never replaced. */
    method Join(address: string, id: string, submission: S, now: int) returns (accepted: bool)
      modifies this
      ensures accepted <==> Attempt(old(rates), address, now).Some?
      ensures rates == Write(old(rates), address, Attempt(old(rates), address, now))
      ensures waitlist == if accepted && id !in old(waitlist)
                          then old(waitlist)[id := Entry(submission, now, now + WAITLIST_RETENTION_MS)]
                          else old(waitlist)
      ensures !accepted ==> rates == old(rates)
    {
      var started := if address in rates then rates[address].windowStartedAt else 0;
      var within := now - started < RATE_WINDOW_MS;
      var count := if within && address in rates then rates[address].count else 0;
      if count >= RATE_LIMIT {
        return false;
      }
      rates := rates[address := Record(count + 1, if within then started else now, now + RATE_RECORD_MS)];
      if id !in waitlist {
        waitlist := waitlist[id := Entry(submission, now, now + WAITLIST_RETENTION_MS)];
      }
      accepted := true;
    }
  }

  // ----- runs ---------------------------------------------------------------------------------

  /**
   A submission; the cleanup's query, which remembers some of the records expired then; or the
   commit of its batch, which deletes the remembered records as they are by then.
   */
  datatype Event = Submit(address: string, at: int) | Query(at: int, found: set<string>) | Commit(at: int)

  /** What was decided about a submission, and whether it met a window whose record had been deleted. */
  datatype Decision = Decision(address: string, at: int, written: Option<Record>, broke: bool)

  /** A deleted record, with the time of the query that listed it. */
  datatype Lost = Lost(record: Record, queriedAt: int)

  datatype System = System(rates: Rates, queriedAt: int, pending: set<string>, lost: map<string, Lost>, log: seq<Decision>)

  const EMPTY := System(map[], 0, {}, map[], [])

  predicate Expired(rates: Rates, found: set<string>, at: int) {
    forall a :: a in found ==> a in rates && rates[a].expiresAt <= at
  }

  /** The submission finds no record, but the one deleted since was for a window still open. */
  predicate Meets(s: System, a: string, at: int) {
    a !in s.rates && a in s.lost && at - s.lost[a].record.windowStartedAt < RATE_WINDOW_MS
  }

  function Step(s: System, e: Event): System {
    match e
    case Submit(a, at) =>
      var written := Attempt(s.rates, a, at);
      s.(rates := Write(s.rates, a, written), log := s.log + [Decision(a, at, written, Meets(s, a, at))])
    case Query(at, found) => if Expired(s.rates, found, at) then s.(pending := found, queriedAt := at) else s
    case Commit(_) =>
      s.(rates := s.rates - s.pending, pending := {},
         lost := map a | a in s.lost.Keys + (s.pending * s.rates.Keys) ::
                   if a in s.pending && a in s.rates then Lost(s.rates[a], s.queriedAt) else s.lost[a])
  }

  function Run(s: System, events: seq<Event>): System {
    if events == [] then s else Step(Run(s, events[..|events| - 1]), events[|events| - 1])
  }

  /** Times never decrease, and the clock shows at least one window. */
  predicate Timely(events: seq<Event>) {
    && (forall i :: 0 <= i < |events| ==> events[i].at >= RATE_WINDOW_MS)
    && (forall i, j :: 0 <= i < j < |events| ==> events[i].at <= events[j].at)
  }

  function LastTime(events: seq<Event>): int {
    if events == [] then RATE_WINDOW_MS else events[|events| - 1].at
  }

  lemma RunAppend(s: System, x: seq<Event>, e: Event)
    ensures Run(s, x + [e]) == Step(Run(s, x), e)
  {
    assert (x + [e])[..|x + [e]| - 1] == x;
  }

  // ----- records ----------------------------------------------------------------------------------

  /** The record of the address's latest window, stored or deleted. */
  function Latest(s: System, a: string): Option<Record> {
    if a in s.rates then Some(s.rates[a]) else if a in s.lost then Some(s.lost[a].record) else None
  }

  predicate RecordOk(r: Record, now: int) {
    1 <= r.count <= RATE_LIMIT && r.windowStartedAt <= now && r.windowStartedAt + RATE_RECORD_MS <= r.expiresAt
  }

  ghost predicate Good(s: System, now: int) {
    && (forall a :: a in s.rates ==> RecordOk(s.rates[a], now))
    && (forall a :: a in s.lost ==> RecordOk(s.lost[a].record, now) && s.lost[a].queriedAt <= now)
    && s.queriedAt <= now
  }

  /** What a submission does: go on in its open window while there is room, or open a window. */
  lemma AttemptCases(s: System, a: string, now: int, at: int)
    requires Good(s, now) && now <= at && at >= RATE_WINDOW_MS
    ensures var w := Attempt(s.rates, a, at);
            if a in s.rates && at < s.rates[a].windowStartedAt + 3_600_000 then
              if s.rates[a].count >= 5 then w == None
              else w == Some(Record(s.rates[a].count + 1, s.rates[a].windowStartedAt, at + 7_200_000))
            else w == Some(Record(1, at, at + 7_200_000))
    ensures Attempt(s.rates, a, at).Some? && Attempt(s.rates, a, at).value.windowStartedAt != at ==>
              a in s.rates && Attempt(s.rates, a, at).value.windowStartedAt == s.rates[a].windowStartedAt
  {
  }

  lemma GoodStep(s: System, now: int, e: Event)
    requires Good(s, now) && now <= e.at && e.at >= RATE_WINDOW_MS
    ensures Good(Step(s, e), e.at)
  {
    if e.Submit? {
      AttemptCases(s, e.address, now, e.at);
    }
  }

  lemma {:induction false} GoodAlways(events: seq<Event>)
    requires Timely(events)
    ensures Good(Run(EMPTY, events), LastTime(events))
  {
    if events != [] {
      var before := events[..|events| - 1];
      GoodAlways(before);
      hide Good, Step;
      GoodStep(Run(EMPTY, before), LastTime(before), events[|events| - 1]);
    }
  }

  // ----- acceptances per window and per interval -------------------------------------------------

  predicate In(d: Decision, a: string) {
    d.address == a && d.written.Some?
  }

  function Window(d: Decision): int
    requires d.written.Some?
  {
    d.written.value.windowStartedAt
  }

  /** The number of acceptances for an address that wrote the window that began at `w`. */
  function InWindow(log: seq<Decision>, a: string, w: int): nat {
    if log == [] then 0
    else
      var d := log[|log| - 1];
      InWindow(log[..|log| - 1], a, w) + if In(d, a) && Window(d) == w then 1 else 0
  }

  /** Acceptances of an address at times from `lo` up to, but not at, `hi`. */
  function Between(log: seq<Decision>, a: string, lo: int, hi: int): nat {
    if log == [] then 0
    else
      var d := log[|log| - 1];
      Between(log[..|log| - 1], a, lo, hi) + if In(d, a) && lo <= d.at < hi then 1 else 0
  }

  /** How many of them opened a window because the record of an open one had been deleted. */
  function Breaks(log: seq<Decision>, a: string, lo: int, hi: int): nat {
    if log == [] then 0
    else
      var d := log[|log| - 1];
      Breaks(log[..|log| - 1], a, lo, hi) + if In(d, a) && d.broke && lo <= d.at < hi then 1 else 0
  }

  lemma CountsAppend(log: seq<Decision>, d: Decision, a: string, w: int, lo: int, hi: int)
    ensures InWindow(log + [d], a, w) == InWindow(log, a, w) + if In(d, a) && Window(d) == w then 1 else 0
    ensures Between(log + [d], a, lo, hi) == Between(log, a, lo, hi) + if In(d, a) && lo <= d.at < hi then 1 else 0
    ensures Breaks(log + [d], a, lo, hi) == Breaks(log, a, lo, hi) + if In(d, a) && d.broke && lo <= d.at < hi then 1 else 0
  {
    assert (log + [d])[..|log|] == log;
  }

  /** How the counts for one stored window stand to the address's latest record. */
  ghost predicate WindowBound(s: System, a: string, w: int) {
    var n, b := InWindow(s.log, a, w), Breaks(s.log, a, w, w + 1);
    var r := Latest(s, a);
    && n <= RATE_LIMIT * (1 + b)
    && (r.None? || r.value.windowStartedAt < w ==> n == 0)
    && (r.Some? && r.value.windowStartedAt == w ==> n <= RATE_LIMIT * b + r.value.count)
  }

  lemma WindowBoundSubmit(s: System, now: int, a: string, at: int, w: int)
    requires Good(s, now) && now <= at && at >= RATE_WINDOW_MS && WindowBound(s, a, w)
    ensures WindowBound(Step(s, Submit(a, at)), a, w)
  {
    AttemptCases(s, a, now, at);
    var d := Decision(a, at, Attempt(s.rates, a, at), Meets(s, a, at));
    CountsAppend(s.log, d, a, w, w, w + 1);
    hide InWindow, Breaks, Attempt;
  }

  lemma WindowBoundStep(s: System, now: int, e: Event, a: string, w: int)
    requires Good(s, now) && now <= e.at && e.at >= RATE_WINDOW_MS && WindowBound(s, a, w)
    ensures WindowBound(Step(s, e), a, w)
  {
    if e == Submit(a, e.at) {
      WindowBoundSubmit(s, now, a, e.at, w);
    } else {
      hide Step, Latest, InWindow, Breaks;
      OthersKeep(s, e, a, w, w, w + 1);
    }
  }

  lemma {:induction false} WindowBoundAlways(events: seq<Event>, a: string, w: int)
    requires Timely(events)
    ensures WindowBound(Run(EMPTY, events), a, w)
  {
    if events != [] {
      var before := events[..|events| - 1];
      GoodAlways(before);
      WindowBoundAlways(before, a, w);
      hide Good, Step, WindowBound;
      WindowBoundStep(Run(EMPTY, before), LastTime(before), events[|events| - 1], a, w);
    }
  }

  /**
   Over every run at most `RATE_LIMIT` submissions of an address are accepted per stored window,
   and once more that many for each submission that met a deleted record at the window's start.
   */
  lemma LimitPerWindow(events: seq<Event>, a: string, w: int)
    requires Timely(events)
    ensures var log := Run(EMPTY, events).log;
            InWindow(log, a, w) <= RATE_LIMIT * (1 + Breaks(log, a, w, w + 1))
  {
    WindowBoundAlways(events, a, w);
  }

  /** How the counts for an interval of one window length stand to the latest record while it lasts. */
  ghost predicate IntervalBound(s: System, a: string, lo: int, now: int) {
    var hi := lo + RATE_WINDOW_MS;
    var n, b := Between(s.log, a, lo, hi), Breaks(s.log, a, lo, hi);
    var r := Latest(s, a);
    && n <= RATE_LIMIT * (2 + b) - 1
    && (now < lo ==> n == 0)
    && (now < hi ==>
         && (r.None? ==> n == 0)
         && (r.Some? && r.value.windowStartedAt < lo ==> n <= r.value.count - 1)
         && (r.Some? && r.value.windowStartedAt >= lo ==> n <= RATE_LIMIT * (1 + b) - 1 + r.value.count))
  }

  lemma IntervalBoundSubmit(s: System, now: int, a: string, at: int, lo: int)
    requires Good(s, now) && now <= at && at >= RATE_WINDOW_MS && IntervalBound(s, a, lo, now)
    ensures IntervalBound(Step(s, Submit(a, at)), a, lo, at)
  {
    AttemptCases(s, a, now, at);
    var d := Decision(a, at, Attempt(s.rates, a, at), Meets(s, a, at));
    CountsAppend(s.log, d, a, lo, lo, lo + RATE_WINDOW_MS);
    hide Between, Breaks, Attempt;
  }

  /** Other events leave the address's latest record and its part of the log as they are. */
  lemma OthersKeep(s: System, e: Event, a: string, w: int, lo: int, hi: int)
    requires e != Submit(a, e.at)
    ensures Latest(Step(s, e), a) == Latest(s, a)
    ensures InWindow(Step(s, e).log, a, w) == InWindow(s.log, a, w)
    ensures Between(Step(s, e).log, a, lo, hi) == Between(s.log, a, lo, hi)
    ensures Breaks(Step(s, e).log, a, lo, hi) == Breaks(s.log, a, lo, hi)
  {
    if e.Submit? {
      CountsAppend(s.log, Decision(e.address, e.at, Attempt(s.rates, e.address, e.at), Meets(s, e.address, e.at)), a, w, lo, hi);
      hide InWindow, Between, Breaks, Attempt;
    }
  }

  lemma IntervalBoundStep(s: System, now: int, e: Event, a: string, lo: int)
    requires Good(s, now) && now <= e.at && e.at >= RATE_WINDOW_MS && IntervalBound(s, a, lo, now)
    ensures IntervalBound(Step(s, e), a, lo, e.at)
  {
    if e == Submit(a, e.at) {
      IntervalBoundSubmit(s, now, a, e.at, lo);
    } else {
      hide Step, Latest, Between, Breaks;
      OthersKeep(s, e, a, lo, lo, lo + RATE_WINDOW_MS);
    }
  }

  lemma {:induction false} IntervalBoundAlways(events: seq<Event>, a: string, lo: int)
    requires Timely(events)
    ensures IntervalBound(Run(EMPTY, events), a, lo, LastTime(events))
  {
    if events != [] {
      var before := events[..|events| - 1];
      GoodAlways(before);
      IntervalBoundAlways(before, a, lo);
      hide Good, Step, IntervalBound;
      IntervalBoundStep(Run(EMPTY, before), LastTime(before), events[|events| - 1], a, lo);
    }
  }

  /**
   Over every run any half-open interval one window long holds at most `2 * RATE_LIMIT - 1`
   acceptances of an address, and `RATE_LIMIT` more for each submission in it that met a deleted
   record. An interval that reaches into a second window misses the acceptance that opened the
   first.
   */
  lemma LimitPerInterval(events: seq<Event>, a: string, lo: int)
    requires Timely(events)
    ensures var log := Run(EMPTY, events).log;
            Between(log, a, lo, lo + RATE_WINDOW_MS) <= (2 + Breaks(log, a, lo, lo + RATE_WINDOW_MS)) * RATE_LIMIT - 1
  {
    IntervalBoundAlways(events, a, lo);
  }
}
