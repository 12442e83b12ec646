/**
 The scheduled deletion of expired documents: a bounded number of bounded batches, each a query
 and a later commit. Others may write the collection before either of them.
 */
module ExpiryCleanup {
  import opened RateLimiter

  const BATCHES := 8
  const BATCH_SIZE := 250

  /** What others do to the documents before a batch's query, and before its commit. */
  type Others<!D> = (nat, map<string, D>) -> map<string, D>

  function ExpiredBy<D(!new)>(docs: map<string, D>, expiresAt: D -> int, at: int): set<string> {
    set id | id in docs && expiresAt(docs[id]) <= at
  }

  /** Some expired documents, all of them if they fit into a batch. */
  ghost predicate Lists<D(!new)>(docs: map<string, D>, expiresAt: D -> int, at: int, found: set<string>) {
    var expired := ExpiredBy(docs, expiresAt, at);
    found <= expired && |found| == if |expired| < BATCH_SIZE then |expired| else BATCH_SIZE
  }

  function Total(listed: seq<set<string>>): nat {
    if listed == [] then 0 else Total(listed[..|listed| - 1]) + |listed[|listed| - 1]|
  }

  /** The documents once each batch has deleted what its query listed, as it was by then. */
  function AfterBatches<D>(docs: map<string, D>, listed: seq<set<string>>, before: Others<D>, between: Others<D>): map<string, D> {
    if listed == [] then docs
    else
      var n := |listed| - 1;
      between(n, before(n, AfterBatches(docs, listed[..n], before, between))) - listed[n]
  }

  /** Each batch listed documents that had expired by its time. */
  ghost predicate Listings<D(!new)>(docs: map<string, D>, expiresAt: D -> int, clock: seq<int>, listed: seq<set<string>>,
                                    before: Others<D>, between: Others<D>)
  {
    |listed| <= |clock|
    && forall i :: 0 <= i < |listed| ==>
         Lists(before(i, AfterBatches(docs, listed[..i], before, between)), expiresAt, clock[i], listed[i])
  }

  /** All batches but the last are full, and there are fewer than allowed only if the last is not. */
  predicate StopsWhenShort(listed: seq<set<string>>) {
    && |listed| <= BATCHES
    && (forall i :: 0 <= i < |listed| - 1 ==> |listed[i]| == BATCH_SIZE)
    && (|listed| < BATCHES ==> listed != [] && |listed[|listed| - 1]| < BATCH_SIZE)
  }

  lemma MoreListings<D(!new)>(docs: map<string, D>, expiresAt: D -> int, clock: seq<int>, listed: seq<set<string>>, found: set<string>,
                              before: Others<D>, between: Others<D>)
    requires Listings(docs, expiresAt, clock, listed, before, between) && |listed| < |clock|
    requires Lists(before(|listed|, AfterBatches(docs, listed, before, between)), expiresAt, clock[|listed|], found)
    ensures Listings(docs, expiresAt, clock, listed + [found], before, between)
    ensures AfterBatches(docs, listed + [found], before, between)
            == between(|listed|, before(|listed|, AfterBatches(docs, listed, before, between))) - found
    ensures Total(listed + [found]) == Total(listed) + |found|
  {
    var more, n := listed + [found], |listed|;
    assert more[..n] == listed;
    hide Lists, Total, AfterBatches;
    forall i | 0 <= i < |more|
      ensures Lists(before(i, AfterBatches(docs, more[..i], before, between)), expiresAt, clock[i], more[i])
    {
      if i < n {
        assert more[..i] == listed[..i] && more[i] == listed[i];
      }
    }
  }

  /** A collection whose documents carry the time they expire. */
  class Collection<D(!new)> {
    var docs: map<string, D>
    const expiresAt: D -> int

    constructor (expiresAt: D -> int)
      ensures docs == map[] && this.expiresAt == expiresAt
    {
      this.docs, this.expiresAt := map[], expiresAt;
    }

    method Query(at: int) returns (found: set<string>)
      ensures Lists(docs, expiresAt, at, found)
    {
      var expired := ExpiredBy(docs, expiresAt, at);
      found := {};
      while expired != {} && |found| < BATCH_SIZE
        invariant found <= ExpiredBy(docs, expiresAt, at) && expired == ExpiredBy(docs, expiresAt, at) - found
        invariant |found| <= BATCH_SIZE && |expired| + |found| == |ExpiredBy(docs, expiresAt, at)|
        decreases expired
      {
        var id :| id in expired;
        expired, found := expired - {id}, found + {id};
      }
    }

    /**
     Delete what has expired; `clock` gives the time read before each batch. Each batch deletes
     exactly what its query listed; the number listed is returned.
     */
    method DeleteExpired(clock: seq<int>, before: Others<D>, between: Others<D>) returns (deleted: nat, ghost listed: seq<set<string>>)
      requires |clock| == BATCHES
      modifies this`docs
      ensures Listings(old(docs), expiresAt, clock, listed, before, between) && StopsWhenShort(listed)
      ensures deleted == Total(listed)
      ensures docs == AfterBatches(old(docs), listed, before, between)
    {
      deleted, listed := 0, [];
      var batch := 0;
      hide Lists, Listings, AfterBatches;
      assert Listings(docs, expiresAt, clock, listed, before, between) by {
        NoListings(docs, expiresAt, clock, before, between);
      }
      NoBatches(docs, before, between);
      while batch < BATCHES
        invariant 0 <= batch <= BATCHES && |listed| == batch
        invariant forall i :: 0 <= i < batch ==> |listed[i]| == BATCH_SIZE
        invariant Listings(old(docs), expiresAt, clock, listed, before, between)
        invariant deleted == Total(listed) && docs == AfterBatches(old(docs), listed, before, between)
      {
        docs := before(batch, docs);
        var found := Query(clock[batch]);
        ListsAtMost(docs, expiresAt, clock[batch], found);
        MoreListings(old(docs), expiresAt, clock, listed, found, before, between);
        docs := between(batch, docs);
        docs := docs - found;
        deleted := deleted + |found|;
        listed := listed + [found];
        if |found| < BATCH_SIZE {
          break;
        }
        batch := batch + 1;
      }
    }
  }

  lemma ListsAtMost<D(!new)>(docs: map<string, D>, expiresAt: D -> int, at: int, found: set<string>)
    requires Lists(docs, expiresAt, at, found)
    ensures |found| <= BATCH_SIZE
  {
  }

  lemma NoListings<D(!new)>(docs: map<string, D>, expiresAt: D -> int, clock: seq<int>, before: Others<D>, between: Others<D>)
    ensures Listings(docs, expiresAt, clock, [], before, between)
  {
  }

  lemma NoBatches<D>(docs: map<string, D>, before: Others<D>, between: Others<D>)
    ensures AfterBatches(docs, [], before, between) == docs
  {
  }

  // ----- run alone -----------------------------------------------------------------------------

  /** Nobody else writes. */
  ghost predicate Alone<D(!new)>(others: Others<D>) {
    forall i, docs :: others(i, docs) == docs
  }

  /** Only documents expired by the time are gone, and the others are as they were. */
  ghost predicate OnlyExpiredGone<D(!new)>(docs: map<string, D>, after: map<string, D>, expiresAt: D -> int, at: int) {
    && after.Keys <= docs.Keys && (forall id :: id in after ==> after[id] == docs[id])
    && (forall id :: id in docs && id !in after ==> expiresAt(docs[id]) <= at)
  }

  lemma AloneStep<D(!new)>(docs: map<string, D>, mid: map<string, D>, expiresAt: D -> int, at: int, now: int, found: set<string>)
    requires OnlyExpiredGone(docs, mid, expiresAt, at) && Lists(mid, expiresAt, now, found) && now <= at
    ensures OnlyExpiredGone(docs, mid - found, expiresAt, at) && |mid - found| == |mid| - |found|
  {
    RemoveCount(mid, found);
  }

  lemma LastListing<D(!new)>(docs: map<string, D>, expiresAt: D -> int, clock: seq<int>, listed: seq<set<string>>,
                             before: Others<D>, between: Others<D>)
    requires Listings(docs, expiresAt, clock, listed, before, between) && listed != []
    ensures var n := |listed| - 1;
            && Listings(docs, expiresAt, clock, listed[..n], before, between)
            && Lists(before(n, AfterBatches(docs, listed[..n], before, between)), expiresAt, clock[n], listed[n])
  {
    var n := |listed| - 1;
    hide Lists, AfterBatches;
    forall i | 0 <= i < n
      ensures Lists(before(i, AfterBatches(docs, listed[..n][..i], before, between)), expiresAt, clock[i], listed[..n][i])
    {
      assert listed[..n][..i] == listed[..i];
    }
  }

  lemma {:induction false} AloneAfter<D(!new)>(docs: map<string, D>, expiresAt: D -> int, clock: seq<int>, listed: seq<set<string>>,
                                               before: Others<D>, between: Others<D>, at: int)
    requires Listings(docs, expiresAt, clock, listed, before, between) && Alone(before) && Alone(between)
    requires forall i :: 0 <= i < |listed| ==> clock[i] <= at
    ensures OnlyExpiredGone(docs, AfterBatches(docs, listed, before, between), expiresAt, at)
    ensures Total(listed) == |docs| - |AfterBatches(docs, listed, before, between)|
  {
    hide OnlyExpiredGone, Lists;
    if listed != [] {
      var n := |listed| - 1;
      LastListing(docs, expiresAt, clock, listed, before, between);
      hide Listings;
      AloneAfter(docs, expiresAt, clock, listed[..n], before, between, at);
      var mid := AfterBatches(docs, listed[..n], before, between);
      assert AfterBatches(docs, listed, before, between) == mid - listed[n];
      hide AfterBatches, Alone;
      AloneStep(docs, mid, expiresAt, at, clock[n], listed[n]);
    } else {
      assert OnlyExpiredGone(docs, docs, expiresAt, at) by {
        NothingGone(docs, expiresAt, at);
      }
    }
  }

  lemma NothingGone<D(!new)>(docs: map<string, D>, expiresAt: D -> int, at: int)
    ensures OnlyExpiredGone(docs, docs, expiresAt, at)
  {
  }

  lemma RemoveCount<D>(docs: map<string, D>, found: set<string>)
    requires found <= docs.Keys
    ensures |docs - found| == |docs| - |found|
  {
    assert (docs - found).Keys == docs.Keys - found;
  }

  lemma {:induction false} FullTotal(listed: seq<set<string>>)
    requires forall i :: 0 <= i < |listed| ==> |listed[i]| == BATCH_SIZE
    ensures Total(listed) == |listed| * BATCH_SIZE
  {
    if listed != [] {
      FullTotal(listed[..|listed| - 1]);
    }
  }

  /**
   Run alone, the loop removes only expired documents and returns how many; a document that had
   expired at the start is left only if all batches were full.
   */
  lemma AloneMeans<D(!new)>(docs: map<string, D>, expiresAt: D -> int, clock: seq<int>, listed: seq<set<string>>,
                            before: Others<D>, between: Others<D>)
    requires |clock| == BATCHES && forall i, j :: 0 <= i < j < |clock| ==> clock[i] <= clock[j]
    requires Listings(docs, expiresAt, clock, listed, before, between) && StopsWhenShort(listed)
    requires Alone(before) && Alone(between)
    ensures var after := AfterBatches(docs, listed, before, between);
            && OnlyExpiredGone(docs, after, expiresAt, clock[BATCHES - 1])
            && Total(listed) == |docs| - |after|
            && (forall id :: id in after && expiresAt(after[id]) <= clock[0] ==> Total(listed) == BATCHES * BATCH_SIZE)
  {
    AloneAfter(docs, expiresAt, clock, listed, before, between, clock[BATCHES - 1]);
    var after := AfterBatches(docs, listed, before, between);
    var n := |listed| - 1;
    if |listed[n]| == BATCH_SIZE {
      FullTotal(listed);
    } else {
      var mid := AfterBatches(docs, listed[..n], before, between);
      assert Lists(mid, expiresAt, clock[n], listed[n]);
      assert after == mid - listed[n];
      NoneLeft(mid, expiresAt, clock[n], listed[n]);
    }
  }

  /** A short batch lists everything that has expired. */
  lemma NoneLeft<D(!new)>(docs: map<string, D>, expiresAt: D -> int, at: int, found: set<string>)
    requires Lists(docs, expiresAt, at, found) && |found| < BATCH_SIZE
    ensures forall id :: id in docs - found ==> at < expiresAt(docs[id])
  {
    var expired := ExpiredBy(docs, expiresAt, at);
    assert |expired - found| == |expired| - |found|;
    forall id | id in docs - found
      ensures at < expiresAt(docs[id])
    {
      assert id !in expired - found;
      assert id in expired <==> expiresAt(docs[id]) <= at;
    }
  }

  // ----- on the rate records -------------------------------------------------------------------

  /** One batch on the rate records, with submissions in between, is a query and a commit of the limiter's runs. */
  lemma {:induction false} BatchIsQueryAndCommit(s: System, at: int, found: set<string>, submits: seq<Event>, later: int)
    requires Lists(s.rates, (r: Record) => r.expiresAt, at, found)
    requires forall i :: 0 <= i < |submits| ==> submits[i].Submit?
    ensures var mid := Run(Step(s, Query(at, found)), submits);
            && mid.pending == found && mid.rates == Run(s, submits).rates
            && Step(mid, Commit(later)).rates == Run(s, submits).rates - found
  {
    assert Expired(s.rates, found, at);
    SubmitsKeepPending(s, s.(pending := found, queriedAt := at), submits);
  }

  lemma {:induction false} SubmitsKeepPending(s: System, t: System, submits: seq<Event>)
    requires s.rates == t.rates && forall i :: 0 <= i < |submits| ==> submits[i].Submit?
    ensures Run(s, submits).rates == Run(t, submits).rates && Run(t, submits).pending == t.pending
  {
    if submits != [] {
      SubmitsKeepPending(s, t, submits[..|submits| - 1]);
    }
  }
}
