/**
 The hit counter of `guestCaching.middleware.ts`.  A request counts itself, and every
 batch-th one publishes the counter to a shared score after an await; other requests may
 come in between, so what it publishes is what the counter holds by then.
 */
module GuestCaching {
  import opened Arithmetic
  import opened Sequences

  type Minute = string

  type Query = string

  /** The counters of one minute: an object that suspended requests keep a reference to. */
  datatype MinuteCounters = MinuteCounters(minute: Minute, counts: map<Query, nat>)

  /** A request that has filled a batch and waits to publish it. */
  datatype Publisher = Publisher(minute: Minute, query: Query, counters: nat)

  datatype State = State(
    current: map<Minute, nat>,             // cacheHitsCounter: minute to object
    objects: seq<MinuteCounters>,
    waiting: seq<Publisher>,
    scores: map<(Minute, Query), nat>,     // the shared sorted sets
    hits: map<(Minute, Query), nat>        // how many requests there were, for the statements below
  )

  datatype Event =
    | Arrives(minute: Minute, query: Query)
    | Publishes(publisher: nat)
    | Fails(publisher: nat)                // the await throws and the request ends
    | Forgets(minute: Minute)              // a later request deletes the minute's entry

  const INITIAL: State := State(map[], [], [], map[], map[])

  function Get<K>(m: map<K, nat>, k: K): nat {
    if k in m then m[k] else 0
  }

  predicate Enabled(s: State, e: Event) {
    match e
    case Arrives(_, _) => true
    case Publishes(i) => i < |s.waiting|
    case Fails(i) => i < |s.waiting|
    case Forgets(_) => true
  }

  predicate WellFormed(s: State) {
    && (forall m :: m in s.current ==> s.current[m] < |s.objects| && s.objects[s.current[m]].minute == m)
    && (forall i :: 0 <= i < |s.waiting| ==>
          && s.waiting[i].counters < |s.objects|
          && s.objects[s.waiting[i].counters].minute == s.waiting[i].minute)
  }

  /** The next value of a counter: up to the batch size, then from one again. */
  function NextCount(batch: nat, c: nat): nat {
    if c < batch then c + 1 else 1
  }

  /** The state with an object of counters for the minute. */
  function WithMinute(s: State, m: Minute): State {
    if m in s.current then s
    else s.(current := s.current[m := |s.objects|], objects := s.objects + [MinuteCounters(m, map[])])
  }

  function Arrived(batch: nat, s: State, m: Minute, q: Query): State
    requires WellFormed(s)
  {
    Counted(batch, WithMinute(s, m), m, q)
  }

  function Counted(batch: nat, s: State, m: Minute, q: Query): State
    requires WellFormed(s) && m in s.current
  {
    var o := s.current[m];
    var count := NextCount(batch, Get(s.objects[o].counts, q));
    s.(objects := s.objects[o := MinuteCounters(m, s.objects[o].counts[q := count])],
       waiting := if count >= batch then s.waiting + [Publisher(m, q, o)] else s.waiting,
       hits := s.hits[(m, q) := Get(s.hits, (m, q)) + 1])
  }

  function Published(s: State, i: nat): State
    requires WellFormed(s) && i < |s.waiting|
  {
    var p := s.waiting[i];
    var k := (p.minute, p.query);
    s.(scores := s.scores[k := Get(s.scores, k) + Get(s.objects[p.counters].counts, p.query)],
       waiting := Without(s.waiting, i))
  }

  function Step(batch: nat, s: State, e: Event): State
    requires WellFormed(s) && Enabled(s, e)
  {
    match e
    case Arrives(m, q) => Arrived(batch, s, m, q)
    case Publishes(i) => Published(s, i)
    case Fails(i) => s.(waiting := Without(s.waiting, i))
    case Forgets(m) => s.(current := s.current - {m})
  }

  // ----- the class ---------------------------------------------------------------------

  class GuestCachingMiddleware {
    const batchSize: nat
    var cacheHitsCounter: map<Minute, nat>
    var objects: seq<MinuteCounters>
    var waiting: seq<Publisher>
    var scores: map<(Minute, Query), nat>
    ghost var hits: map<(Minute, Query), nat>

    ghost function Now(): State
      reads this
    {
      State(cacheHitsCounter, objects, waiting, scores, hits)
    }

    constructor (batchSize: nat)
      ensures Now() == INITIAL && this.batchSize == batchSize
    {
      this.batchSize := batchSize;
      cacheHitsCounter, objects, waiting, scores, hits := map[], [], [], map[], map[];
    }

    /** A request up to its first await. */
    method Use(currentMinute: Minute, gqlQueryMd5: Query)
      requires WellFormed(Now())
      modifies this
      ensures Now() == Step(batchSize, old(Now()), Arrives(currentMinute, gqlQueryMd5))
    {
      if currentMinute !in cacheHitsCounter {
        cacheHitsCounter := cacheHitsCounter[currentMinute := |objects|];
        objects := objects + [MinuteCounters(currentMinute, map[])];
      }
      var o := cacheHitsCounter[currentMinute];
      var counts := objects[o].counts;
      if Get(counts, gqlQueryMd5) < batchSize {
        counts := counts[gqlQueryMd5 := Get(counts, gqlQueryMd5) + 1];
      } else {
        counts := counts[gqlQueryMd5 := 1];
      }
      objects := objects[o := MinuteCounters(currentMinute, counts)];
      if counts[gqlQueryMd5] >= batchSize {
        waiting := waiting + [Publisher(currentMinute, gqlQueryMd5, o)];
      }
      hits := hits[(currentMinute, gqlQueryMd5) := Get(hits, (currentMinute, gqlQueryMd5)) + 1];
    }

    /** A request after that await: it publishes the counter as it is now. */
    method Publish(publisher: nat)
      requires WellFormed(Now()) && publisher < |waiting|
      modifies this
      ensures Now() == Step(batchSize, old(Now()), Publishes(publisher))
    {
      var p := waiting[publisher];
      var k := (p.minute, p.query);
      scores := scores[k := Get(scores, k) + Get(objects[p.counters].counts, p.query)];
      waiting := Without(waiting, publisher);
    }

    /** The await before publishing throws: the request ends without publishing. */
    method Fail(publisher: nat)
      requires WellFormed(Now()) && publisher < |waiting|
      modifies this
      ensures Now() == Step(batchSize, old(Now()), Fails(publisher))
    {
      waiting := Without(waiting, publisher);
    }

    /** The end of a request: the counters of the minute before its own are deleted. */
    method Finish(previousMinute: Minute)
      requires WellFormed(Now())
      modifies this
      ensures Now() == Step(batchSize, old(Now()), Forgets(previousMinute))
    {
      if previousMinute in cacheHitsCounter {
        cacheHitsCounter := cacheHitsCounter - {previousMinute};
      } else {
        assert cacheHitsCounter - {previousMinute} == cacheHitsCounter;
      }
    }
  }

  // ----- safety in every interleaving --------------------------------------------------

  ghost predicate IsRun(batch: nat, trace: seq<State>, events: seq<Event>) {
    && |trace| == |events| + 1
    && trace[0] == INITIAL
    && forall i :: 0 <= i < |events| ==> StepsTo(batch, trace[i], events[i], trace[i + 1])
  }

  ghost predicate StepsTo(batch: nat, s: State, e: Event, t: State) {
    WellFormed(s) && Enabled(s, e) && t == Step(batch, s, e)
  }

  /** How many publishers wait for a query of a minute. */
  function WaitingFor(waiting: seq<Publisher>, m: Minute, q: Query): nat {
    if waiting == [] then 0
    else
      var p := waiting[|waiting| - 1];
      WaitingFor(waiting[..|waiting| - 1], m, q) + if p.minute == m && p.query == q then 1 else 0
  }

  lemma {:induction false} WaitingSplits(a: seq<Publisher>, b: seq<Publisher>, m: Minute, q: Query)
    ensures WaitingFor(a + b, m, q) == WaitingFor(a, m, q) + WaitingFor(b, m, q)
  {
    if b == [] {
      assert a + b == a;
    } else {
      var n := |b| - 1;
      assert (a + b)[..|a + b| - 1] == a + b[..n];
      WaitingSplits(a, b[..n], m, q);
    }
  }

  lemma OneFewerWaits(waiting: seq<Publisher>, i: nat, m: Minute, q: Query)
    requires i < |waiting|
    ensures WaitingFor(waiting, m, q) == WaitingFor(Without(waiting, i), m, q)
                                         + if waiting[i].minute == m && waiting[i].query == q then 1 else 0
  {
    assert waiting == (waiting[..i] + [waiting[i]]) + waiting[i + 1..];
    WaitingSplits(waiting[..i] + [waiting[i]], waiting[i + 1..], m, q);
    WaitingSplits(waiting[..i], waiting[i + 1..], m, q);
    assert (waiting[..i] + [waiting[i]])[..i] == waiting[..i];
  }

  /** The current counter of a query in a minute. */
  function Counter(s: State, m: Minute, q: Query): nat
    requires WellFormed(s)
  {
    if m in s.current then Get(s.objects[s.current[m]].counts, q) else 0
  }

  /** What the current counter holds beyond full batches. */
  function Unfilled(batch: nat, c: nat): nat {
    if c >= batch then 0 else c
  }

  /** No counter is above the batch size. */
  ghost predicate Bounded(batch: nat, s: State) {
    && WellFormed(s)
    && forall o, q :: 0 <= o < |s.objects| && q in s.objects[o].counts ==> s.objects[o].counts[q] <= batch
  }

  lemma CountedBounded(batch: nat, s: State, m: Minute, q: Query)
    requires batch > 0 && Bounded(batch, s) && m in s.current
    ensures Bounded(batch, Counted(batch, s, m, q))
  {
  }

  lemma StepBounded(batch: nat, s: State, e: Event)
    requires batch > 0 && Bounded(batch, s) && Enabled(s, e)
    ensures Bounded(batch, Step(batch, s, e))
  {
    if e.Arrives? {
      assert Bounded(batch, WithMinute(s, e.minute));
      CountedBounded(batch, WithMinute(s, e.minute), e.minute, e.query);
    }
  }

  lemma MinuteEffect(s: State, m: Minute, m': Minute, q': Query)
    requires WellFormed(s)
    ensures var t := WithMinute(s, m);
            && WellFormed(t) && m in t.current && Counter(t, m', q') == Counter(s, m', q')
            && t.scores == s.scores && t.hits == s.hits && t.waiting == s.waiting
  {
  }

  lemma CounterEffect(batch: nat, s: State, m: Minute, q: Query, m': Minute, q': Query)
    requires WellFormed(s) && m in s.current
    ensures var t := Counted(batch, s, m, q);
            && WellFormed(t)
            && Counter(t, m', q')
               == if m == m' && q == q' then NextCount(batch, Counter(s, m, q)) else Counter(s, m', q')
  {
    var t := Counted(batch, s, m, q);
    if m' in s.current && m' != m {
      assert s.current[m'] != s.current[m];
    }
  }

  lemma WaitingEffect(batch: nat, s: State, m: Minute, q: Query, m': Minute, q': Query)
    requires WellFormed(s) && m in s.current
    ensures WaitingFor(Counted(batch, s, m, q).waiting, m', q')
         == WaitingFor(s.waiting, m', q')
            + if m == m' && q == q' && NextCount(batch, Counter(s, m, q)) >= batch then 1 else 0
  {
    WaitingSplits(s.waiting, [Publisher(m, q, s.current[m])], m', q');
  }

  /** A request moves only the counter, the hits and the waiting publishers of its own query and minute. */
  lemma ArrivalEffect(batch: nat, s: State, m: Minute, q: Query, m': Minute, q': Query)
    requires WellFormed(s)
    ensures var t := Arrived(batch, s, m, q);
            var own := m == m' && q == q';
            var c := Counter(s, m', q');
            && WellFormed(t) && t.scores == s.scores
            && Counter(t, m', q') == (if own then NextCount(batch, c) else c)
            && Get(t.hits, (m', q')) == Get(s.hits, (m', q')) + (if own then 1 else 0)
            && WaitingFor(t.waiting, m', q')
               == WaitingFor(s.waiting, m', q') + (if own && NextCount(batch, c) >= batch then 1 else 0)
  {
    var t := WithMinute(s, m);
    MinuteEffect(s, m, m', q');
    CounterEffect(batch, t, m, q, m', q');
    WaitingEffect(batch, t, m, q, m', q');
  }

  // ----- where every hit goes ----------------------------------------------------------

  /** The waiting request i is about the query of the minute. */
  predicate Concerns(s: State, i: nat, m: Minute, q: Query)
    requires i < |s.waiting|
  {
    s.waiting[i].minute == m && s.waiting[i].query == q
  }

  /** What the waiting request i would publish now. */
  function Offer(s: State, i: nat): nat
    requires WellFormed(s) && i < |s.waiting|
  {
    Get(s.objects[s.waiting[i].counters].counts, s.waiting[i].query)
  }

  /** The hits of a query that a publishing step loses because the counter has moved on. */
  function LostByPublishing(batch: nat, s: State, e: Event, m: Minute, q: Query): int
    requires WellFormed(s) && Enabled(s, e)
  {
    if e.Publishes? && Concerns(s, e.publisher, m, q) then batch - Offer(s, e.publisher) else 0
  }

  /** The hits of a query that any step loses: also a failed request's batch, and a deleted counter. */
  function LostBy(batch: nat, s: State, e: Event, m: Minute, q: Query): int
    requires WellFormed(s) && Enabled(s, e)
  {
    LostByPublishing(batch, s, e, m, q)
    + (if e.Fails? && Concerns(s, e.publisher, m, q) then batch else 0)
    + (if e == Forgets(m) then Unfilled(batch, Counter(s, m, q)) else 0)
  }

  /** All hits lost in the first i steps. */
  ghost function Lost(batch: nat, trace: seq<State>, events: seq<Event>, m: Minute, q: Query, i: nat): int
    requires IsRun(batch, trace, events) && i <= |events|
  {
    if i == 0 then 0
    else
      assert StepsTo(batch, trace[i - 1], events[i - 1], trace[i]);
      Lost(batch, trace, events, m, q, i - 1) + LostBy(batch, trace[i - 1], events[i - 1], m, q)
  }

  /** Published, on its way, or in the unfilled counter. */
  function Held(batch: nat, s: State, m: Minute, q: Query): nat
    requires WellFormed(s)
  {
    MulMonotone(0, WaitingFor(s.waiting, m, q), batch);
    Get(s.scores, (m, q)) + batch * WaitingFor(s.waiting, m, q) + Unfilled(batch, Counter(s, m, q))
  }

  lemma CounterBounded(batch: nat, s: State, m: Minute, q: Query)
    requires Bounded(batch, s)
    ensures Counter(s, m, q) <= batch
  {
  }

  lemma ArrivalHolds(batch: nat, s: State, m: Minute, q: Query, m': Minute, q': Query)
    requires batch > 0 && Bounded(batch, s)
    ensures WellFormed(Arrived(batch, s, m, q))
    ensures Held(batch, Arrived(batch, s, m, q), m', q') - Held(batch, s, m', q')
         == Get(Arrived(batch, s, m, q).hits, (m', q')) - Get(s.hits, (m', q'))
  {
    ArrivalEffect(batch, s, m, q, m', q');
    CounterBounded(batch, s, m', q');
    Distribute(batch, WaitingFor(s.waiting, m', q'), 1);
  }

  lemma FewerWellFormed(s: State, i: nat)
    requires WellFormed(s) && i < |s.waiting|
    ensures WellFormed(s.(waiting := Without(s.waiting, i))) && WellFormed(Published(s, i))
  {
    var rest := Without(s.waiting, i);
    assert forall k :: 0 <= k < |rest| ==> rest[k] == s.waiting[if k < i then k else k + 1];
  }

  lemma FailureHolds(batch: nat, s: State, i: nat, m: Minute, q: Query)
    requires WellFormed(s) && i < |s.waiting|
    ensures var t := s.(waiting := Without(s.waiting, i));
            WellFormed(t) && Held(batch, t, m, q) == Held(batch, s, m, q) - if Concerns(s, i, m, q) then batch else 0
  {
    FewerWellFormed(s, i);
    OneFewerWaits(s.waiting, i, m, q);
    Distribute(batch, WaitingFor(Without(s.waiting, i), m, q), 1);
  }

  lemma PublishHolds(batch: nat, s: State, i: nat, m: Minute, q: Query)
    requires WellFormed(s) && i < |s.waiting|
    ensures WellFormed(Published(s, i))
    ensures Held(batch, Published(s, i), m, q)
         == Held(batch, s, m, q) - if Concerns(s, i, m, q) then batch - Offer(s, i) else 0
  {
    FewerWellFormed(s, i);
    FailureHolds(batch, s, i, m, q);
  }

  /** Every step keeps the account of every query. */
  lemma StepAccount(batch: nat, s: State, e: Event, m: Minute, q: Query)
    requires batch > 0 && Bounded(batch, s) && Enabled(s, e)
    ensures Bounded(batch, Step(batch, s, e))
    ensures Held(batch, Step(batch, s, e), m, q) + LostBy(batch, s, e, m, q) - Held(batch, s, m, q)
         == Get(Step(batch, s, e).hits, (m, q)) - Get(s.hits, (m, q))
  {
    StepBounded(batch, s, e);
    match e
    case Arrives(m', q') => ArrivalHolds(batch, s, m', q', m, q);
    case Publishes(i) => PublishHolds(batch, s, i, m, q);
    case Fails(i) => FailureHolds(batch, s, i, m, q);
    case Forgets(_) =>
  }

  lemma LostNotNegative(batch: nat, s: State, e: Event, m: Minute, q: Query)
    requires Bounded(batch, s) && Enabled(s, e)
    ensures LostByPublishing(batch, s, e, m, q) >= 0 && LostBy(batch, s, e, m, q) >= 0
  {
  }

  /**
   Where every hit goes, over every run and for every query: it is published, on its way,
   in the unfilled counter, or lost by one of the steps that lose hits.
   */
  lemma {:induction false} HitsAccountedFor(
    batch: nat, trace: seq<State>, events: seq<Event>, m: Minute, q: Query, i: nat
  )
    requires batch > 0 && IsRun(batch, trace, events) && i <= |events|
    ensures Bounded(batch, trace[i])
    ensures Held(batch, trace[i], m, q) + Lost(batch, trace, events, m, q, i) == Get(trace[i].hits, (m, q))
    ensures Lost(batch, trace, events, m, q, i) >= 0
  {
    if i > 0 {
      HitsAccountedFor(batch, trace, events, m, q, i - 1);
      assert StepsTo(batch, trace[i - 1], events[i - 1], trace[i]);
      StepAccount(batch, trace[i - 1], events[i - 1], m, q);
      LostNotNegative(batch, trace[i - 1], events[i - 1], m, q);
    }
  }

  /** The hits are the requests that came, one for each. */
  lemma {:induction false} HitsAreArrivals(
    batch: nat, trace: seq<State>, events: seq<Event>, m: Minute, q: Query, i: nat
  )
    requires batch > 0 && IsRun(batch, trace, events) && i <= |events|
    ensures Get(trace[i].hits, (m, q)) == multiset(events[..i])[Arrives(m, q)]
  {
    if i > 0 {
      var (s, e) := (trace[i - 1], events[i - 1]);
      HitsAreArrivals(batch, trace, events, m, q, i - 1);
      assert StepsTo(batch, s, e, trace[i]);
      assert events[..i] == events[..i - 1] + [e];
      if e.Arrives? {
        ArrivalEffect(batch, s, e.minute, e.query, m, q);
      }
    }
  }

  /** Whatever the interleaving, and whenever minutes are forgotten, a score never exceeds the hits. */
  lemma ScoreNeverExceedsHits(batch: nat, trace: seq<State>, events: seq<Event>, i: nat, m: Minute, q: Query)
    requires batch > 0 && IsRun(batch, trace, events) && i <= |events|
    ensures Get(trace[i].scores, (m, q)) <= Get(trace[i].hits, (m, q))
  {
    HitsAccountedFor(batch, trace, events, m, q, i);
    MulMonotone(0, WaitingFor(trace[i].waiting, m, q), batch);
  }

  // ----- when the score is exact -------------------------------------------------------

  /** The score is the hits rounded down to full batches. */
  ghost predicate Exact(batch: nat, s: State, m: Minute, q: Query)
    requires batch > 0
  {
    Get(s.scores, (m, q)) == batch * (Get(s.hits, (m, q)) / batch)
  }

  /** Once nobody waits, the score is exact if and only if no more than the rest beyond full batches is missing. */
  lemma ExactIffOnlyRestMissing(batch: nat, trace: seq<State>, events: seq<Event>, m: Minute, q: Query, i: nat)
    requires batch > 0 && IsRun(batch, trace, events) && i <= |events|
    requires WellFormed(trace[i]) && WaitingFor(trace[i].waiting, m, q) == 0
    ensures Exact(batch, trace[i], m, q)
       <==> Lost(batch, trace, events, m, q, i) + Unfilled(batch, Counter(trace[i], m, q))
            == Get(trace[i].hits, (m, q)) % batch
  {
    HitsAccountedFor(batch, trace, events, m, q, i);
    FullBatchesOf(batch, Get(trace[i].hits, (m, q)));
  }

  lemma FullBatchesOf(batch: nat, hits: nat)
    requires batch > 0
    ensures hits == batch * (hits / batch) + hits % batch
  {
  }

  /** Nothing of the query fails, and no request for it comes after its minute was forgotten, in the first i steps. */
  ghost predicate NothingDropped(trace: seq<State>, events: seq<Event>, m: Minute, q: Query, i: nat)
    requires i <= |events| && |trace| == |events| + 1
  {
    forall j :: 0 <= j < i ==> NotDropped(trace[j], events[j], Live(events, m, j), m, q)
  }

  ghost predicate NotDropped(s: State, e: Event, live: bool, m: Minute, q: Query) {
    && Enabled(s, e)
    && (e.Fails? ==> !Concerns(s, e.publisher, m, q))
    && (e == Arrives(m, q) ==> live)
  }

  /** The minute has not been forgotten before step i. */
  ghost predicate Live(events: seq<Event>, m: Minute, i: nat)
    requires i <= |events|
  {
    forall j :: 0 <= j < i ==> events[j] != Forgets(m)
  }

  /** Every publishing of the query in the first i steps finds a full counter. */
  ghost predicate PublishesFull(batch: nat, trace: seq<State>, events: seq<Event>, m: Minute, q: Query, i: nat)
    requires IsRun(batch, trace, events) && i <= |events|
  {
    forall j :: 0 <= j < i ==> FullAt(batch, trace[j], events[j], m, q)
  }

  ghost predicate FullAt(batch: nat, s: State, e: Event, m: Minute, q: Query) {
    WellFormed(s) && Enabled(s, e) && LostByPublishing(batch, s, e, m, q) == 0
  }

  lemma NextHit(batch: nat, hits: nat)
    requires batch > 0
    ensures if hits % batch + 1 == batch
            then (hits + 1) / batch == hits / batch + 1 && (hits + 1) % batch == 0
            else (hits + 1) / batch == hits / batch && (hits + 1) % batch == hits % batch + 1
  {
    assert hits == batch * (hits / batch) + hits % batch;
    Distribute(batch, hits / batch, 1);
    if hits % batch + 1 == batch {
      DivisionUnique(hits + 1, batch, hits / batch + 1, 0);
    } else {
      DivisionUnique(hits + 1, batch, hits / batch, hits % batch + 1);
    }
  }

  /** The hits beyond full batches, whether still in the counter or forgotten with it. */
  lemma {:induction false} RestOfBatches(batch: nat, trace: seq<State>, events: seq<Event>, m: Minute, q: Query, i: nat)
    returns (published: int)
    requires batch > 0 && IsRun(batch, trace, events) && i <= |events|
    requires NothingDropped(trace, events, m, q, i)
    ensures WellFormed(trace[i])
    ensures Lost(batch, trace, events, m, q, i) + Unfilled(batch, Counter(trace[i], m, q))
         == published + Get(trace[i].hits, (m, q)) % batch
    ensures Live(events, m, i) ==> Unfilled(batch, Counter(trace[i], m, q)) == Get(trace[i].hits, (m, q)) % batch
    ensures published >= 0 && (published == 0 <==> PublishesFull(batch, trace, events, m, q, i))
  {
    HitsAccountedFor(batch, trace, events, m, q, i);
    if i == 0 {
      published := 0;
      DivisionUnique(0, batch, 0, 0);
    } else {
      var (s, e) := (trace[i - 1], events[i - 1]);
      var before := RestOfBatches(batch, trace, events, m, q, i - 1);
      HitsAccountedFor(batch, trace, events, m, q, i - 1);
      assert StepsTo(batch, s, e, trace[i]);
      assert NotDropped(s, e, Live(events, m, i - 1), m, q);
      published := before + LostByPublishing(batch, s, e, m, q);
      LostNotNegative(batch, s, e, m, q);
      RestStep(batch, s, e, Live(events, m, i - 1), m, q);
      assert Live(events, m, i) <==> Live(events, m, i - 1) && e != Forgets(m);
      assert PublishesFull(batch, trace, events, m, q, i)
        <==> PublishesFull(batch, trace, events, m, q, i - 1) && FullAt(batch, s, e, m, q);
    }
  }

  lemma RestStep(batch: nat, s: State, e: Event, live: bool, m: Minute, q: Query)
    requires batch > 0 && Bounded(batch, s) && NotDropped(s, e, live, m, q)
    requires live ==> Unfilled(batch, Counter(s, m, q)) == Get(s.hits, (m, q)) % batch
    ensures var t := Step(batch, s, e);
            && WellFormed(t)
            && LostBy(batch, s, e, m, q) - LostByPublishing(batch, s, e, m, q)
               + Unfilled(batch, Counter(t, m, q)) - Unfilled(batch, Counter(s, m, q))
               == Get(t.hits, (m, q)) % batch - Get(s.hits, (m, q)) % batch
            && (live && e != Forgets(m) ==> Unfilled(batch, Counter(t, m, q)) == Get(t.hits, (m, q)) % batch)
  {
    StepBounded(batch, s, e);
    match e
    case Arrives(m', q') =>
      ArrivalEffect(batch, s, m', q', m, q);
      CounterBounded(batch, s, m, q);
      NextHit(batch, Get(s.hits, (m, q)));
    case Publishes(_) =>
    case Fails(_) =>
    case Forgets(_) =>
  }

  /**
   Exactly when batching is lossless: if nothing of a query fails and none of its requests
   comes after its minute was forgotten, then, once nobody waits, the score is the hits rounded
   down to full batches if and only if every publishing found a full counter.
   */
  lemma ExactIffPublishesFull(batch: nat, trace: seq<State>, events: seq<Event>, m: Minute, q: Query, i: nat)
    requires batch > 0 && IsRun(batch, trace, events) && i <= |events|
    requires NothingDropped(trace, events, m, q, i)
    requires WellFormed(trace[i]) && WaitingFor(trace[i].waiting, m, q) == 0
    ensures Exact(batch, trace[i], m, q) <==> PublishesFull(batch, trace, events, m, q, i)
  {
    var published := RestOfBatches(batch, trace, events, m, q, i);
    ExactIffOnlyRestMissing(batch, trace, events, m, q, i);
  }

  // ----- requests that do not overlap --------------------------------------------------

  /** No request for the query comes while one waits to publish it. */
  ghost predicate NoOverlap(s: State, e: Event, m: Minute, q: Query) {
    e == Arrives(m, q) ==> WaitingFor(s.waiting, m, q) == 0
  }

  /** Whoever waits to publish the query would publish a full batch. */
  ghost predicate FullBatchesWait(batch: nat, s: State, m: Minute, q: Query)
    requires WellFormed(s)
  {
    forall i :: 0 <= i < |s.waiting| && s.waiting[i].minute == m && s.waiting[i].query == q ==>
      Get(s.objects[s.waiting[i].counters].counts, q) == batch
  }

  lemma {:induction false} NoneWaits(waiting: seq<Publisher>, m: Minute, q: Query, i: nat)
    requires i < |waiting| && WaitingFor(waiting, m, q) == 0
    ensures !(waiting[i].minute == m && waiting[i].query == q)
  {
    OneFewerWaits(waiting, i, m, q);
  }

  /** A request changes one counter of one object. */
  lemma ObjectEffect(batch: nat, s: State, m: Minute, q: Query, o: nat, q': Query)
    requires WellFormed(s) && m in s.current && o < |s.objects|
    ensures Get(Counted(batch, s, m, q).objects[o].counts, q')
         == if o == s.current[m] && q == q' then NextCount(batch, Get(s.objects[o].counts, q'))
            else Get(s.objects[o].counts, q')
  {
  }

  lemma ArrivalKeepsFull(batch: nat, s: State, m: Minute, q: Query, m': Minute, q': Query)
    requires batch > 0 && Bounded(batch, s) && FullBatchesWait(batch, s, m', q')
    requires m == m' && q == q' ==> WaitingFor(s.waiting, m, q) == 0
    ensures WellFormed(Arrived(batch, s, m, q)) && FullBatchesWait(batch, Arrived(batch, s, m, q), m', q')
  {
    ArrivalEffect(batch, s, m, q, m', q');
    var t := Arrived(batch, s, m, q);
    forall i | 0 <= i < |t.waiting| && t.waiting[i].minute == m' && t.waiting[i].query == q'
      ensures Get(t.objects[t.waiting[i].counters].counts, q') == batch
    {
      PublisherStillFull(batch, s, m, q, i);
    }
  }

  lemma PublisherStillFull(batch: nat, s: State, m: Minute, q: Query, i: nat)
    requires batch > 0 && Bounded(batch, s)
    requires var t := Arrived(batch, s, m, q); WellFormed(t) && i < |t.waiting|
    requires var p := Arrived(batch, s, m, q).waiting[i];
             && FullBatchesWait(batch, s, p.minute, p.query)
             && (m == p.minute && q == p.query ==> WaitingFor(s.waiting, m, q) == 0)
    ensures Offer(Arrived(batch, s, m, q), i) == batch
  {
    if i < |s.waiting| {
      assert Arrived(batch, s, m, q).waiting[i] == s.waiting[i];
      if m == s.waiting[i].minute && q == s.waiting[i].query {
        NoneWaits(s.waiting, m, q, i);
      }
      OthersKeepTheirCount(batch, s, m, q, s.waiting[i]);
    } else {
      NewPublisherFull(batch, s, m, q);
    }
  }

  /** A request that fills a batch waits to publish it. */
  lemma NewPublisherFull(batch: nat, s: State, m: Minute, q: Query)
    requires batch > 0 && Bounded(batch, s)
    ensures WellFormed(Arrived(batch, s, m, q)) && |Arrived(batch, s, m, q).waiting| <= |s.waiting| + 1
    ensures |Arrived(batch, s, m, q).waiting| > |s.waiting| ==> Offer(Arrived(batch, s, m, q), |s.waiting|) == batch
  {
    var u := WithMinute(s, m);
    ArrivalEffect(batch, s, m, q, m, q);
    MinuteEffect(s, m, m, q);
    ObjectEffect(batch, u, m, q, u.current[m], q);
    CounterBounded(batch, s, m, q);
  }

  lemma OthersKeepTheirCount(batch: nat, s: State, m: Minute, q: Query, p: Publisher)
    requires WellFormed(s) && p.counters < |s.objects| && s.objects[p.counters].minute == p.minute
    requires p.minute != m || p.query != q
    ensures Get(Arrived(batch, s, m, q).objects[p.counters].counts, p.query)
         == Get(s.objects[p.counters].counts, p.query)
  {
    MinuteEffect(s, m, m, q);
    ObjectEffect(batch, WithMinute(s, m), m, q, p.counters, p.query);
  }

  lemma FewerKeepFull(batch: nat, s: State, i: nat, m: Minute, q: Query)
    requires WellFormed(s) && FullBatchesWait(batch, s, m, q) && i < |s.waiting|
    ensures var t := s.(waiting := Without(s.waiting, i));
            WellFormed(t) && FullBatchesWait(batch, t, m, q)
  {
    var rest := Without(s.waiting, i);
    assert forall k :: 0 <= k < |rest| ==> rest[k] == s.waiting[if k < i then k else k + 1];
  }

  lemma {:induction false} NoOverlapKeepsFull(
    batch: nat, trace: seq<State>, events: seq<Event>, m: Minute, q: Query, i: nat
  )
    requires batch > 0 && IsRun(batch, trace, events) && i <= |events|
    requires forall j :: 0 <= j < i ==> NoOverlap(trace[j], events[j], m, q)
    ensures Bounded(batch, trace[i]) && FullBatchesWait(batch, trace[i], m, q)
    ensures PublishesFull(batch, trace, events, m, q, i)
  {
    HitsAccountedFor(batch, trace, events, m, q, i);
    if i > 0 {
      NoOverlapKeepsFull(batch, trace, events, m, q, i - 1);
      var (s, e) := (trace[i - 1], events[i - 1]);
      assert StepsTo(batch, s, e, trace[i]) && NoOverlap(s, e, m, q);
      match e
      case Arrives(m', q') => ArrivalKeepsFull(batch, s, m', q', m, q);
      case Publishes(p) => FewerKeepFull(batch, s, p, m, q);
      case Fails(p) => FewerKeepFull(batch, s, p, m, q);
      case Forgets(_) =>
    }
  }

  /** Without overlap, failures or late requests a query's score is exact as soon as nobody waits to publish. */
  lemma QuietScoreIsExact(batch: nat, trace: seq<State>, events: seq<Event>, m: Minute, q: Query, i: nat)
    requires batch > 0 && IsRun(batch, trace, events) && i <= |events|
    requires forall j :: 0 <= j < i ==> NoOverlap(trace[j], events[j], m, q)
    requires NothingDropped(trace, events, m, q, i)
    requires WaitingFor(trace[i].waiting, m, q) == 0
    ensures Get(trace[i].scores, (m, q)) == batch * (Get(trace[i].hits, (m, q)) / batch)
  {
    NoOverlapKeepsFull(batch, trace, events, m, q, i);
    ExactIffPublishesFull(batch, trace, events, m, q, i);
  }

  /** With overlap hits get lost: a third request resets the counter that the second is about to publish. */
  lemma OverlapLosesHits(m: Minute, q: Query) returns (trace: seq<State>, events: seq<Event>)
    ensures IsRun(2, trace, events) && |events| == 4
    ensures trace[4].waiting == []
    ensures Get(trace[4].hits, (m, q)) == 3 && Get(trace[4].scores, (m, q)) == 1
  {
    var first := FirstArrival(m, q);
    var second := AfterAnother(m, q, 1, [], 1);
    var third := AfterAnother(m, q, 2, [Publisher(m, q, 0)], 2);
    var fourth := PublishedLate(m, q, third);
    RunExtends(2, [INITIAL], [], Arrives(m, q), first);
    RunExtends(2, [INITIAL, first], [Arrives(m, q)], Arrives(m, q), second);
    RunExtends(2, [INITIAL, first, second], [Arrives(m, q), Arrives(m, q)], Arrives(m, q), third);
    RunExtends(2, [INITIAL, first, second, third], [Arrives(m, q), Arrives(m, q), Arrives(m, q)], Publishes(0), fourth);
    trace := [INITIAL, first, second, third] + [fourth];
    events := [Arrives(m, q), Arrives(m, q), Arrives(m, q)] + [Publishes(0)];
  }

  lemma RunExtends(batch: nat, trace: seq<State>, events: seq<Event>, e: Event, t: State)
    requires IsRun(batch, trace, events) && StepsTo(batch, trace[|events|], e, t)
    ensures IsRun(batch, trace + [t], events + [e])
  {
    var longer, more := trace + [t], events + [e];
    forall i | 0 <= i < |more|
      ensures StepsTo(batch, longer[i], more[i], longer[i + 1])
    {
      if i < |events| {
        assert StepsTo(batch, trace[i], events[i], trace[i + 1]);
      }
    }
  }

  lemma FirstArrival(m: Minute, q: Query) returns (t: State)
    ensures t == State(map[m := 0], [MinuteCounters(m, map[q := 1])], [], map[], map[(m, q) := 1])
    ensures StepsTo(2, INITIAL, Arrives(m, q), t)
  {
    assert WithMinute(INITIAL, m) == State(map[m := 0], [MinuteCounters(m, map[])], [], map[], map[]);
    t := Arrived(2, INITIAL, m, q);
  }

  lemma PublishedLate(m: Minute, q: Query, s: State) returns (t: State)
    requires s == State(map[m := 0], [MinuteCounters(m, map[q := 1])], [Publisher(m, q, 0)], map[], map[(m, q) := 3])
    ensures StepsTo(2, s, Publishes(0), t)
    ensures t.waiting == [] && Get(t.hits, (m, q)) == 3 && Get(t.scores, (m, q)) == 1
  {
    t := Published(s, 0);
  }

  lemma AfterAnother(m: Minute, q: Query, c: nat, waiting: seq<Publisher>, hits: nat) returns (t: State)
    requires forall i :: 0 <= i < |waiting| ==> waiting[i] == Publisher(m, q, 0)
    ensures var s := State(map[m := 0], [MinuteCounters(m, map[q := c])], waiting, map[], map[(m, q) := hits]);
            StepsTo(2, s, Arrives(m, q), t)
    ensures t == State(
                   map[m := 0], [MinuteCounters(m, map[q := NextCount(2, c)])],
                   if NextCount(2, c) >= 2 then waiting + [Publisher(m, q, 0)] else waiting,
                   map[], map[(m, q) := hits + 1])
  {
    var s := State(map[m := 0], [MinuteCounters(m, map[q := c])], waiting, map[], map[(m, q) := hits]);
    assert WithMinute(s, m) == s;
    t := Counted(2, s, m, q);
    assert map[q := c][q := NextCount(2, c)] == map[q := NextCount(2, c)];
    assert map[(m, q) := hits][(m, q) := hits + 1] == map[(m, q) := hits + 1];
  }
}
