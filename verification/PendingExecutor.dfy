/**
 Request coalescing (`pending.executor.ts`) as an interleaved machine.  `execute` is cut at
 its awaits: every step below runs without interruption, and between steps any other call,
 any settling promise and any resumption may come.  While the executor runs synchronously
 nothing else runs except calls that the executor itself makes.
 */
module PendingExecution {
  import opened Wrappers

  type Key = string

  /** How a promise settles. */
  datatype Settlement = Fulfilled(value: string) | Rejected(reason: string)

  datatype Promise = Promise(key: Key, settlement: Option<Settlement>)

  /** Where a call to `execute` stands. */
  datatype Call =
    | Starting(key: Key)                 // inside executor(value), before it has returned a promise
    | Owner(key: Key, promise: nat)      // awaiting the promise it put into the dictionary
    | Joiner(key: Key, promise: nat)     // awaiting a promise found in the dictionary
    | Returned(key: Key, promise: nat, settlement: Settlement)
    | Threw(key: Key, reason: string)    // the executor threw before returning a promise

  datatype State = State(dictionary: map<Key, nat>, promises: seq<Promise>, calls: seq<Call>, stack: seq<nat>)

  datatype Event =
    | Execute(key: Key)
    | ExecutorReturns
    | ExecutorThrows(reason: string)
    | Settles(promise: nat, settlement: Settlement)
    | Resumes(call: nat)

  const INITIAL: State := State(map[], [], [], [])

  predicate Awaiting(s: State, c: nat) {
    c < |s.calls| && (s.calls[c].Owner? || s.calls[c].Joiner?)
  }

  predicate WellFormed(s: State) {
    && (forall i :: 0 <= i < |s.stack| ==> s.stack[i] < |s.calls| && s.calls[s.stack[i]].Starting?)
    && (forall c :: 0 <= c < |s.calls| && Awaiting(s, c) ==> s.calls[c].promise < |s.promises|)
  }

  predicate Enabled(s: State, e: Event)
    requires WellFormed(s)
  {
    match e
    case Execute(_) => true
    case ExecutorReturns => s.stack != []
    case ExecutorThrows(_) => s.stack != []
    case Settles(p, _) => p < |s.promises| && s.promises[p].settlement.None?
    case Resumes(c) => s.stack == [] && Awaiting(s, c) && s.promises[s.calls[c].promise].settlement.Some?
  }

  function Top(s: State): nat
    requires s.stack != []
  {
    s.stack[|s.stack| - 1]
  }

  function Step(s: State, e: Event): State
    requires WellFormed(s) && Enabled(s, e)
  {
    match e
    case Execute(k) =>
      if k in s.dictionary then s.(calls := s.calls + [Joiner(k, s.dictionary[k])])
      else s.(calls := s.calls + [Starting(k)], stack := s.stack + [|s.calls|])
    case ExecutorReturns =>
      var k, p := s.calls[Top(s)].key, |s.promises|;
      State(
        s.dictionary[k := p], s.promises + [Promise(k, None)], s.calls[Top(s) := Owner(k, p)],
        s.stack[..|s.stack| - 1])
    case ExecutorThrows(reason) =>
      s.(calls := s.calls[Top(s) := Threw(s.calls[Top(s)].key, reason)], stack := s.stack[..|s.stack| - 1])
    case Settles(p, o) =>
      s.(promises := s.promises[p := s.promises[p].(settlement := Some(o))])
    case Resumes(c) =>
      var call := s.calls[c];
      var done := Returned(call.key, call.promise, s.promises[call.promise].settlement.value);
      s.(calls := s.calls[c := done], dictionary := if call.Owner? then s.dictionary - {call.key} else s.dictionary)
  }

  // ----- the class ---------------------------------------------------------------------

  /** The service object, with the promises and suspended calls of its event loop. */
  class PendingExecutor {
    var dictionary: map<Key, nat>
    var promises: seq<Promise>
    var calls: seq<Call>
    var stack: seq<nat>

    function Now(): State
      reads this
    {
      State(dictionary, promises, calls, stack)
    }

    constructor ()
      ensures Now() == INITIAL
    {
      dictionary, promises, calls, stack := map[], [], [], [];
    }

    /** From the call to its first await, or into the executor. */
    method Execute(key: Key) returns (call: nat)
      requires WellFormed(Now())
      modifies this
      ensures Now() == Step(old(Now()), Event.Execute(key)) && call == old(|calls|)
    {
      call := |calls|;
      if key in dictionary {
        calls := calls + [Joiner(key, dictionary[key])];
      } else {
        calls := calls + [Starting(key)];
        stack := stack + [call];
      }
    }

    /** The executor hands back its promise: register it and await it. */
    method ExecutorReturns()
      requires WellFormed(Now()) && stack != []
      modifies this
      ensures Now() == Step(old(Now()), Event.ExecutorReturns)
    {
      var call := stack[|stack| - 1];
      var key, pendingRequest := calls[call].key, |promises|;
      promises := promises + [Promise(key, None)];
      dictionary := dictionary[key := pendingRequest];
      calls := calls[call := Owner(key, pendingRequest)];
      stack := stack[..|stack| - 1];
    }

    /** The executor throws before it has a promise: the call ends and the dictionary is untouched. */
    method ExecutorThrows(reason: string)
      requires WellFormed(Now()) && stack != []
      modifies this
      ensures Now() == Step(old(Now()), Event.ExecutorThrows(reason)) && dictionary == old(dictionary)
    {
      var call := stack[|stack| - 1];
      calls := calls[call := Threw(calls[call].key, reason)];
      stack := stack[..|stack| - 1];
    }

    /** From the end of the await to the end of the call, with the `finally` of the owner. */
    method Resume(call: nat) returns (settlement: Settlement)
      requires WellFormed(Now()) && Enabled(Now(), Event.Resumes(call))
      modifies this
      ensures Now() == Step(old(Now()), Event.Resumes(call))
      ensures old(promises[calls[call].promise]).settlement == Some(settlement)
    {
      var awaited := calls[call];
      settlement := promises[awaited.promise].settlement.value;
      if awaited.Owner? {
        dictionary := dictionary - {awaited.key};
      }
      calls := calls[call := Returned(awaited.key, awaited.promise, settlement)];
    }
  }

  // ----- runs --------------------------------------------------------------------------

  ghost predicate IsRun(trace: seq<State>, events: seq<Event>) {
    && |trace| == |events| + 1
    && trace[0] == INITIAL
    && forall i :: 0 <= i < |events| ==>
         WellFormed(trace[i]) && Enabled(trace[i], events[i]) && trace[i + 1] == Step(trace[i], events[i])
  }

  /** An executor run: still in its synchronous part, or behind an unsettled promise. */
  datatype Execution = Synchronous(call: nat) | Pending(promise: nat)

  ghost predicate Running(s: State, k: Key, x: Execution) {
    match x
    case Synchronous(c) => c < |s.calls| && s.calls[c] == Starting(k)
    case Pending(p) => p < |s.promises| && s.promises[p] == Promise(k, None)
  }

  ghost predicate AtMostOneRunPerKey(s: State) {
    forall k, x, y :: Running(s, k, x) && Running(s, k, y) ==> x == y
  }

  /** The executor, before returning its promise, asks for the very key it was started for. */
  ghost predicate Reentrant(s: State, e: Event) {
    e.Execute? && e.key !in s.dictionary && exists c :: 0 <= c < |s.calls| && s.calls[c] == Starting(e.key)
  }

  // ----- what every step keeps ---------------------------------------------------------

  /** Holds in every run, reentrant or not. */
  ghost predicate Basics(s: State) {
    && WellFormed(s)
    && (forall k :: k in s.dictionary ==> s.dictionary[k] < |s.promises| && s.promises[s.dictionary[k]].key == k)
    && (forall c :: 0 <= c < |s.calls| && Awaiting(s, c) ==> s.promises[s.calls[c].promise].key == s.calls[c].key)
    && (forall c :: 0 <= c < |s.calls| && s.calls[c].Returned? ==>
          s.calls[c].promise < |s.promises|
          && s.promises[s.calls[c].promise] == Promise(s.calls[c].key, Some(s.calls[c].settlement)))
    && (forall i, j :: 0 <= i < j < |s.stack| ==> s.stack[i] < s.stack[j])
    && (forall c :: 0 <= c < |s.calls| && s.calls[c].Starting? ==> c in s.stack)
  }

  /** Some call awaits the promise registered for k and has not finished its `finally`. */
  ghost predicate HasOwner(s: State, k: Key)
    requires k in s.dictionary
  {
    exists c :: 0 <= c < |s.calls| && s.calls[c] == Owner(k, s.dictionary[k])
  }

  /** No two calls inside their executors, and no two owners, share a key. */
  ghost predicate Apart(s: State) {
    StartingApart(s) && OwnersApart(s)
  }

  ghost predicate StartingApart(s: State) {
    forall c, d :: 0 <= c < d < |s.calls| && s.calls[c].Starting? && s.calls[d].Starting? ==>
      s.calls[c].key != s.calls[d].key
  }

  ghost predicate OwnersApart(s: State) {
    forall c, d :: 0 <= c < d < |s.calls| && s.calls[c].Owner? && s.calls[d].Owner? ==>
      s.calls[c].key != s.calls[d].key
  }

  /** The dictionary lists exactly the owners' promises, every unsettled promise among them. */
  ghost predicate Registered(s: State) {
    && (forall c :: 0 <= c < |s.calls| && s.calls[c].Starting? ==> s.calls[c].key !in s.dictionary)
    && (forall c :: 0 <= c < |s.calls| && s.calls[c].Owner? ==>
          s.calls[c].key in s.dictionary && s.dictionary[s.calls[c].key] == s.calls[c].promise)
    && (forall k :: k in s.dictionary ==> HasOwner(s, k))
    && (forall p :: 0 <= p < |s.promises| && s.promises[p].settlement.None? ==>
          s.promises[p].key in s.dictionary && s.dictionary[s.promises[p].key] == p)
  }

  /** Holds as long as no step is reentrant. */
  ghost predicate OneOwnerPerKey(s: State) {
    Apart(s) && Registered(s)
  }

  lemma BasicsExecute(s: State, k: Key)
    requires Basics(s) && Enabled(s, Event.Execute(k))
    ensures Basics(Step(s, Event.Execute(k)))
  {
  }

  lemma BasicsExecutorReturns(s: State)
    requires Basics(s) && Enabled(s, Event.ExecutorReturns)
    ensures Basics(Step(s, Event.ExecutorReturns))
  {
  }

  lemma BasicsExecutorThrows(s: State, reason: string)
    requires Basics(s) && Enabled(s, Event.ExecutorThrows(reason))
    ensures Basics(Step(s, Event.ExecutorThrows(reason)))
  {
  }

  lemma BasicsSettles(s: State, p: nat, o: Settlement)
    requires Basics(s) && Enabled(s, Event.Settles(p, o))
    ensures Basics(Step(s, Event.Settles(p, o)))
  {
  }

  lemma BasicsResumes(s: State, c: nat)
    requires Basics(s) && Enabled(s, Event.Resumes(c))
    ensures Basics(Step(s, Event.Resumes(c)))
  {
  }

  lemma BasicsKept(s: State, e: Event)
    requires Basics(s) && Enabled(s, e)
    ensures Basics(Step(s, e))
  {
    match e
    case Execute(k) => BasicsExecute(s, k);
    case ExecutorReturns => BasicsExecutorReturns(s);
    case ExecutorThrows(reason) => BasicsExecutorThrows(s, reason);
    case Settles(p, o) => BasicsSettles(s, p, o);
    case Resumes(c) => BasicsResumes(s, c);
  }

  lemma OwnersExecute(s: State, k: Key)
    requires Basics(s) && OneOwnerPerKey(s) && Enabled(s, Event.Execute(k)) && !Reentrant(s, Event.Execute(k))
    ensures Registered(Step(s, Event.Execute(k)))
  {
    var t := Step(s, Event.Execute(k));
    forall key | key in t.dictionary
      ensures HasOwner(t, key)
    {
      var c :| 0 <= c < |s.calls| && s.calls[c] == Owner(key, s.dictionary[key]);
      assert t.calls[c] == Owner(key, t.dictionary[key]);
    }
  }

  lemma OwnersExecutorReturns(s: State)
    requires Basics(s) && OneOwnerPerKey(s) && Enabled(s, Event.ExecutorReturns)
    ensures Registered(Step(s, Event.ExecutorReturns))
  {
    var t := Step(s, Event.ExecutorReturns);
    forall k | k in t.dictionary
      ensures HasOwner(t, k)
    {
      if k == s.calls[Top(s)].key {
        assert t.calls[Top(s)] == Owner(k, t.dictionary[k]);
      } else {
        var c :| 0 <= c < |s.calls| && s.calls[c] == Owner(k, s.dictionary[k]);
        assert t.calls[c] == Owner(k, t.dictionary[k]);
      }
    }
  }

  lemma OwnersExecutorThrows(s: State, reason: string)
    requires Basics(s) && OneOwnerPerKey(s) && Enabled(s, Event.ExecutorThrows(reason))
    ensures Registered(Step(s, Event.ExecutorThrows(reason)))
  {
    var t := Step(s, Event.ExecutorThrows(reason));
    forall k | k in t.dictionary
      ensures HasOwner(t, k)
    {
      var c :| 0 <= c < |s.calls| && s.calls[c] == Owner(k, s.dictionary[k]);
      assert t.calls[c] == Owner(k, t.dictionary[k]);
    }
  }

  lemma OwnersSettles(s: State, p: nat, o: Settlement)
    requires Basics(s) && OneOwnerPerKey(s) && Enabled(s, Event.Settles(p, o))
    ensures Registered(Step(s, Event.Settles(p, o)))
  {
    var t := Step(s, Event.Settles(p, o));
    forall k | k in t.dictionary
      ensures HasOwner(t, k)
    {
      var c :| 0 <= c < |s.calls| && s.calls[c] == Owner(k, s.dictionary[k]);
      assert t.calls[c] == Owner(k, t.dictionary[k]);
    }
  }

  lemma OwnersResumes(s: State, c: nat)
    requires Basics(s) && OneOwnerPerKey(s) && Enabled(s, Event.Resumes(c))
    ensures Registered(Step(s, Event.Resumes(c)))
  {
    StillOwned(s, c);
  }

  lemma StillOwned(s: State, c: nat)
    requires Basics(s) && OneOwnerPerKey(s) && Enabled(s, Event.Resumes(c))
    ensures var t := Step(s, Event.Resumes(c)); forall k :: k in t.dictionary ==> HasOwner(t, k)
  {
    var t := Step(s, Event.Resumes(c));
    forall k | k in t.dictionary
      ensures HasOwner(t, k)
    {
      var d :| 0 <= d < |s.calls| && s.calls[d] == Owner(k, s.dictionary[k]);
      assert t.calls[d] == Owner(k, t.dictionary[k]);
    }
  }

  lemma ApartKept(s: State, e: Event)
    requires Basics(s) && OneOwnerPerKey(s) && Enabled(s, e) && !Reentrant(s, e)
    ensures Apart(Step(s, e))
  {
    StartingApartKept(s, e);
    OwnersApartKept(s, e);
  }

  lemma StartingApartKept(s: State, e: Event)
    requires Basics(s) && OneOwnerPerKey(s) && Enabled(s, e) && !Reentrant(s, e)
    ensures StartingApart(Step(s, e))
  {
  }

  lemma OwnersApartKept(s: State, e: Event)
    requires Basics(s) && OneOwnerPerKey(s) && Enabled(s, e)
    ensures OwnersApart(Step(s, e))
  {
  }

  lemma OwnersKept(s: State, e: Event)
    requires Basics(s) && OneOwnerPerKey(s) && Enabled(s, e) && !Reentrant(s, e)
    ensures OneOwnerPerKey(Step(s, e))
  {
    ApartKept(s, e);
    match e
    case Execute(k) => OwnersExecute(s, k);
    case ExecutorReturns => OwnersExecutorReturns(s);
    case ExecutorThrows(reason) => OwnersExecutorThrows(s, reason);
    case Settles(p, o) => OwnersSettles(s, p, o);
    case Resumes(c) => OwnersResumes(s, c);
  }

  lemma OneRunFromOwners(s: State)
    requires Basics(s) && OneOwnerPerKey(s)
    ensures AtMostOneRunPerKey(s)
  {
  }

  /** A reentrant step starts a second executor for its key while the first is still running. */
  lemma ReentryStartsSecondRun(s: State, e: Event)
    requires Basics(s) && Enabled(s, e) && Reentrant(s, e)
    ensures !AtMostOneRunPerKey(Step(s, e))
  {
    var t := Step(s, e);
    var c :| 0 <= c < |s.calls| && s.calls[c] == Starting(e.key);
    assert Running(t, e.key, Synchronous(c));
    assert Running(t, e.key, Synchronous(|s.calls|));
  }

  lemma {:induction false} BasicsThroughout(trace: seq<State>, events: seq<Event>, i: nat)
    requires IsRun(trace, events) && i <= |events|
    ensures Basics(trace[i])
  {
    if i > 0 {
      BasicsThroughout(trace, events, i - 1);
      BasicsKept(trace[i - 1], events[i - 1]);
    }
  }

  lemma {:induction false} OwnersThroughout(trace: seq<State>, events: seq<Event>, i: nat)
    requires IsRun(trace, events) && i <= |events|
    requires forall j :: 0 <= j < i ==> !Reentrant(trace[j], events[j])
    ensures Basics(trace[i]) && OneOwnerPerKey(trace[i])
  {
    BasicsThroughout(trace, events, i);
    if i > 0 {
      OwnersThroughout(trace, events, i - 1);
      OwnersKept(trace[i - 1], events[i - 1]);
    }
  }

  // ----- safety over whole runs --------------------------------------------------------

  /**
   Requests are coalesced exactly when the executor is not reentrant: over any run there is
   at most one executor run per key at every moment, if and only if no executor asks for its
   own key before it has returned its promise.
   */
  lemma CoalescesIffNotReentrant(trace: seq<State>, events: seq<Event>)
    requires IsRun(trace, events)
    ensures (forall i :: 0 <= i <= |events| ==> AtMostOneRunPerKey(trace[i]))
       <==> (forall i :: 0 <= i < |events| ==> !Reentrant(trace[i], events[i]))
  {
    if forall i :: 0 <= i < |events| ==> !Reentrant(trace[i], events[i]) {
      forall i | 0 <= i <= |events|
        ensures AtMostOneRunPerKey(trace[i])
      {
        OwnersThroughout(trace, events, i);
        OneRunFromOwners(trace[i]);
      }
    } else {
      var i :| 0 <= i < |events| && Reentrant(trace[i], events[i]);
      BasicsThroughout(trace, events, i);
      ReentryStartsSecondRun(trace[i], events[i]);
      assert !AtMostOneRunPerKey(trace[i + 1]);
    }
  }

  /**
   The dictionary holds a key exactly while the call that registered it has not finished,
   and what that call deletes at the end is its own entry, never a later one.
   */
  lemma DictionaryTracksOwners(trace: seq<State>, events: seq<Event>, i: nat)
    requires IsRun(trace, events) && i <= |events|
    requires forall j :: 0 <= j < i ==> !Reentrant(trace[j], events[j])
    ensures forall k :: k in trace[i].dictionary
                        <==> exists c :: 0 <= c < |trace[i].calls|
                                         && trace[i].calls[c].Owner? && trace[i].calls[c].key == k
    ensures i < |events| && events[i].Resumes? && trace[i].calls[events[i].call].Owner? ==>
              var call := trace[i].calls[events[i].call];
              && call.key in trace[i].dictionary && trace[i].dictionary[call.key] == call.promise
              && trace[i + 1].dictionary == trace[i].dictionary - {call.key}
  {
    OwnersThroughout(trace, events, i);
    var s := trace[i];
    forall k | k in s.dictionary
      ensures exists c :: 0 <= c < |s.calls| && s.calls[c].Owner? && s.calls[c].key == k
    {
      assert HasOwner(s, k);
      var c :| 0 <= c < |s.calls| && s.calls[c] == Owner(k, s.dictionary[k]);
      assert s.calls[c].Owner? && s.calls[c].key == k;
    }
  }

  lemma {:induction false} SettledStays(trace: seq<State>, events: seq<Event>, i: nat, j: nat, p: nat)
    requires IsRun(trace, events) && i <= j <= |events|
    requires p < |trace[i].promises| && trace[i].promises[p].settlement.Some?
    ensures p < |trace[j].promises| && trace[j].promises[p] == trace[i].promises[p]
  {
    if i < j {
      SettledStays(trace, events, i, j - 1, p);
      assert trace[(j - 1) + 1] == Step(trace[j - 1], events[j - 1]);
    }
  }

  /**
   Every call that came back got the settlement of the one promise it waited for, so all
   callers of one executor run see the same result, whenever they came back.
   */
  lemma JoinersShareResult(trace: seq<State>, events: seq<Event>, i: nat, j: nat, c: nat, d: nat)
    requires IsRun(trace, events) && i <= j <= |events|
    requires c < |trace[i].calls| && d < |trace[j].calls|
    requires trace[i].calls[c].Returned? && trace[j].calls[d].Returned?
    requires trace[i].calls[c].promise == trace[j].calls[d].promise
    ensures trace[i].calls[c].settlement == trace[j].calls[d].settlement
    ensures trace[i].calls[c].key == trace[j].calls[d].key
  {
    BasicsThroughout(trace, events, i);
    BasicsThroughout(trace, events, j);
    SettledStays(trace, events, i, j, trace[i].calls[c].promise);
  }

  // ----- what becomes of a call --------------------------------------------------------

  /** The call waits for the promise, or has come back from it. */
  ghost predicate Bound(call: Call, k: Key, p: nat) {
    && (call.Owner? || call.Joiner? || call.Returned?)
    && call.key == k && call.promise == p
  }

  lemma {:induction false} BoundStays(trace: seq<State>, events: seq<Event>, i: nat, j: nat, c: nat, k: Key, p: nat)
    requires IsRun(trace, events) && i <= j <= |events|
    requires c < |trace[i].calls| && Bound(trace[i].calls[c], k, p)
    ensures c < |trace[j].calls| && Bound(trace[j].calls[c], k, p)
  {
    if i < j {
      BoundStays(trace, events, i, j - 1, c, k, p);
      assert trace[(j - 1) + 1] == Step(trace[j - 1], events[j - 1]);
    }
  }

  /** Every request is one more call, and the calls before it are left as they are. */
  lemma EveryRequestIsACall(trace: seq<State>, events: seq<Event>, i: nat)
    requires IsRun(trace, events) && i < |events| && events[i].Execute?
    ensures |trace[i + 1].calls| == |trace[i].calls| + 1
    ensures trace[i + 1].calls[..|trace[i].calls|] == trace[i].calls
    ensures trace[i + 1].calls[|trace[i].calls|].key == events[i].key
    ensures trace[i + 1].promises == trace[i].promises
  {
    assert trace[i + 1] == Step(trace[i], events[i]);
  }

  lemma {:induction false} CallsAreRequests(trace: seq<State>, events: seq<Event>, i: nat)
    requires IsRun(trace, events) && i <= |events|
    ensures |trace[i].calls| == Requests(events[..i])
  {
    if i > 0 {
      CallsAreRequests(trace, events, i - 1);
      assert trace[(i - 1) + 1] == Step(trace[i - 1], events[i - 1]);
      assert events[..i][..i - 1] == events[..i - 1];
    }
  }

  function Requests(events: seq<Event>): nat {
    if events == [] then 0
    else Requests(events[..|events| - 1]) + if events[|events| - 1].Execute? then 1 else 0
  }

  /**
   A request whose key some call owns becomes a joiner of that call's promise, and whenever both
   have come back they have the same settlement; a request whose key nobody owns enters the
   executor.
   */
  lemma RequestJoinsOwner(trace: seq<State>, events: seq<Event>, i: nat)
    requires IsRun(trace, events) && i < |events| && events[i].Execute?
    requires forall j :: 0 <= j < i ==> !Reentrant(trace[j], events[j])
    ensures |trace[i + 1].calls| == |trace[i].calls| + 1
    ensures var (s, k, c) := (trace[i], events[i].key, |trace[i].calls|);
            && (forall d, p :: 0 <= d < c && s.calls[d] == Owner(k, p) ==>
                  trace[i + 1].calls[c] == Joiner(k, p) && SameResult(trace, i, c, d))
            && ((forall d :: 0 <= d < c && s.calls[d].Owner? ==> s.calls[d].key != k) ==>
                  trace[i + 1].calls[c] == Starting(k))
  {
    EveryRequestIsACall(trace, events, i);
    OwnersThroughout(trace, events, i);
    var (s, k, c) := (trace[i], events[i].key, |trace[i].calls|);
    assert trace[i + 1] == Step(s, events[i]);
    forall d, p | 0 <= d < c && s.calls[d] == Owner(k, p)
      ensures trace[i + 1].calls[c] == Joiner(k, p) && SameResult(trace, i, c, d)
    {
      BothShareResult(trace, events, i, c, d, k, p);
    }
    if k in s.dictionary {
      assert HasOwner(s, k);
    }
  }

  /** At every later moment at which both calls have come back they have the same settlement. */
  ghost predicate SameResult(trace: seq<State>, i: nat, c: nat, d: nat) {
    forall j :: i < j < |trace| && c < |trace[j].calls| && d < |trace[j].calls|
                && trace[j].calls[c].Returned? && trace[j].calls[d].Returned? ==>
      trace[j].calls[c].settlement == trace[j].calls[d].settlement
  }

  lemma BothShareResult(trace: seq<State>, events: seq<Event>, i: nat, c: nat, d: nat, k: Key, p: nat)
    requires IsRun(trace, events) && i < |events|
    requires c < |trace[i + 1].calls| && Bound(trace[i + 1].calls[c], k, p)
    requires d < |trace[i + 1].calls| && Bound(trace[i + 1].calls[d], k, p)
    ensures SameResult(trace, i, c, d)
  {
    forall j | i < j < |trace| && c < |trace[j].calls| && d < |trace[j].calls|
               && trace[j].calls[c].Returned? && trace[j].calls[d].Returned?
      ensures trace[j].calls[c].settlement == trace[j].calls[d].settlement
    {
      BoundStays(trace, events, i + 1, j, c, k, p);
      BoundStays(trace, events, i + 1, j, d, k, p);
      JoinersShareResult(trace, events, j, j, c, d);
    }
  }

  /** A call comes back with what its promise settled with. */
  lemma ReturnsWhatSettled(trace: seq<State>, events: seq<Event>, i: nat, j: nat, c: nat)
    requires IsRun(trace, events) && i < j <= |events| && events[i].Settles?
    requires c < |trace[j].calls| && trace[j].calls[c].Returned? && trace[j].calls[c].promise == events[i].promise
    ensures trace[j].calls[c].settlement == events[i].settlement
  {
    assert trace[i + 1] == Step(trace[i], events[i]);
    SettledStays(trace, events, i + 1, j, events[i].promise);
    BasicsThroughout(trace, events, j);
  }

  /** A call is the innermost one inside its executor: those after it have left theirs. */
  ghost predicate Innermost(s: State, c: nat) {
    c < |s.calls| && s.calls[c].Starting? && forall d :: c < d < |s.calls| ==> !s.calls[d].Starting?
  }

  /**
   An executor that throws ends the innermost call for good, with the reason it gave, and
   nothing is registered; one that returns makes that call the owner of a promise of its own.
   */
  lemma InnermostLeaves(trace: seq<State>, events: seq<Event>, i: nat) returns (c: nat)
    requires IsRun(trace, events) && i < |events| && (events[i].ExecutorThrows? || events[i].ExecutorReturns?)
    ensures Innermost(trace[i], c)
    ensures var (s, t, k) := (trace[i], trace[i + 1], trace[i].calls[c].key);
            if events[i].ExecutorThrows? then
              && t.dictionary == s.dictionary && t.promises == s.promises
              && forall j :: i < j < |trace| ==> c < |trace[j].calls| && trace[j].calls[c] == Threw(k, events[i].reason)
            else
              && t.calls[..c] + t.calls[c + 1..] == s.calls[..c] + s.calls[c + 1..]
              && t.calls[c] == Owner(k, |s.promises|) && t.promises == s.promises + [Promise(k, None)]
  {
    BasicsThroughout(trace, events, i);
    var s := trace[i];
    c := Top(s);
    assert trace[i + 1] == Step(s, events[i]);
    forall d | c < d < |s.calls|
      ensures !s.calls[d].Starting?
    {
      assert d !in s.stack;
    }
    if events[i].ExecutorThrows? {
      forall j | i < j < |trace|
        ensures c < |trace[j].calls| && trace[j].calls[c] == Threw(s.calls[c].key, events[i].reason)
      {
        ThrewStays(trace, events, i + 1, j, c);
      }
    }
  }

  lemma {:induction false} ThrewStays(trace: seq<State>, events: seq<Event>, i: nat, j: nat, c: nat)
    requires IsRun(trace, events) && i <= j <= |events|
    requires c < |trace[i].calls| && trace[i].calls[c].Threw?
    ensures c < |trace[j].calls| && trace[j].calls[c] == trace[i].calls[c]
  {
    if i < j {
      ThrewStays(trace, events, i, j - 1, c);
      assert trace[(j - 1) + 1] == Step(trace[j - 1], events[j - 1]);
    }
  }

  // ----- every call can finish ---------------------------------------------------------

  /** The steps that are left for a call: its executor's return, the settling, and its own return. */
  function StepsLeft(call: Call): nat {
    match call
    case Starting(_) => 3
    case Owner(_, _) => 1
    case Joiner(_, _) => 1
    case _ => 0
  }

  function ToSettle(promise: Promise): nat {
    if promise.settlement.None? then 1 else 0
  }

  function Sum<T>(s: seq<T>, f: T -> nat): nat {
    if s == [] then 0 else Sum(s[..|s| - 1], f) + f(s[|s| - 1])
  }

  lemma {:induction false} SumUpdated<T>(s: seq<T>, f: T -> nat, i: nat, x: T)
    requires i < |s|
    ensures Sum(s[i := x], f) + f(s[i]) == Sum(s, f) + f(x)
  {
    var n := |s| - 1;
    if i < n {
      assert s[i := x][..n] == s[..n][i := x];
      SumUpdated(s[..n], f, i, x);
    } else {
      assert s[i := x][..n] == s[..n];
    }
  }

  lemma SumExtended<T>(s: seq<T>, f: T -> nat, x: T)
    ensures Sum(s + [x], f) == Sum(s, f) + f(x)
  {
    assert (s + [x])[..|s|] == s;
  }

  function WorkLeft(s: State): nat {
    Sum(s.calls, StepsLeft) + Sum(s.promises, ToSettle)
  }

  /** A step that brings a call nearer to its end. */
  ghost predicate Helps(e: Event) {
    e.ExecutorReturns? || e.Settles? || e.Resumes?
  }

  lemma LessWorkLeft(s: State, e: Event)
    requires Basics(s) && Enabled(s, e) && Helps(e)
    ensures WorkLeft(Step(s, e)) < WorkLeft(s) && |Step(s, e).calls| == |s.calls|
  {
    match e
    case ExecutorReturns =>
      var (k, p) := (s.calls[Top(s)].key, |s.promises|);
      SumUpdated(s.calls, StepsLeft, Top(s), Owner(k, p));
      SumExtended(s.promises, ToSettle, Promise(k, None));
    case Settles(p, o) =>
      SumUpdated(s.promises, ToSettle, p, s.promises[p].(settlement := Some(o)));
    case Resumes(c) =>
      SumUpdated(s.calls, StepsLeft, c, Step(s, e).calls[c]);
  }

  ghost predicate AllFinished(s: State) {
    forall c :: 0 <= c < |s.calls| ==> s.calls[c].Returned? || s.calls[c].Threw?
  }

  lemma SomethingHelps(s: State) returns (e: Event)
    requires Basics(s) && !AllFinished(s)
    ensures Enabled(s, e) && Helps(e)
  {
    if s.stack != [] {
      e := ExecutorReturns;
    } else {
      var c :| 0 <= c < |s.calls| && !s.calls[c].Returned? && !s.calls[c].Threw?;
      assert Awaiting(s, c);
      var p := s.calls[c].promise;
      e := if s.promises[p].settlement.None? then Settles(p, Fulfilled("")) else Resumes(c);
    }
  }

  /**
   No call is ever stuck: from every moment of every run, once executors return and promises
   settle, all calls made so far can come back without any new request.
   */
  lemma EveryCallCanFinish(trace: seq<State>, events: seq<Event>) returns (longer: seq<State>, more: seq<Event>)
    requires IsRun(trace, events)
    ensures IsRun(longer, events + more) && |longer| >= |trace| && longer[..|trace|] == trace
    ensures forall e :: e in more ==> Helps(e)
    ensures AllFinished(longer[|longer| - 1])
    ensures |longer[|longer| - 1].calls| == |trace[|trace| - 1].calls|
    decreases WorkLeft(trace[|trace| - 1])
  {
    var s := trace[|events|];
    BasicsThroughout(trace, events, |events|);
    if AllFinished(s) {
      longer, more := trace, [];
      assert events + [] == events;
    } else {
      var e := SomethingHelps(s);
      LessWorkLeft(s, e);
      RunExtends(trace, events, e);
      longer, more := EveryCallCanFinish(trace + [Step(s, e)], events + [e]);
      assert (events + [e]) + more == events + ([e] + more);
      more := [e] + more;
      assert longer[..|trace|] == longer[..|trace| + 1][..|trace|];
    }
  }

  lemma RunExtends(trace: seq<State>, events: seq<Event>, e: Event)
    requires IsRun(trace, events) && WellFormed(trace[|events|]) && Enabled(trace[|events|], e)
    ensures IsRun(trace + [Step(trace[|events|], e)], events + [e])
  {
  }

  /** When nothing is under way any more, nothing is left in the dictionary. */
  lemma NothingLeftBehind(trace: seq<State>, events: seq<Event>)
    requires IsRun(trace, events)
    requires forall j :: 0 <= j < |events| ==> !Reentrant(trace[j], events[j])
    requires AllFinished(trace[|events|])
    ensures trace[|events|].dictionary == map[]
    ensures forall p :: 0 <= p < |trace[|events|].promises| ==> trace[|events|].promises[p].settlement.Some?
  {
    OwnersThroughout(trace, events, |events|);
    var s := trace[|events|];
    assert forall k :: k in s.dictionary ==> HasOwner(s, k);
  }

  /** An executor that asks for its own key before it has returned: two runs for one key are in flight. */
  lemma ReentryHappens(k: Key) returns (trace: seq<State>, events: seq<Event>)
    ensures IsRun(trace, events) && events == [Event.Execute(k), Event.Execute(k)]
    ensures Reentrant(trace[1], events[1])
    ensures Running(trace[2], k, Synchronous(0)) && Running(trace[2], k, Synchronous(1))
    ensures !AtMostOneRunPerKey(trace[2])
  {
    var first := Step(INITIAL, Event.Execute(k));
    assert first == State(map[], [], [Starting(k)], [0]);
    var second := Step(first, Event.Execute(k));
    trace, events := [INITIAL, first, second], [Event.Execute(k), Event.Execute(k)];
    assert Running(second, k, Synchronous(0)) && Running(second, k, Synchronous(1));
  }
}
