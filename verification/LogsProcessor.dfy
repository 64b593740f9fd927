/**
 Burned swap fees (`logs.processor.service.ts`): two scans of transaction logs add up the
 MEX burned per timestamp, and the sums are written in batches of at most 100 records.
 */
module LogsProcessor {
  import opened Sequences
  import opened Wrappers

  datatype Event = LocalBurn(tokenID: string, amount: nat) | OtherEvent(identifier: string)

  /** The log of one transaction, by its identifier. */
  datatype Log = Log(id: string, timestamp: nat, events: seq<Event>)

  datatype Record = Record(series: string, key: string, value: nat, timestamp: nat)

  const BATCH: nat := 100

  // ----- what the scans should add up to -----------------------------------------------

  /** The MEX burned by the events of one transaction. */
  function Burned(mex: string, events: seq<Event>): nat {
    if events == [] then 0
    else
      var n := |events| - 1;
      Burned(mex, events[..n]) + if events[n].LocalBurn? && events[n].tokenID == mex then events[n].amount else 0
  }

  /** The MEX burned by the logs at one timestamp. */
  function BurnedAt(mex: string, logs: seq<Log>, t: nat): nat {
    if logs == [] then 0
    else
      var n := |logs| - 1;
      BurnedAt(mex, logs[..n], t) + if logs[n].timestamp == t then Burned(mex, logs[n].events) else 0
  }

  function BurnedInAll(mex: string, logs: seq<Log>): nat {
    if logs == [] then 0
    else BurnedInAll(mex, logs[..|logs| - 1]) + Burned(mex, logs[|logs| - 1].events)
  }

  lemma {:induction false} BurnedAtSplits(mex: string, a: seq<Log>, b: seq<Log>, t: nat)
    ensures BurnedAt(mex, a + b, t) == BurnedAt(mex, a, t) + BurnedAt(mex, b, t)
  {
    if b == [] {
      assert a + b == a;
    } else {
      var n := |b| - 1;
      assert (a + b)[..|a + b| - 1] == a + b[..n];
      BurnedAtSplits(mex, a, b[..n], t);
    }
  }

  /** Wherever an event stands, it adds what it burns of MEX and nothing for any other token. */
  lemma {:induction false} OneEventAdds(mex: string, a: seq<Event>, event: Event, b: seq<Event>)
    ensures Burned(mex, a + [event] + b)
         == Burned(mex, a + b)
            + match event
              case LocalBurn(tokenID, amount) => if tokenID == mex then amount else 0
              case OtherEvent(_) => 0
    ensures Burned(mex, []) == 0
  {
    if b == [] {
      assert (a + [event] + b)[..|a|] == a + b;
    } else {
      var n := |b| - 1;
      assert (a + [event] + b)[..|a| + 1 + n] == a + [event] + b[..n];
      assert (a + b)[..|a| + n] == a + b[..n];
      OneEventAdds(mex, a, event, b[..n]);
    }
  }

  /** The events without the burns of other tokens. */
  function MexOnly(mex: string, events: seq<Event>): seq<Event> {
    if events == [] then []
    else
      var n := |events| - 1;
      MexOnly(mex, events[..n]) + if events[n].LocalBurn? && events[n].tokenID != mex then [] else [events[n]]
  }

  function MexOnlyLogs(mex: string, logs: seq<Log>): seq<Log> {
    seq(|logs|, i requires 0 <= i < |logs| => logs[i].(events := MexOnly(mex, logs[i].events)))
  }

  lemma {:induction false} MexOnlyBurnsTheSame(mex: string, events: seq<Event>)
    ensures Burned(mex, MexOnly(mex, events)) == Burned(mex, events)
  {
    if events != [] {
      var n := |events| - 1;
      MexOnlyBurnsTheSame(mex, events[..n]);
      OneEventAdds(mex, MexOnly(mex, events[..n]), events[n], []);
      assert MexOnly(mex, events[..n]) + [] == MexOnly(mex, events[..n]);
      assert MexOnly(mex, events[..n]) + [events[n]] + [] == MexOnly(mex, events[..n]) + [events[n]];
    }
  }

  lemma {:induction false} MexOnlyLogsBurnTheSame(mex: string, logs: seq<Log>, t: nat)
    ensures BurnedAt(mex, MexOnlyLogs(mex, logs), t) == BurnedAt(mex, logs, t)
  {
    if logs != [] {
      var n := |logs| - 1;
      MexOnlyLogsBurnTheSame(mex, logs[..n], t);
      assert MexOnlyLogs(mex, logs)[..n] == MexOnlyLogs(mex, logs[..n]);
      MexOnlyBurnsTheSame(mex, logs[n].events);
    }
  }

  /** Deleting every burn of another token from the logs leaves the map as it is. */
  lemma OtherTokensIgnored(
    mex: string, logs: seq<Log>, order: seq<nat>, entries: map<nat, nat>, order': seq<nat>, entries': map<nat, nat>
  )
    requires Holds(mex, order, entries, logs)
    requires Holds(mex, order', entries', MexOnlyLogs(mex, logs))
    ensures entries == entries'
  {
    forall t
      ensures BurnedAt(mex, MexOnlyLogs(mex, logs), t) == BurnedAt(mex, logs, t)
    {
      MexOnlyLogsBurnTheSame(mex, logs, t);
    }
  }

  // ----- the map of fees ---------------------------------------------------------------

  /** The sum of the entries at the listed timestamps. */
  function SumOf(order: seq<nat>, entries: map<nat, nat>): nat
    requires forall t :: t in order ==> t in entries
  {
    if order == [] then 0 else SumOf(order[..|order| - 1], entries) + entries[order[|order| - 1]]
  }

  lemma {:induction false} SumIgnoresOthers(order: seq<nat>, entries: map<nat, nat>, t: nat, v: nat)
    requires forall u :: u in order ==> u in entries
    requires t !in order
    ensures SumOf(order, entries[t := v]) == SumOf(order, entries)
  {
    if order != [] {
      SumIgnoresOthers(order[..|order| - 1], entries, t, v);
    }
  }

  lemma {:induction false} SumUpdated(order: seq<nat>, entries: map<nat, nat>, t: nat, v: nat)
    requires forall u :: u in order ==> u in entries
    requires NoRepeats(order) && t in order
    ensures SumOf(order, entries[t := v]) + entries[t] == SumOf(order, entries) + v
  {
    var n := |order| - 1;
    assert order == order[..n] + [order[n]];
    if order[n] == t {
      assert t !in order[..n];
      SumIgnoresOthers(order[..n], entries, t, v);
    } else {
      SumUpdated(order[..n], entries, t, v);
    }
  }

  /** The map holds exactly the nonzero burns of the logs, each timestamp once, and all of them together. */
  ghost predicate Holds(mex: string, order: seq<nat>, entries: map<nat, nat>, logs: seq<Log>) {
    && NoRepeats(order)
    && (forall t :: t in order <==> t in entries)
    && (forall t :: t in entries <==> BurnedAt(mex, logs, t) > 0)
    && (forall t :: t in entries ==> entries[t] == BurnedAt(mex, logs, t))
    && SumOf(order, entries) == BurnedInAll(mex, logs)
  }

  lemma OneMoreLog(mex: string, logs: seq<Log>, log: Log, t: nat)
    ensures BurnedAt(mex, logs + [log], t)
         == BurnedAt(mex, logs, t) + if log.timestamp == t then Burned(mex, log.events) else 0
    ensures BurnedInAll(mex, logs + [log]) == BurnedInAll(mex, logs) + Burned(mex, log.events)
  {
    assert (logs + [log])[..|logs|] == logs;
  }

  lemma NothingBurned(mex: string, order: seq<nat>, entries: map<nat, nat>, logs: seq<Log>, log: Log)
    requires Holds(mex, order, entries, logs) && Burned(mex, log.events) == 0
    ensures Holds(mex, order, entries, logs + [log])
  {
    OneMoreLog(mex, logs, log, 0);
    forall t
      ensures BurnedAt(mex, logs + [log], t) == BurnedAt(mex, logs, t)
    {
      OneMoreLog(mex, logs, log, t);
    }
  }

  lemma EntryIncreased(mex: string, order: seq<nat>, entries: map<nat, nat>, logs: seq<Log>, log: Log)
    requires Holds(mex, order, entries, logs) && log.timestamp in entries
    ensures Holds(mex, order, entries[log.timestamp := entries[log.timestamp] + Burned(mex, log.events)], logs + [log])
  {
    var t := log.timestamp;
    SumUpdated(order, entries, t, entries[t] + Burned(mex, log.events));
    forall u
      ensures BurnedAt(mex, logs + [log], u) == BurnedAt(mex, logs, u) + if u == t then Burned(mex, log.events) else 0
    {
      OneMoreLog(mex, logs, log, u);
    }
    OneMoreLog(mex, logs, log, t);
  }

  lemma EntryAdded(mex: string, order: seq<nat>, entries: map<nat, nat>, logs: seq<Log>, log: Log)
    requires Holds(mex, order, entries, logs) && log.timestamp !in entries && Burned(mex, log.events) > 0
    ensures Holds(mex, order + [log.timestamp], entries[log.timestamp := Burned(mex, log.events)], logs + [log])
  {
    var t := log.timestamp;
    SumIgnoresOthers(order, entries, t, Burned(mex, log.events));
    assert (order + [t])[..|order|] == order;
    forall u
      ensures BurnedAt(mex, logs + [log], u) == BurnedAt(mex, logs, u) + if u == t then Burned(mex, log.events) else 0
    {
      OneMoreLog(mex, logs, log, u);
    }
    OneMoreLog(mex, logs, log, t);
  }

  // ----- transactions that both scans return -------------------------------------------

  /** What the map says was burned at a timestamp. */
  function FeeAt(entries: map<nat, nat>, t: nat): nat {
    if t in entries then entries[t] else 0
  }

  /** The list has every transaction of the two scans, each once. */
  ghost predicate Lists(each: seq<Log>, a: seq<Log>, b: seq<Log>) {
    NoRepeats(each) && SameMembers(each, a + b)
  }

  /** At the timestamp the map holds the burns of the transactions scanned, each counted once. */
  ghost predicate CountedOnce(mex: string, entries: map<nat, nat>, a: seq<Log>, b: seq<Log>, t: nat) {
    forall each :: Lists(each, a, b) ==> FeeAt(entries, t) == BurnedAt(mex, each, t)
  }

  /** Every transaction at the timestamp that both scans return burns no MEX. */
  ghost predicate SharedBurnNothing(mex: string, a: seq<Log>, b: seq<Log>, t: nat) {
    forall log :: log in a && log in b && log.timestamp == t ==> Burned(mex, log.events) == 0
  }

  /** The logs of b that are, or are not, in a. */
  function Filtered(a: seq<Log>, b: seq<Log>, shared: bool): seq<Log> {
    if b == [] then []
    else
      var n := |b| - 1;
      Filtered(a, b[..n], shared) + if (b[n] in a) == shared then [b[n]] else []
  }

  lemma {:induction false} FilteredMembers(a: seq<Log>, b: seq<Log>, shared: bool)
    ensures forall log :: log in Filtered(a, b, shared) <==> log in b && (log in a) == shared
    ensures NoRepeats(b) ==> NoRepeats(Filtered(a, b, shared))
  {
    if b != [] {
      var n := |b| - 1;
      FilteredMembers(a, b[..n], shared);
      assert b == b[..n] + [b[n]];
      assert NoRepeats(b) ==> b[n] !in b[..n];
    }
  }

  lemma {:induction false} FilteredBurns(mex: string, a: seq<Log>, b: seq<Log>, t: nat)
    ensures BurnedAt(mex, b, t) == BurnedAt(mex, Filtered(a, b, true), t) + BurnedAt(mex, Filtered(a, b, false), t)
  {
    if b != [] {
      var n := |b| - 1;
      FilteredBurns(mex, a, b[..n], t);
      OneMoreLog(mex, Filtered(a, b[..n], b[n] in a), b[n], t);
      assert Filtered(a, b[..n], !(b[n] in a)) + [] == Filtered(a, b[..n], !(b[n] in a));
    }
  }

  lemma {:induction false} NothingBurnedIff(mex: string, logs: seq<Log>, t: nat)
    ensures BurnedAt(mex, logs, t) == 0
       <==> forall log :: log in logs && log.timestamp == t ==> Burned(mex, log.events) == 0
  {
    if logs != [] {
      var n := |logs| - 1;
      NothingBurnedIff(mex, logs[..n], t);
      assert logs == logs[..n] + [logs[n]];
    }
  }

  lemma BurnedWithout(mex: string, logs: seq<Log>, i: nat, t: nat)
    requires i < |logs|
    ensures BurnedAt(mex, logs, t)
         == BurnedAt(mex, Without(logs, i), t) + if logs[i].timestamp == t then Burned(mex, logs[i].events) else 0
  {
    assert logs == (logs[..i] + [logs[i]]) + logs[i + 1..];
    BurnedAtSplits(mex, logs[..i] + [logs[i]], logs[i + 1..], t);
    BurnedAtSplits(mex, logs[..i], logs[i + 1..], t);
    OneMoreLog(mex, logs[..i], logs[i], t);
  }

  /** Lists of the same transactions, each once, burn the same. */
  lemma {:induction false} SameTransactionsSameBurn(mex: string, a: seq<Log>, b: seq<Log>, t: nat)
    requires NoRepeats(a) && NoRepeats(b) && SameMembers(a, b)
    ensures BurnedAt(mex, a, t) == BurnedAt(mex, b, t)
    decreases |a|
  {
    if a == [] {
      NothingBurnedIff(mex, b, t);
    } else {
      var n := |a| - 1;
      assert a[n] in b;
      var i :| 0 <= i < |b| && b[i] == a[n];
      WithoutMembers(a, n);
      WithoutMembers(b, i);
      SameTransactionsSameBurn(mex, Without(a, n), Without(b, i), t);
      BurnedWithout(mex, a, n, t);
      BurnedWithout(mex, b, i, t);
    }
  }

  /** The first scan and what the second adds to it list all transactions. */
  lemma ScansListed(a: seq<Log>, b: seq<Log>)
    requires NoRepeats(a) && NoRepeats(b)
    ensures Lists(a + Filtered(a, b, false), a, b)
  {
    FilteredMembers(a, b, false);
    ConcatNoRepeats(a, Filtered(a, b, false));
  }

  lemma ScansTogether(mex: string, a: seq<Log>, b: seq<Log>, t: nat)
    ensures BurnedAt(mex, a + b, t)
         == BurnedAt(mex, a + Filtered(a, b, false), t) + BurnedAt(mex, Filtered(a, b, true), t)
  {
    BurnedAtSplits(mex, a, b, t);
    BurnedAtSplits(mex, a, Filtered(a, b, false), t);
    FilteredBurns(mex, a, b, t);
  }

  lemma SharedBurnNothingIff(mex: string, a: seq<Log>, b: seq<Log>, t: nat)
    ensures BurnedAt(mex, Filtered(a, b, true), t) == 0 <==> SharedBurnNothing(mex, a, b, t)
  {
    FilteredMembers(a, b, true);
    NothingBurnedIff(mex, Filtered(a, b, true), t);
  }

  lemma AnyListBurnsTheSame(mex: string, each: seq<Log>, a: seq<Log>, b: seq<Log>, t: nat)
    requires Lists(each, a, b)
    ensures forall other :: Lists(other, a, b) ==> BurnedAt(mex, other, t) == BurnedAt(mex, each, t)
  {
    forall other | Lists(other, a, b)
      ensures BurnedAt(mex, other, t) == BurnedAt(mex, each, t)
    {
      SameTransactionsSameBurn(mex, other, each, t);
    }
  }

  /**
   Exactly when the two scans count every transaction once: at a timestamp the map holds the
   burns of the distinct transactions if and only if those that both scans return burn no MEX.
   */
  lemma CountedOnceIff(mex: string, order: seq<nat>, entries: map<nat, nat>, a: seq<Log>, b: seq<Log>, t: nat)
    requires Holds(mex, order, entries, a + b)
    requires NoRepeats(a) && NoRepeats(b)
    ensures CountedOnce(mex, entries, a, b, t) <==> SharedBurnNothing(mex, a, b, t)
  {
    FeeIsBurned(mex, order, entries, a + b, t);
    ScansTogether(mex, a, b, t);
    SharedBurnNothingIff(mex, a, b, t);
    ScansListed(a, b);
    AnyListBurnsTheSame(mex, a + Filtered(a, b, false), a, b, t);
  }

  lemma FeeIsBurned(mex: string, order: seq<nat>, entries: map<nat, nat>, logs: seq<Log>, t: nat)
    requires Holds(mex, order, entries, logs)
    ensures FeeAt(entries, t) == BurnedAt(mex, logs, t)
  {
    assert t !in entries ==> !(BurnedAt(mex, logs, t) > 0);
  }

  /** The scan for an event returns the logs that have it. */
  ghost predicate FoundBy(log: Log, event: string) {
    OtherEvent(event) in log.events
  }

  function SwapsBothWays(): seq<Event> {
    [OtherEvent("swapTokensFixedInput"), OtherEvent("swapTokensFixedOutput")]
  }

  /** A transaction that swapped both ways, so that both scans return it, and burned 5. */
  function SwappedBothWays(mex: string): Log {
    Log("tx", 7, SwapsBothWays() + [LocalBurn(mex, 5)])
  }

  lemma SwapsBurnNothing(mex: string)
    ensures Burned(mex, SwapsBothWays()) == 0
  {
    var first := [OtherEvent("swapTokensFixedInput")];
    assert SwapsBothWays()[..1] == first;
    assert first[..0] == [];
    assert Burned(mex, first) == 0;
  }

  lemma BurnsFive(mex: string)
    ensures Burned(mex, SwappedBothWays(mex).events) == 5
  {
    SwapsBurnNothing(mex);
    assert (SwapsBothWays() + [LocalBurn(mex, 5)])[..2] == SwapsBothWays();
  }

  lemma FoundByBothScans(mex: string)
    ensures FoundBy(SwappedBothWays(mex), "swapTokensFixedInput")
    ensures FoundBy(SwappedBothWays(mex), "swapTokensFixedOutput")
  {
    assert SwappedBothWays(mex).events[0] == OtherEvent("swapTokensFixedInput");
    assert SwappedBothWays(mex).events[1] == OtherEvent("swapTokensFixedOutput");
  }

  /** A transaction in both scans is added twice. */
  lemma AddedTwice(mex: string, log: Log)
    requires Burned(mex, log.events) > 0
    ensures var (t, burned) := (log.timestamp, Burned(mex, log.events));
            && Holds(mex, [t], map[t := 2 * burned], [log] + [log])
            && BurnedAt(mex, [log], t) == burned
  {
    var (t, burned) := (log.timestamp, Burned(mex, log.events));
    assert Holds(mex, [], map[], []);
    EntryAdded(mex, [], map[], [], log);
    OneMoreLog(mex, [], log, t);
    assert [] + [t] == [t] && [] + [log] == [log];
    EntryIncreased(mex, [t], map[t := burned], [log], log);
    assert map[t := burned][t := 2 * burned] == map[t := 2 * burned];
  }

  /** The transaction that swapped both ways burned 5, and the map says 10. */
  lemma SharedTransactionCountsTwice(mex: string)
    ensures var log := SwappedBothWays(mex);
            && FoundBy(log, "swapTokensFixedInput") && FoundBy(log, "swapTokensFixedOutput")
            && Holds(mex, [7], map[7 := 10], [log] + [log])
            && BurnedAt(mex, [log], 7) == 5
            && !CountedOnce(mex, map[7 := 10], [log], [log], 7)
  {
    var log := SwappedBothWays(mex);
    FoundByBothScans(mex);
    BurnsFive(mex);
    AddedTwice(mex, log);
    assert Lists([log], [log], [log]);
  }

  // ----- writing -----------------------------------------------------------------------

  /** The records of a map in the order of its keys. */
  function RecordsOf(mex: string, measure: string, order: seq<nat>, entries: map<nat, nat>): seq<Record>
    requires forall t :: t in order ==> t in entries
  {
    seq(|order|, i requires 0 <= i < |order| => Record(mex, measure, entries[order[i]], order[i]))
  }

  lemma OneMoreRecord(all: seq<Record>, i: nat, written: seq<Record>, records: seq<Record>)
    requires i < |all| && written + records == all[..i]
    ensures written + (records + [all[i]]) == all[..i + 1]
  {
  }

  function Flatten<T>(batches: seq<seq<T>>): seq<T> {
    if batches == [] then [] else Flatten(batches[..|batches| - 1]) + batches[|batches| - 1]
  }

  lemma FlattenOneMore<T>(batches: seq<seq<T>>, batch: seq<T>)
    ensures Flatten(batches + [batch]) == Flatten(batches) + batch
  {
    assert (batches + [batch])[..|batches|] == batches;
  }

  /** How the analytics service answers: not written to at all, or accepting the pushes it accepts. */
  datatype Analytics = Analytics(enabled: bool, accepts: seq<Record> -> bool)

  /** The number of records a push reports; nothing when the service throws. */
  function PushRecords(analytics: Analytics, records: seq<Record>): Option<nat> {
    if !analytics.enabled then Some(0)
    else if analytics.accepts(records) then Some(|records|)
    else None
  }

  /** `+=` on a number that may have become NaN. */
  function Plus(total: Option<nat>, more: Option<nat>): Option<nat> {
    if total.Some? && more.Some? then Some(total.value + more.value) else None
  }

  /** What the total of some pushes must be. */
  function Reported(analytics: Analytics, batches: seq<seq<Record>>): Option<nat> {
    if !analytics.enabled then Some(0)
    else if forall b :: b in batches ==> analytics.accepts(b) then Some(|Flatten(batches)|)
    else None
  }

  lemma ReportedOneMore(analytics: Analytics, batches: seq<seq<Record>>, batch: seq<Record>)
    ensures Reported(analytics, batches + [batch]) == Plus(Reported(analytics, batches), PushRecords(analytics, batch))
  {
    FlattenOneMore(batches, batch);
    assert forall b :: b in batches ==> b in batches + [batch];
    assert batch in batches + [batch];
  }

  lemma BatchWritten(analytics: Analytics, batches: seq<seq<Record>>, batch: seq<Record>)
    ensures Flatten(batches + [batch]) == Flatten(batches) + batch
    ensures Reported(analytics, batches + [batch]) == Plus(Reported(analytics, batches), PushRecords(analytics, batch))
  {
    FlattenOneMore(batches, batch);
    ReportedOneMore(analytics, batches, batch);
  }

  // ----- the service -------------------------------------------------------------------

  class LogsProcessorService {
    const mexTokenID: string
    /** `feeMap`, with the order in which its keys were inserted. */
    var feeMap: map<nat, nat>
    var feeOrder: seq<nat>

    constructor (mexTokenID: string)
      ensures this.mexTokenID == mexTokenID && feeMap == map[] && feeOrder == []
    {
      this.mexTokenID, feeMap, feeOrder := mexTokenID, map[], [];
    }

    method GetBurnedFee(burns: seq<Event>) returns (fee: nat)
      ensures fee == Burned(mexTokenID, burns)
    {
      fee := 0;
      for i := 0 to |burns|
        invariant fee == Burned(mexTokenID, burns[..i])
      {
        assert burns[..i + 1][..i] == burns[..i];
        if burns[i].LocalBurn? && burns[i].tokenID == mexTokenID {
          fee := fee + burns[i].amount;
        }
      }
      assert burns[..|burns|] == burns;
    }

    method ProcessSwapEvents(events: seq<Event>, timestamp: nat, ghost logs: seq<Log>, ghost log: Log)
      requires Holds(mexTokenID, feeOrder, feeMap, logs)
      requires log.events == events && log.timestamp == timestamp
      modifies this
      ensures Holds(mexTokenID, feeOrder, feeMap, logs + [log])
    {
      var esdtLocalBurnEvents := [];
      for i := 0 to |events|
        invariant Burned(mexTokenID, esdtLocalBurnEvents) == Burned(mexTokenID, events[..i])
      {
        assert events[..i + 1][..i] == events[..i];
        if events[i].LocalBurn? {
          assert (esdtLocalBurnEvents + [events[i]])[..|esdtLocalBurnEvents|] == esdtLocalBurnEvents;
          esdtLocalBurnEvents := esdtLocalBurnEvents + [events[i]];
        }
      }
      assert events[..|events|] == events;
      AddFee(esdtLocalBurnEvents, timestamp, logs, log);
    }

    method AddFee(burns: seq<Event>, timestamp: nat, ghost logs: seq<Log>, ghost log: Log)
      requires Holds(mexTokenID, feeOrder, feeMap, logs)
      requires log.timestamp == timestamp && Burned(mexTokenID, burns) == Burned(mexTokenID, log.events)
      modifies this
      ensures Holds(mexTokenID, feeOrder, feeMap, logs + [log])
    {
      var feeBurned := GetBurnedFee(burns);
      if feeBurned == 0 {
        NothingBurned(mexTokenID, feeOrder, feeMap, logs, log);
        return;
      }
      if timestamp in feeMap {
        EntryIncreased(mexTokenID, feeOrder, feeMap, logs, log);
        feeMap := feeMap[timestamp := feeMap[timestamp] + feeBurned];
      } else {
        EntryAdded(mexTokenID, feeOrder, feeMap, logs, log);
        feeMap := feeMap[timestamp := feeBurned];
        feeOrder := feeOrder + [timestamp];
      }
    }

    method GetSwapLogs(transactionsLogs: seq<Log>, ghost logs: seq<Log>)
      requires Holds(mexTokenID, feeOrder, feeMap, logs)
      modifies this
      ensures Holds(mexTokenID, feeOrder, feeMap, logs + transactionsLogs)
    {
      assert logs + transactionsLogs[..0] == logs;
      for i := 0 to |transactionsLogs|
        invariant Holds(mexTokenID, feeOrder, feeMap, logs + transactionsLogs[..i])
      {
        var log := transactionsLogs[i];
        ProcessSwapEvents(log.events, log.timestamp, logs + transactionsLogs[..i], log);
        assert logs + transactionsLogs[..i + 1] == (logs + transactionsLogs[..i]) + [log];
      }
      assert transactionsLogs[..|transactionsLogs|] == transactionsLogs;
    }

    /** Every record is written once, in order, in batches of 100 with a shorter last one. */
    method WriteRecords(measure: string, analytics: Analytics) returns (batches: seq<seq<Record>>, total: Option<nat>)
      requires forall t :: t in feeOrder ==> t in feeMap
      ensures Flatten(batches) == RecordsOf(mexTokenID, measure, feeOrder, feeMap)
      ensures |Flatten(batches)| == |feeOrder|
      ensures forall i :: 0 <= i < |feeOrder| ==>
                Flatten(batches)[i] == Record(mexTokenID, measure, feeMap[feeOrder[i]], feeOrder[i])
      ensures forall i :: 0 <= i < |batches| ==>
                0 < |batches[i]| <= 100 && (i + 1 < |batches| ==> |batches[i]| == 100)
      ensures total == Reported(analytics, batches)
      ensures total == if !analytics.enabled then Some(0)
                       else if forall b :: b in batches ==> analytics.accepts(b) then Some(|feeOrder|)
                       else None
    {
      var records: seq<Record> := [];
      batches, total := [], Some(0);
      ghost var all := RecordsOf(mexTokenID, measure, feeOrder, feeMap);
      for i := 0 to |feeOrder|
        invariant Flatten(batches) + records == all[..i]
        invariant |records| < BATCH
        invariant forall j :: 0 <= j < |batches| ==> |batches[j]| == BATCH
        invariant total == Reported(analytics, batches)
      {
        var timestamp := feeOrder[i];
        assert timestamp in feeOrder;
        OneMoreRecord(all, i, Flatten(batches), records);
        records := records + [Record(mexTokenID, measure, feeMap[timestamp], timestamp)];
        if |records| == BATCH {
          BatchWritten(analytics, batches, records);
          total := Plus(total, PushRecords(analytics, records));
          batches := batches + [records];
          records := [];
        }
      }
      if |records| > 0 {
        BatchWritten(analytics, batches, records);
        total := Plus(total, PushRecords(analytics, records));
        batches := batches + [records];
      }
    }

    /** Both scans into an empty map, and the result written out. */
    method GetFeeBurned(fixedInput: seq<Log>, fixedOutput: seq<Log>, analytics: Analytics)
      returns (batches: seq<seq<Record>>, total: Option<nat>)
      modifies this
      ensures Holds(mexTokenID, feeOrder, feeMap, fixedInput + fixedOutput)
      ensures NoRepeats(fixedInput) && NoRepeats(fixedOutput) ==>
                forall t :: CountedOnce(mexTokenID, feeMap, fixedInput, fixedOutput, t)
                            <==> SharedBurnNothing(mexTokenID, fixedInput, fixedOutput, t)
      ensures forall order, entries ::
                Holds(mexTokenID, order, entries, MexOnlyLogs(mexTokenID, fixedInput + fixedOutput)) ==>
                  entries == feeMap
      ensures Flatten(batches) == RecordsOf(mexTokenID, "feeBurned", feeOrder, feeMap)
      ensures forall i :: 0 <= i < |batches| ==>
                0 < |batches[i]| <= 100 && (i + 1 < |batches| ==> |batches[i]| == 100)
      ensures total == Reported(analytics, batches)
    {
      feeMap, feeOrder := map[], [];
      GetSwapLogs(fixedInput, []);
      assert [] + fixedInput == fixedInput;
      GetSwapLogs(fixedOutput, fixedInput);
      if NoRepeats(fixedInput) && NoRepeats(fixedOutput) {
        forall t
          ensures CountedOnce(mexTokenID, feeMap, fixedInput, fixedOutput, t)
             <==> SharedBurnNothing(mexTokenID, fixedInput, fixedOutput, t)
        {
          CountedOnceIff(mexTokenID, feeOrder, feeMap, fixedInput, fixedOutput, t);
        }
      }
      forall order, entries | Holds(mexTokenID, order, entries, MexOnlyLogs(mexTokenID, fixedInput + fixedOutput))
        ensures entries == feeMap
      {
        OtherTokensIgnored(mexTokenID, fixedInput + fixedOutput, feeOrder, feeMap, order, entries);
      }
      batches, total := WriteRecords("feeBurned", analytics);
    }
  }

  // ----- what is written is what was burned --------------------------------------------

  function SumOfRecords(records: seq<Record>): nat {
    if records == [] then 0 else SumOfRecords(records[..|records| - 1]) + records[|records| - 1].value
  }

  lemma {:induction false} RecordsSum(mex: string, measure: string, order: seq<nat>, entries: map<nat, nat>)
    requires forall t :: t in order ==> t in entries
    ensures SumOfRecords(RecordsOf(mex, measure, order, entries)) == SumOf(order, entries)
  {
    if order != [] {
      var n := |order| - 1;
      RecordsSum(mex, measure, order[..n], entries);
      assert RecordsOf(mex, measure, order, entries)[..n] == RecordsOf(mex, measure, order[..n], entries);
    }
  }

  /**
   Conservation from logs to storage: the written values add up to all MEX burned, each
   timestamp is written at most once and with exactly its own burns, and the reported total
   is the number of timestamps whenever every push is accepted.
   */
  lemma WrittenIsBurned(
    mex: string, order: seq<nat>, entries: map<nat, nat>, logs: seq<Log>, batches: seq<seq<Record>>,
    analytics: Analytics
  )
    requires Holds(mex, order, entries, logs)
    requires Flatten(batches) == RecordsOf(mex, "feeBurned", order, entries)
    ensures SumOfRecords(Flatten(batches)) == BurnedInAll(mex, logs)
    ensures forall i, j :: 0 <= i < j < |Flatten(batches)| ==>
              Flatten(batches)[i].timestamp != Flatten(batches)[j].timestamp
    ensures forall t :: BurnedAt(mex, logs, t) > 0
                        <==> Record(mex, "feeBurned", BurnedAt(mex, logs, t), t) in Flatten(batches)
    ensures analytics.enabled && (forall b :: b in batches ==> analytics.accepts(b)) ==>
              Reported(analytics, batches) == Some(|entries|)
  {
    RecordsSum(mex, "feeBurned", order, entries);
    var records := RecordsOf(mex, "feeBurned", order, entries);
    forall t
      ensures BurnedAt(mex, logs, t) > 0 <==> Record(mex, "feeBurned", BurnedAt(mex, logs, t), t) in records
    {
      if t in entries {
        var i :| 0 <= i < |order| && order[i] == t;
        assert records[i] == Record(mex, "feeBurned", BurnedAt(mex, logs, t), t);
      }
    }
    KeysCounted(order, entries);
  }

  lemma {:induction false} KeysCounted(order: seq<nat>, entries: map<nat, nat>)
    requires NoRepeats(order) && forall t :: t in order <==> t in entries
    ensures |order| == |entries|
  {
    if order == [] {
      assert entries == map[];
    } else {
      var n := |order| - 1;
      var fewer := entries - {order[n]};
      assert order == order[..n] + [order[n]];
      KeysCounted(order[..n], fewer);
      assert entries.Keys == fewer.Keys + {order[n]};
      assert |entries| == |entries.Keys| && |fewer| == |fewer.Keys|;
    }
  }
}
