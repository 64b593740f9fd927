/**
 Merging the analytics of one batch of events (`updateIngestData` and the loop of
 `consumeEvents` in `rabbitmq.consumer.ts`): volumes and fees add up, everything else keeps
 its last value.
 */
module IngestData {
  import opened Sequences
  import opened Wrappers

  /** Decimal strings; BigNumber's `plus` is exact on them. */
  type Measures = map<string, real>

  type EventData = map<string, Measures>

  function ToLower(s: string): string {
    seq(|s|, i requires 0 <= i < |s| => if 'A' <= s[i] <= 'Z' then s[i] - 'A' + 'a' else s[i])
  }

  predicate Includes(s: string, part: string)
    requires part != ""
  {
    |part| <= |s| && (part <= s || Includes(s[1..], part))
  }

  ghost predicate PartAt(s: string, i: nat, part: string) {
    i + |part| <= |s| && s[i..i + |part|] == part
  }

  lemma {:induction false} PartIsIncluded(s: string, i: nat, part: string)
    requires part != "" && PartAt(s, i, part)
    ensures Includes(s, part)
  {
    if i > 0 {
      assert s[1..][i - 1..i - 1 + |part|] == s[i..i + |part|];
      PartIsIncluded(s[1..], i - 1, part);
    }
  }

  lemma {:induction false} IncludedPart(s: string, part: string) returns (i: nat)
    requires part != "" && Includes(s, part)
    ensures PartAt(s, i, part)
  {
    if part <= s {
      i := 0;
    } else {
      var j := IncludedPart(s[1..], part);
      i := j + 1;
      assert s[1..][j..j + |part|] == s[i..i + |part|];
    }
  }

  /** `includes` is about any position of the string. */
  lemma IncludesIffInfix(s: string, part: string)
    requires part != ""
    ensures Includes(s, part) <==> exists before, after :: s == before + part + after
  {
    if Includes(s, part) {
      var i := IncludedPart(s, part);
      assert s == s[..i] + part + s[i + |part|..];
    }
    if before, after :| s == before + part + after {
      assert s[|before|..|before| + |part|] == part;
      PartIsIncluded(s, |before|, part);
    }
  }

  /** Volumes and fees are accumulated. */
  predicate IsAdditive(measure: string) {
    Includes(ToLower(measure), "volume") || Includes(ToLower(measure), "fees")
  }

  /** The word stands at position i of the name, each of its letters in lower or upper case. */
  ghost predicate SpelledAt(name: string, i: nat, lower: string, upper: string)
    requires |lower| == |upper|
  {
    i + |lower| <= |name| && forall k :: 0 <= k < |lower| ==> name[i + k] == lower[k] || name[i + k] == upper[k]
  }

  ghost predicate Spelled(name: string, lower: string, upper: string)
    requires |lower| == |upper|
  {
    exists i: nat :: SpelledAt(name, i, lower, upper)
  }

  /** upper is lower in capital letters. */
  predicate SameWord(lower: string, upper: string) {
    && |lower| == |upper|
    && forall k :: 0 <= k < |lower| ==> 'a' <= lower[k] <= 'z' && upper[k] == lower[k] - 'a' + 'A'
  }

  lemma SpelledIsPart(name: string, i: nat, lower: string, upper: string)
    requires SameWord(lower, upper)
    ensures SpelledAt(name, i, lower, upper) <==> PartAt(ToLower(name), i, lower)
  {
    if i + |lower| <= |name| {
      var part := ToLower(name)[i..i + |lower|];
      forall k | 0 <= k < |lower|
        ensures part[k] == lower[k] <==> name[i + k] == lower[k] || name[i + k] == upper[k]
      {
        LetterInEitherCase(name[i + k], lower[k], upper[k]);
      }
      if part == lower {
        forall k | 0 <= k < |lower|
          ensures name[i + k] == lower[k] || name[i + k] == upper[k]
        {
          assert part[k] == lower[k];
        }
      }
    }
  }

  lemma LetterInEitherCase(c: char, lower: char, upper: char)
    requires 'a' <= lower <= 'z' && upper == lower - 'a' + 'A'
    ensures (if 'A' <= c <= 'Z' then c - 'A' + 'a' else c) == lower <==> c == lower || c == upper
  {
  }

  lemma IncludesIffSpelled(name: string, lower: string, upper: string)
    requires SameWord(lower, upper) && lower != ""
    ensures Includes(ToLower(name), lower) <==> Spelled(name, lower, upper)
  {
    if Includes(ToLower(name), lower) {
      var i := IncludedPart(ToLower(name), lower);
      SpelledIsPart(name, i, lower, upper);
    }
    if i: nat :| SpelledAt(name, i, lower, upper) {
      SpelledIsPart(name, i, lower, upper);
      PartIsIncluded(ToLower(name), i, lower);
    }
  }

  /** The measures that are accumulated: those that spell "volume" or "fees" at some position, in either case. */
  lemma AdditiveIffSpelled(measure: string)
    ensures IsAdditive(measure) <==> Spelled(measure, "volume", "VOLUME") || Spelled(measure, "fees", "FEES")
  {
    IncludesIffSpelled(measure, "volume", "VOLUME");
    IncludesIffSpelled(measure, "fees", "FEES");
  }

  // ----- one update --------------------------------------------------------------------

  /** The value of a measure of a series, if there is one. */
  function Lookup(data: EventData, series: string, measure: string): Option<real> {
    if series in data && measure in data[series] then Some(data[series][measure]) else None
  }

  /** What an old and a new value of a measure merge to. */
  function MergeValue(measure: string, before: Option<real>, after: Option<real>): Option<real> {
    match (before, after)
    case (_, None) => before
    case (None, Some(_)) => after
    case (Some(x), Some(y)) => Some(if IsAdditive(measure) then x + y else y)
  }

  /** The result holds every series of both, and every measure merged. */
  ghost predicate IsMerge(before: EventData, after: EventData, merged: EventData) {
    && merged.Keys == before.Keys + after.Keys
    && forall s, m :: Lookup(merged, s, m) == MergeValue(m, Lookup(before, s, m), Lookup(after, s, m))
  }

  lemma SameLookupsSameData(a: EventData, b: EventData)
    requires a.Keys == b.Keys
    requires forall s, m :: Lookup(a, s, m) == Lookup(b, s, m)
    ensures a == b
  {
    forall s | s in a
      ensures a[s] == b[s]
    {
      forall m
        ensures m in a[s] <==> m in b[s]
        ensures m in a[s] && m in b[s] ==> a[s][m] == b[s][m]
      {
        assert Lookup(a, s, m) == Lookup(b, s, m);
      }
    }
  }

  class RabbitMqConsumer {
    var data: EventData

    constructor ()
      ensures data == map[]
    {
      data := map[];
    }

    method UpdateMeasures(series: string, measures: Measures)
      requires series in data
      modifies this
      ensures data.Keys == old(data).Keys
      ensures forall s, m :: Lookup(data, s, m)
                          == MergeValue(
                               m, Lookup(old(data), s, m),
                               if s == series then Lookup(map[series := measures], s, m) else None)
    {
      var keys := measures.Keys;
      while keys != {}
        invariant keys <= measures.Keys
        invariant data.Keys == old(data).Keys
        invariant forall s, m :: Lookup(data, s, m)
                              == if s == series && m in measures && m !in keys
                                 then MergeValue(m, Lookup(old(data), s, m), Some(measures[m]))
                                 else Lookup(old(data), s, m)
        decreases keys
      {
        var measure :| measure in keys;
        keys := keys - {measure};
        var value := measures[measure];
        if IsAdditive(measure) && measure in data[series] {
          value := data[series][measure] + value;
        }
        data := data[series := data[series][measure := value]];
      }
    }

    method UpdateIngestData(eventData: EventData)
      modifies this
      ensures IsMerge(old(data), eventData, data)
    {
      var keys := eventData.Keys;
      while keys != {}
        invariant keys <= eventData.Keys
        invariant data.Keys == old(data).Keys + (eventData.Keys - keys)
        invariant forall s, m :: Lookup(data, s, m)
                              == if s in keys then Lookup(old(data), s, m)
                                 else MergeValue(m, Lookup(old(data), s, m), Lookup(eventData, s, m))
        decreases keys
      {
        var series :| series in keys;
        keys := keys - {series};
        if series !in data {
          data := data[series := map[]];
        }
        UpdateMeasures(series, eventData[series]);
      }
    }

    /** The batch starts from nothing, whatever an earlier batch has left. */
    method ConsumeEvents(events: seq<EventData>)
      modifies this
      ensures data == Merged(events)
    {
      data := map[];
      for i := 0 to |events|
        invariant data == Merged(events[..i])
      {
        assert events[..i + 1][..i] == events[..i];
        UpdateIngestData(events[i]);
        MergeIsUnique(Merged(events[..i]), events[i], data);
      }
      assert events[..|events|] == events;
    }
  }

  // ----- a batch -----------------------------------------------------------------------

  function Merge(before: EventData, after: EventData): (merged: EventData)
    ensures IsMerge(before, after, merged)
  {
    map s | s in before.Keys + after.Keys ::
      var (earlier, later) := (if s in before then before[s] else map[], if s in after then after[s] else map[]);
      map m | m in earlier.Keys + later.Keys ::
        if m in earlier && m in later && IsAdditive(m) then earlier[m] + later[m]
        else if m in later then later[m]
        else earlier[m]
  }

  lemma MergeIsUnique(before: EventData, after: EventData, merged: EventData)
    requires IsMerge(before, after, merged)
    ensures merged == Merge(before, after)
  {
    SameLookupsSameData(merged, Merge(before, after));
  }

  function Merged(events: seq<EventData>): EventData {
    if events == [] then map[]
    else Merge(Merged(events[..|events| - 1]), events[|events| - 1])
  }

  /**
   What one more event does to a batch: a measure that spells "volume" or "fees" grows by the
   event's value, any other takes it, and what the event does not have stays.
   */
  lemma OneMoreEvent(events: seq<EventData>, event: EventData, series: string, measure: string)
    ensures Merged([]) == map[]
    ensures var (before, value) := (Lookup(Merged(events), series, measure), Lookup(event, series, measure));
            var additive := Spelled(measure, "volume", "VOLUME") || Spelled(measure, "fees", "FEES");
            Lookup(Merged(events + [event]), series, measure)
            == if value.None? then before
               else if before.Some? && additive then Some(before.value + value.value)
               else value
  {
    AdditiveIffSpelled(measure);
    assert (events + [event])[..|events|] == events;
  }

  lemma MergesAssociate(
    a: EventData, b: EventData, c: EventData, ab: EventData, bc: EventData, left: EventData, right: EventData
  )
    requires IsMerge(a, b, ab) && IsMerge(ab, c, left)
    requires IsMerge(b, c, bc) && IsMerge(a, bc, right)
    ensures left == right
  {
    forall s, m
      ensures Lookup(left, s, m) == Lookup(right, s, m)
    {
      assert Lookup(left, s, m) == MergeValue(m, Lookup(ab, s, m), Lookup(c, s, m));
      assert Lookup(right, s, m) == MergeValue(m, Lookup(a, s, m), Lookup(bc, s, m));
    }
    SameLookupsSameData(left, right);
  }

  lemma MergeAssociates(a: EventData, b: EventData, c: EventData)
    ensures Merge(Merge(a, b), c) == Merge(a, Merge(b, c))
  {
    var ab, bc := Merge(a, b), Merge(b, c);
    MergesAssociate(a, b, c, ab, bc, Merge(ab, c), Merge(a, bc));
  }

  /** Merging is a homomorphism: two halves merged separately and then together give the whole batch. */
  lemma {:induction false} HalvesMerge(a: seq<EventData>, b: seq<EventData>)
    ensures Merged(a + b) == Merge(Merged(a), Merged(b))
  {
    if b == [] {
      assert a + b == a;
      SameLookupsSameData(Merge(Merged(a), map[]), Merged(a));
    } else {
      var n := |b| - 1;
      assert (a + b)[..|a + b| - 1] == a + b[..n];
      HalvesMerge(a, b[..n]);
      MergeAssociates(Merged(a), Merged(b[..n]), b[n]);
    }
  }

  /** The sum of a measure over a batch, and whether any event has it. */
  function Total(events: seq<EventData>, series: string, measure: string): real {
    if events == [] then 0.0
    else
      var value := Lookup(events[|events| - 1], series, measure);
      Total(events[..|events| - 1], series, measure) + if value.Some? then value.value else 0.0
  }

  ghost predicate Mentioned(events: seq<EventData>, series: string, measure: string) {
    exists e :: e in events && Lookup(e, series, measure).Some?
  }

  /** The value of the last event that has the measure. */
  function Latest(events: seq<EventData>, series: string, measure: string): Option<real> {
    if events == [] then None
    else
      var value := Lookup(events[|events| - 1], series, measure);
      if value.Some? then value else Latest(events[..|events| - 1], series, measure)
  }

  /** After a batch every volume and fee is its sum, and every other measure its last value. */
  lemma {:induction false} BatchValues(events: seq<EventData>, series: string, measure: string)
    ensures var value := Lookup(Merged(events), series, measure);
            && (value.Some? <==> Mentioned(events, series, measure))
            && (IsAdditive(measure) && value.Some? ==> value.value == Total(events, series, measure))
            && (!IsAdditive(measure) ==> value == Latest(events, series, measure))
    ensures !Mentioned(events, series, measure) ==> Total(events, series, measure) == 0.0
  {
    if events != [] {
      var n := |events| - 1;
      BatchValues(events[..n], series, measure);
      assert events == events[..n] + [events[n]];
      assert Mentioned(events, series, measure)
        <==> Mentioned(events[..n], series, measure) || Lookup(events[n], series, measure).Some?;
      assert Lookup(Merged(events), series, measure)
          == MergeValue(measure, Lookup(Merged(events[..n]), series, measure), Lookup(events[n], series, measure));
    }
  }

  /** A measure with "volume", "Volume" or "fees" in its name, as the handlers name them, is its sum after a batch. */
  lemma VolumesAndFeesAreSums(events: seq<EventData>, series: string, before: string, word: string, after: string)
    requires word in {"volume", "Volume", "fees"} && Mentioned(events, series, before + word + after)
    ensures Lookup(Merged(events), series, before + word + after)
         == Some(Total(events, series, before + word + after))
  {
    var measure := before + word + after;
    assert measure[|before|..|before| + |word|] == word;
    if word == "fees" {
      assert SpelledAt(measure, |before|, "fees", "FEES");
    } else {
      assert SpelledAt(measure, |before|, "volume", "VOLUME");
    }
    AdditiveIffSpelled(measure);
    BatchValues(events, series, measure);
  }

  /** The handlers' other measures, of prices, locked values and liquidity, are their last value. */
  lemma OthersAreLatest(events: seq<EventData>, series: string, measure: string)
    requires measure in {"priceUSD", "lockedValue", "lockedValueUSD", "liquidity"}
    ensures Lookup(Merged(events), series, measure) == Latest(events, series, measure)
  {
    WithoutTheLetters(measure);
    BatchValues(events, series, measure);
  }

  lemma WithoutTheLetters(measure: string)
    requires forall c :: c in measure ==> c !in {'m', 'M', 'f', 'F'}
    ensures !IsAdditive(measure)
  {
    AdditiveIffSpelled(measure);
    NotSpelled(measure, "volume", "VOLUME", 4);
    NotSpelled(measure, "fees", "FEES", 0);
  }

  /** A word with a letter that is nowhere in the name is not spelled in it. */
  lemma NotSpelled(name: string, lower: string, upper: string, k: nat)
    requires k < |lower| == |upper|
    requires forall c :: c in name ==> c != lower[k] && c != upper[k]
    ensures !Spelled(name, lower, upper)
  {
    forall i: nat
      ensures !SpelledAt(name, i, lower, upper)
    {
      assert i + |lower| <= |name| ==> name[i + k] in name;
    }
  }

  lemma {:induction false} TotalSplits(a: seq<EventData>, b: seq<EventData>, series: string, measure: string)
    ensures Total(a + b, series, measure) == Total(a, series, measure) + Total(b, series, measure)
  {
    if b == [] {
      assert a + b == a;
    } else {
      var n := |b| - 1;
      assert (a + b)[..|a + b| - 1] == a + b[..n];
      TotalSplits(a, b[..n], series, measure);
    }
  }

  lemma {:induction false} TotalIgnoresOrder(a: seq<EventData>, b: seq<EventData>, series: string, measure: string)
    requires multiset(a) == multiset(b)
    ensures Total(a, series, measure) == Total(b, series, measure)
  {
    if a == [] {
      assert |b| == |multiset(b)| == |multiset(a)| == |a|;
    } else {
      var n := |a| - 1;
      assert a[n] in multiset(b);
      var i :| 0 <= i < |b| && b[i] == a[n];
      SameRest(a, b, i);
      TotalIgnoresOrder(a[..n], Without(b, i), series, measure);
      TotalWithout(b, i, series, measure);
    }
  }

  lemma SameRest<T>(a: seq<T>, b: seq<T>, i: nat)
    requires multiset(a) == multiset(b)
    requires a != [] && i < |b| && b[i] == a[|a| - 1]
    ensures multiset(a[..|a| - 1]) == multiset(Without(b, i))
  {
    assert Without(a, |a| - 1) == a[..|a| - 1];
    WithoutCounts(a, |a| - 1);
    WithoutCounts(b, i);
    assert multiset(a[..|a| - 1]) == multiset(a) - multiset{b[i]};
    assert multiset(Without(b, i)) == multiset(b) - multiset{b[i]};
  }

  lemma TotalWithout(b: seq<EventData>, i: nat, series: string, measure: string)
    requires i < |b|
    ensures var value := Lookup(b[i], series, measure);
            Total(b, series, measure)
            == Total(Without(b, i), series, measure) + if value.Some? then value.value else 0.0
  {
    assert b == (b[..i] + [b[i]]) + b[i + 1..];
    TotalSplits(b[..i] + [b[i]], b[i + 1..], series, measure);
    TotalSplits(b[..i], b[i + 1..], series, measure);
    assert (b[..i] + [b[i]])[..i] == b[..i];
  }

  /** Reordering a batch leaves every volume and fee as it was. */
  lemma OrderDoesNotMatterForSums(a: seq<EventData>, b: seq<EventData>, series: string, measure: string)
    requires multiset(a) == multiset(b) && IsAdditive(measure)
    ensures Lookup(Merged(a), series, measure) == Lookup(Merged(b), series, measure)
  {
    BatchValues(a, series, measure);
    BatchValues(b, series, measure);
    TotalIgnoresOrder(a, b, series, measure);
    assert forall e :: e in a <==> e in multiset(a);
    assert forall e :: e in b <==> e in multiset(b);
  }
}
