/**
 The penalty for unlocking early (`energy.compute.service.ts`): a piecewise linear curve
 over the lock options, truncated to whole percentage points of a hundredth, and the
 formula for a partial unlock.
 */
module EnergyCompute {
  import opened Arithmetic

  /** MAX_PENALTY_PERCENT: the whole amount. */
  const MAX_PENALTY: nat := 10_000

  datatype LockOption = LockOption(lockEpochs: int, penaltyStartPercentage: int)

  /**
   What a computation ends in.  A division by zero is no exception in the source: it leaves
   a value that is not a finite number.
   */
  datatype Outcome<T> = Ok(value: T) | NotFinite | Throws(error: EnergyError)

  datatype EnergyError = NoLockOptions | InvalidLockEpochs | InvalidValues | InvalidNewLockEpochs | InvalidNewLockEpoch

  /** `Math.trunc` of a quotient. */
  function Trunc(n: int, d: int): int
    requires d != 0
  {
    var quotient := Abs(n) / Abs(d);
    if (n < 0) == (d < 0) then quotient else -quotient
  }

  function Abs(x: int): nat {
    if x < 0 then -x else x
  }

  function Weighted(minIn: int, maxIn: int, currentIn: int, minOut: int, maxOut: int): int {
    (maxIn - currentIn) * minOut + (currentIn - minIn) * maxOut
  }

  function LinearInterpolation(minIn: int, maxIn: int, currentIn: int, minOut: int, maxOut: int): Outcome<int> {
    if currentIn < minIn || currentIn > maxIn then Throws(InvalidValues)
    else if maxIn == minIn then NotFinite
    else Ok(Trunc(Weighted(minIn, maxIn, currentIn, minOut, maxOut), maxIn - minIn))
  }

  // ----- full unlock -------------------------------------------------------------------

  /** The first index from i on whose segment of options contains the epochs, or the last index when none does. */
  function Segment(options: seq<LockOption>, epochs: int, i: nat): (r: nat)
    requires i < |options|
    ensures i <= r < |options|
    ensures r + 1 < |options| ==> options[r].lockEpochs <= epochs <= options[r + 1].lockEpochs
    ensures forall k :: i <= k < r ==> !(options[k].lockEpochs <= epochs <= options[k + 1].lockEpochs)
    decreases |options| - i
  {
    if i + 1 < |options| && !(options[i].lockEpochs <= epochs <= options[i + 1].lockEpochs)
    then Segment(options, epochs, i + 1) else i
  }

  function FullUnlock(options: seq<LockOption>, epochs: int): Outcome<int> {
    if options == [] then Throws(NoLockOptions)
    else if epochs > options[|options| - 1].lockEpochs then Throws(InvalidLockEpochs)
    else
      var (lower, upper) :=
        if epochs <= options[0].lockEpochs then (LockOption(0, 0), options[0])
        else
          var s := Segment(options, epochs, 0);
          if s + 1 < |options| then (options[s], options[s + 1]) else (LockOption(0, 0), LockOption(0, 0));
      LinearInterpolation(
        lower.lockEpochs, upper.lockEpochs, epochs, lower.penaltyStartPercentage, upper.penaltyStartPercentage)
  }

  method ComputePenaltyPercentageFullUnlock(lockOptions: seq<LockOption>, lockEpochsRemaining: int)
    returns (r: Outcome<int>)
    ensures r == FullUnlock(lockOptions, lockEpochsRemaining)
    ensures r == Throws(NoLockOptions) <==> lockOptions == []
  {
    if lockOptions == [] {
      return Throws(NoLockOptions);
    }
    var lastLockOption := lockOptions[|lockOptions| - 1];
    if lockEpochsRemaining > lastLockOption.lockEpochs {
      return Throws(InvalidLockEpochs);
    }

    var prevOption, nextOption := LockOption(0, 0), LockOption(0, 0);
    var firstLockOption := lockOptions[0];
    if lockEpochsRemaining > firstLockOption.lockEpochs {
      for index := 0 to |lockOptions| - 1
        invariant prevOption == nextOption == LockOption(0, 0)
        invariant Segment(lockOptions, lockEpochsRemaining, 0) == Segment(lockOptions, lockEpochsRemaining, index)
      {
        var prevOptionTemp, nextOptionTemp := lockOptions[index], lockOptions[index + 1];
        if prevOptionTemp.lockEpochs <= lockEpochsRemaining && lockEpochsRemaining <= nextOptionTemp.lockEpochs {
          prevOption, nextOption := prevOptionTemp, nextOptionTemp;
          break;
        }
      }
    } else {
      nextOption := firstLockOption;
    }
    r := LinearInterpolation(
      prevOption.lockEpochs, nextOption.lockEpochs, lockEpochsRemaining,
      prevOption.penaltyStartPercentage, nextOption.penaltyStartPercentage);
  }

  // ----- the curve ---------------------------------------------------------------------

  /** Lock options as the contract keeps them: ascending, penalties from 0 to below the maximum. */
  ghost predicate ValidOptions(options: seq<LockOption>) {
    && |options| > 0
    && options[0].lockEpochs > 0
    && (forall i :: 0 <= i < |options| ==> 0 <= options[i].penaltyStartPercentage < MAX_PENALTY)
    && (forall i, j :: 0 <= i < j < |options| ==>
          && options[i].lockEpochs < options[j].lockEpochs
          && options[i].penaltyStartPercentage <= options[j].penaltyStartPercentage)
  }

  function LastOption(options: seq<LockOption>): LockOption
    requires |options| > 0
  {
    options[|options| - 1]
  }

  /** The breakpoints of the curve: no lock, no penalty, and then the options. */
  function Breakpoint(options: seq<LockOption>, i: nat): LockOption
    requires i <= |options|
  {
    if i == 0 then LockOption(0, 0) else options[i - 1]
  }

  /** The point on the line from (minIn, minOut) to (maxIn, maxOut), rounded down. */
  function OnLine(minIn: int, maxIn: int, currentIn: int, minOut: int, maxOut: int): int
    requires minIn < maxIn
  {
    Weighted(minIn, maxIn, currentIn, minOut, maxOut) / (maxIn - minIn)
  }

  /** The chord between breakpoints i and i + 1, rounded down. */
  function Chord(options: seq<LockOption>, i: nat, epochs: int): int
    requires ValidOptions(options) && i < |options|
  {
    BreakpointsAscend(options, i, i + 1);
    OnLine(
      Breakpoint(options, i).lockEpochs, Breakpoint(options, i + 1).lockEpochs, epochs,
      Breakpoint(options, i).penaltyStartPercentage, Breakpoint(options, i + 1).penaltyStartPercentage)
  }

  ghost predicate InSegment(options: seq<LockOption>, i: nat, epochs: int) {
    i < |options| && Breakpoint(options, i).lockEpochs <= epochs <= Breakpoint(options, i + 1).lockEpochs
  }

  /** Whatever the options, the scan finds a segment for every period between the first and the last of them. */
  lemma SegmentCovers(options: seq<LockOption>, epochs: int)
    requires |options| > 0
    requires options[0].lockEpochs < epochs <= LastOption(options).lockEpochs
    ensures Segment(options, epochs, 0) + 1 < |options|
  {
    var s := Segment(options, epochs, 0);
    if s + 1 == |options| {
      var k := 0;
      while k < s
        invariant 0 <= k <= s && options[k].lockEpochs < epochs
      {
        assert !(options[k].lockEpochs <= epochs <= options[k + 1].lockEpochs);
        k := k + 1;
      }
    }
  }

  lemma FloorBounds(n: int, d: nat, k: int)
    requires d > 0
    ensures k * d <= n ==> k <= n / d
    ensures n <= k * d ==> n / d <= k
  {
    assert n == d * (n / d) + n % d;
    Distribute(d, n / d, 1);
    Distribute(d, k, 1);
    if k * d <= n {
      CancelFactor(d, k, n / d + 1);
    }
    if n <= k * d {
      CancelFactor(d, n / d, k + 1);
    }
  }

  lemma FloorMonotone(n: int, n': int, d: nat)
    requires d > 0 && n <= n'
    ensures n / d <= n' / d
  {
    assert n == d * (n / d) + n % d;
    FloorBounds(n', d, n / d);
  }

  /** Truncation drops the fraction of the magnitude and keeps the sign. */
  lemma TruncTowardsZero(n: int, d: nat)
    requires d > 0
    ensures n >= 0 ==> 0 <= Trunc(n, d) && Trunc(n, d) * d <= n < (Trunc(n, d) + 1) * d
    ensures n < 0 ==> Trunc(n, d) <= 0 && -Trunc(n, d) * d <= -n < (-Trunc(n, d) + 1) * d
  {
    TruncSign(n, d);
    var q := Abs(n) / d;
    DivisionBounds(Abs(n), d);
    Distribute(d, q, 1);
  }

  lemma TruncSign(n: int, d: nat)
    requires d > 0
    ensures Abs(n) / d >= 0 && Trunc(n, d) == if n >= 0 then Abs(n) / d else -(Abs(n) / d)
  {
    DivisionBounds(Abs(n), d);
  }

  lemma TruncIsFloor(n: nat, d: nat)
    requires d > 0
    ensures Trunc(n, d) == n / d
  {
  }

  /** Between its ends a rising line stays between their values, and it meets both. */
  lemma OnLineBounds(minIn: int, maxIn: int, currentIn: int, lo: int, hi: int)
    requires minIn <= currentIn <= maxIn && minIn < maxIn && lo <= hi
    ensures lo <= OnLine(minIn, maxIn, currentIn, lo, hi) <= hi
    ensures currentIn == minIn ==> OnLine(minIn, maxIn, currentIn, lo, hi) == lo
    ensures currentIn == maxIn ==> OnLine(minIn, maxIn, currentIn, lo, hi) == hi
  {
    WeightedBounds(minIn, maxIn, currentIn, lo, hi);
    var n := Weighted(minIn, maxIn, currentIn, lo, hi);
    FloorBounds(n, maxIn - minIn, lo);
    FloorBounds(n, maxIn - minIn, hi);
  }

  lemma WeightedBounds(minIn: int, maxIn: int, currentIn: int, lo: int, hi: int)
    requires minIn <= currentIn <= maxIn && lo <= hi
    ensures lo * (maxIn - minIn) <= Weighted(minIn, maxIn, currentIn, lo, hi) <= hi * (maxIn - minIn)
    ensures currentIn == minIn ==> Weighted(minIn, maxIn, currentIn, lo, hi) == lo * (maxIn - minIn)
    ensures currentIn == maxIn ==> Weighted(minIn, maxIn, currentIn, lo, hi) == hi * (maxIn - minIn)
  {
    MulMonotone(0, hi - lo, currentIn - minIn);
    MulMonotone(0, hi - lo, maxIn - currentIn);
    assert Weighted(minIn, maxIn, currentIn, lo, hi) == lo * (maxIn - minIn) + (currentIn - minIn) * (hi - lo);
    assert Weighted(minIn, maxIn, currentIn, lo, hi) == hi * (maxIn - minIn) - (maxIn - currentIn) * (hi - lo);
  }

  lemma OnLineMonotone(minIn: int, maxIn: int, lo: int, hi: int, epochs: int, epochs': int)
    requires minIn < maxIn && lo <= hi && epochs <= epochs'
    ensures OnLine(minIn, maxIn, epochs, lo, hi) <= OnLine(minIn, maxIn, epochs', lo, hi)
  {
    WeightedMonotone(minIn, maxIn, lo, hi, epochs, epochs');
    FloorMonotone(Weighted(minIn, maxIn, epochs, lo, hi), Weighted(minIn, maxIn, epochs', lo, hi), maxIn - minIn);
  }

  lemma WeightedMonotone(minIn: int, maxIn: int, lo: int, hi: int, epochs: int, epochs': int)
    requires lo <= hi && epochs <= epochs'
    ensures Weighted(minIn, maxIn, epochs, lo, hi) <= Weighted(minIn, maxIn, epochs', lo, hi)
  {
    MulMonotone(0, hi - lo, epochs' - epochs);
    assert Weighted(minIn, maxIn, epochs', lo, hi) - Weighted(minIn, maxIn, epochs, lo, hi)
           == (epochs' - epochs) * (hi - lo);
  }

  lemma BreakpointsAscend(options: seq<LockOption>, i: nat, j: nat)
    requires ValidOptions(options) && i < j <= |options|
    ensures Breakpoint(options, i).lockEpochs < Breakpoint(options, j).lockEpochs
    ensures 0 <= Breakpoint(options, i).penaltyStartPercentage
              <= Breakpoint(options, j).penaltyStartPercentage < MAX_PENALTY
  {
  }

  /** On its segment the chord lies between the penalties of its two breakpoints and meets both. */
  lemma ChordBounds(options: seq<LockOption>, i: nat, epochs: int)
    requires ValidOptions(options) && InSegment(options, i, epochs)
    ensures Breakpoint(options, i).penaltyStartPercentage
         <= Chord(options, i, epochs)
         <= Breakpoint(options, i + 1).penaltyStartPercentage
    ensures epochs == Breakpoint(options, i).lockEpochs ==>
              Chord(options, i, epochs) == Breakpoint(options, i).penaltyStartPercentage
    ensures epochs == Breakpoint(options, i + 1).lockEpochs ==>
              Chord(options, i, epochs) == Breakpoint(options, i + 1).penaltyStartPercentage
  {
    BreakpointsAscend(options, i, i + 1);
    OnLineBounds(
      Breakpoint(options, i).lockEpochs, Breakpoint(options, i + 1).lockEpochs, epochs,
      Breakpoint(options, i).penaltyStartPercentage, Breakpoint(options, i + 1).penaltyStartPercentage);
  }

  lemma ChordMonotone(options: seq<LockOption>, i: nat, epochs: int, epochs': int)
    requires ValidOptions(options) && InSegment(options, i, epochs) && InSegment(options, i, epochs')
    requires epochs <= epochs'
    ensures Chord(options, i, epochs) <= Chord(options, i, epochs')
  {
    BreakpointsAscend(options, i, i + 1);
    OnLineMonotone(
      Breakpoint(options, i).lockEpochs, Breakpoint(options, i + 1).lockEpochs,
      Breakpoint(options, i).penaltyStartPercentage, Breakpoint(options, i + 1).penaltyStartPercentage,
      epochs, epochs');
  }

  /** A first option without a lock period leaves no number for no lock. */
  lemma NoLengthNoNumber(options: seq<LockOption>)
    requires |options| > 0 && options[0].lockEpochs == 0 <= LastOption(options).lockEpochs
    ensures FullUnlock(options, 0) == NotFinite
  {
  }

  /** The segment the scan settles on. */
  ghost function ScannedSegment(options: seq<LockOption>, epochs: int): (i: nat)
    requires ValidOptions(options) && 0 <= epochs <= LastOption(options).lockEpochs
    ensures InSegment(options, i, epochs)
  {
    if epochs <= options[0].lockEpochs then 0
    else
      SegmentCovers(options, epochs);
      Segment(options, epochs, 0) + 1
  }

  lemma InterpolationIsFloor(minIn: int, maxIn: int, currentIn: int, minOut: int, maxOut: int)
    requires minIn <= currentIn <= maxIn && minIn < maxIn && 0 <= minOut <= maxOut
    ensures LinearInterpolation(minIn, maxIn, currentIn, minOut, maxOut)
         == Ok(OnLine(minIn, maxIn, currentIn, minOut, maxOut))
  {
    MulMonotone(0, minOut, maxIn - currentIn);
    MulMonotone(0, maxOut, currentIn - minIn);
    TruncIsFloor(Weighted(minIn, maxIn, currentIn, minOut, maxOut), maxIn - minIn);
  }

  lemma ScanIsChord(options: seq<LockOption>, epochs: int)
    requires ValidOptions(options) && 0 <= epochs <= LastOption(options).lockEpochs
    ensures FullUnlock(options, epochs) == Ok(Chord(options, ScannedSegment(options, epochs), epochs))
  {
    var i := ScannedSegment(options, epochs);
    BreakpointsAscend(options, i, i + 1);
    InterpolationIsFloor(
      Breakpoint(options, i).lockEpochs, Breakpoint(options, i + 1).lockEpochs, epochs,
      Breakpoint(options, i).penaltyStartPercentage, Breakpoint(options, i + 1).penaltyStartPercentage);
  }

  /**
   Whichever segment contains the epochs, the scan ends in its chord: it never throws,
   never divides by zero, and neighbouring segments agree where they meet.
   */
  lemma CurveIsChord(options: seq<LockOption>, i: nat, epochs: int)
    requires ValidOptions(options) && InSegment(options, i, epochs)
    ensures 0 <= epochs <= LastOption(options).lockEpochs
    ensures FullUnlock(options, epochs) == Ok(Chord(options, i, epochs))
  {
    if i > 0 {
      BreakpointsAscend(options, 0, i);
    }
    if i + 1 < |options| {
      BreakpointsAscend(options, i + 1, |options|);
    }
    ScanIsChord(options, epochs);
    var j := ScannedSegment(options, epochs);
    ChordBounds(options, i, epochs);
    ChordBounds(options, j, epochs);
  }

  /**
   The curve is linear between its breakpoints: around an option and the one before it (or no
   lock and no penalty before the first) the percentage is the weighted mean of their two
   penalties, rounded down.
   */
  lemma CurveIsLinear(options: seq<LockOption>, i: nat, epochs: int)
    requires ValidOptions(options) && i < |options|
    requires (if i == 0 then 0 else options[i - 1].lockEpochs) <= epochs <= options[i].lockEpochs
    ensures FullUnlock(options, epochs).Ok?
    ensures var (e0, p0) := if i == 0 then (0, 0)
                            else (options[i - 1].lockEpochs, options[i - 1].penaltyStartPercentage);
            var (e1, p1) := (options[i].lockEpochs, options[i].penaltyStartPercentage);
            var v := FullUnlock(options, epochs).value;
            v * (e1 - e0) <= p0 * (e1 - epochs) + p1 * (epochs - e0) < (v + 1) * (e1 - e0)
  {
    BreakpointsAscend(options, i, i + 1);
    CurveIsChord(options, i, epochs);
    var (lower, upper) := (Breakpoint(options, i), Breakpoint(options, i + 1));
    OnLineIsMean(
      lower.lockEpochs, upper.lockEpochs, epochs, lower.penaltyStartPercentage, upper.penaltyStartPercentage);
  }

  lemma OnLineIsMean(minIn: int, maxIn: int, currentIn: int, minOut: int, maxOut: int)
    requires minIn < maxIn
    ensures var v := OnLine(minIn, maxIn, currentIn, minOut, maxOut);
            var mean := minOut * (maxIn - currentIn) + maxOut * (currentIn - minIn);
            v * (maxIn - minIn) <= mean < (v + 1) * (maxIn - minIn)
  {
    var (n, d) := (Weighted(minIn, maxIn, currentIn, minOut, maxOut), maxIn - minIn);
    assert n == d * (n / d) + n % d;
    Distribute(d, n / d, 1);
  }

  /** The curve is defined exactly from zero epochs to the longest option. */
  lemma CurveDomain(options: seq<LockOption>, epochs: int)
    requires ValidOptions(options)
    ensures FullUnlock(options, epochs).Ok? <==> 0 <= epochs <= LastOption(options).lockEpochs
    ensures epochs < 0 ==> FullUnlock(options, epochs) == Throws(InvalidValues)
    ensures epochs > LastOption(options).lockEpochs ==> FullUnlock(options, epochs) == Throws(InvalidLockEpochs)
  {
    if 0 <= epochs <= LastOption(options).lockEpochs {
      ScanIsChord(options, epochs);
    } else if epochs < 0 && |options| > 1 {
      BreakpointsAscend(options, 1, |options|);
    }
  }

  /** At an option, and at zero, the curve is the option's own penalty. */
  lemma CurveAtBreakpoint(options: seq<LockOption>, i: nat)
    requires ValidOptions(options) && i <= |options|
    ensures FullUnlock(options, Breakpoint(options, i).lockEpochs) == Ok(Breakpoint(options, i).penaltyStartPercentage)
  {
    var s := if i == 0 then 0 else i - 1;
    BreakpointsAscend(options, s, s + 1);
    CurveIsChord(options, s, Breakpoint(options, i).lockEpochs);
    ChordBounds(options, s, Breakpoint(options, i).lockEpochs);
  }

  /** Longer remaining locks never cost less, across all segments, and the last option's penalty is never exceeded. */
  lemma CurveMonotone(options: seq<LockOption>, epochs: int, epochs': int)
    requires ValidOptions(options) && 0 <= epochs <= epochs' <= LastOption(options).lockEpochs
    ensures FullUnlock(options, epochs).Ok? && FullUnlock(options, epochs').Ok?
    ensures 0 <= FullUnlock(options, epochs).value <= FullUnlock(options, epochs').value
    ensures FullUnlock(options, epochs').value <= LastOption(options).penaltyStartPercentage
  {
    var (i, j) := (ScannedSegment(options, epochs), ScannedSegment(options, epochs'));
    ScanIsChord(options, epochs);
    ScanIsChord(options, epochs');
    ChordBounds(options, i, epochs);
    ChordBounds(options, j, epochs');
    BreakpointsAscend(options, i, i + 1);
    if j + 1 < |options| {
      BreakpointsAscend(options, j + 1, |options|);
    }
    if InSegment(options, j, epochs) {
      CurveIsChord(options, j, epochs);
      ChordMonotone(options, j, epochs, epochs');
    } else if InSegment(options, i, epochs') {
      CurveIsChord(options, i, epochs');
      ChordMonotone(options, i, epochs, epochs');
    } else if i + 1 < j {
      BreakpointsAscend(options, i + 1, j);
    }
  }

  // ----- partial unlock ----------------------------------------------------------------

  /** The new period is awaited first, so its exception wins. */
  function PartialUnlock(options: seq<LockOption>, prevEpochs: int, newEpochs: int): Outcome<int> {
    match (FullUnlock(options, newEpochs), FullUnlock(options, prevEpochs))
    case (Throws(e), _) => Throws(e)
    case (_, Throws(e)) => Throws(e)
    case (Ok(kept), Ok(full)) =>
      if MAX_PENALTY - kept == 0 then NotFinite
      else Ok(Trunc((full - kept) * MAX_PENALTY, MAX_PENALTY - kept))
    case _ => NotFinite
  }

  method ComputePenaltyPercentagePartialUnlock(lockOptions: seq<LockOption>, prevLockEpochs: int, newLockEpochs: int)
    returns (r: Outcome<int>)
    ensures r == PartialUnlock(lockOptions, prevLockEpochs, newLockEpochs)
  {
    var newPenalty := ComputePenaltyPercentageFullUnlock(lockOptions, newLockEpochs);
    if newPenalty.Throws? {
      return newPenalty;
    }
    var prevPenalty := ComputePenaltyPercentageFullUnlock(lockOptions, prevLockEpochs);
    if prevPenalty.Throws? {
      return prevPenalty;
    }
    if newPenalty.NotFinite? || prevPenalty.NotFinite? || MAX_PENALTY - newPenalty.value == 0 {
      return NotFinite;
    }
    r := Ok(Trunc((prevPenalty.value - newPenalty.value) * MAX_PENALTY, MAX_PENALTY - newPenalty.value));
  }

  /** A shrinking lock within the curve: what `getPenaltyAmount` asks about. */
  ghost predicate Shrinks(options: seq<LockOption>, prevEpochs: int, newEpochs: int) {
    ValidOptions(options) && 0 <= newEpochs <= prevEpochs <= LastOption(options).lockEpochs
  }

  /** The full-unlock penalty as a number. */
  function Penalty(options: seq<LockOption>, epochs: int): (r: nat)
    requires ValidOptions(options) && 0 <= epochs <= LastOption(options).lockEpochs
    ensures FullUnlock(options, epochs) == Ok(r) && r < MAX_PENALTY
  {
    CurveMonotone(options, epochs, epochs);
    FullUnlock(options, epochs).value
  }

  /**
   What a change of the lock costs, for all periods on the curve: the part of the kept amount, in
   hundredths of a percent, that lowers the penalty from the old one to the new one, with its
   fraction dropped.  It is not positive when the lock grows.
   */
  lemma PartialIsQuotient(options: seq<LockOption>, prevEpochs: int, newEpochs: int)
    requires ValidOptions(options)
    requires 0 <= prevEpochs <= LastOption(options).lockEpochs && 0 <= newEpochs <= LastOption(options).lockEpochs
    ensures FullUnlock(options, prevEpochs).Ok? && FullUnlock(options, newEpochs).Ok?
    ensures PartialUnlock(options, prevEpochs, newEpochs).Ok?
    ensures var (full, kept) := (FullUnlock(options, prevEpochs).value, FullUnlock(options, newEpochs).value);
            var v := PartialUnlock(options, prevEpochs, newEpochs).value;
            && (kept <= full ==> 0 <= v && v * (10_000 - kept) <= 10_000 * (full - kept) < (v + 1) * (10_000 - kept))
            && (full <= kept ==>
                  v <= 0 && -v * (10_000 - kept) <= 10_000 * (kept - full) < (-v + 1) * (10_000 - kept))
  {
    var (full, kept) := (Penalty(options, prevEpochs), Penalty(options, newEpochs));
    TruncTowardsZero((full - kept) * MAX_PENALTY, MAX_PENALTY - kept);
  }

  /** The partial penalty is the exact quotient rounded down, a penalty below the maximum. */
  lemma PartialIsFloor(options: seq<LockOption>, prevEpochs: int, newEpochs: int)
    requires Shrinks(options, prevEpochs, newEpochs)
    ensures var (full, kept) := (Penalty(options, prevEpochs), Penalty(options, newEpochs));
            && 0 <= kept <= full
            && PartialUnlock(options, prevEpochs, newEpochs) == Ok(((full - kept) * MAX_PENALTY) / (MAX_PENALTY - kept))
  {
    CurveMonotone(options, newEpochs, prevEpochs);
    var (full, kept) := (Penalty(options, prevEpochs), Penalty(options, newEpochs));
    TruncIsFloor((full - kept) * MAX_PENALTY, MAX_PENALTY - kept);
  }

  function PartialPenalty(options: seq<LockOption>, prevEpochs: int, newEpochs: int): (r: int)
    requires Shrinks(options, prevEpochs, newEpochs)
    ensures PartialUnlock(options, prevEpochs, newEpochs) == Ok(r)
    ensures 0 <= r <= Penalty(options, prevEpochs)
  {
    PartialIsFloor(options, prevEpochs, newEpochs);
    var (full, kept) := (Penalty(options, prevEpochs), Penalty(options, newEpochs));
    PartialBelowFull(MAX_PENALTY, full, kept);
    PartialUnlock(options, prevEpochs, newEpochs).value
  }

  lemma PartialBelowFull(m: nat, full: nat, kept: nat)
    requires kept <= full <= m && kept < m
    ensures 0 <= ((full - kept) * m) / (m - kept) <= full
  {
    MulMonotone(full, m, kept);
    Distribute(m, full - kept, kept);
    Distribute(full, m - kept, kept);
    MulMonotone(0, full - kept, m);
    FloorBounds((full - kept) * m, m - kept, full);
    FloorBounds((full - kept) * m, m - kept, 0);
  }

  /**
   Two steps against one: reducing the lock first and unlocking the rest later keeps at
   least what unlocking at once keeps, and exceeds it by less than the truncation error.
   */
  lemma StepAgreesWithDirect(options: seq<LockOption>, prevEpochs: int, newEpochs: int)
    requires Shrinks(options, prevEpochs, newEpochs)
    ensures var kept := MAX_PENALTY - Penalty(options, newEpochs);
            var stepped := (MAX_PENALTY - PartialPenalty(options, prevEpochs, newEpochs)) * kept;
            var direct := MAX_PENALTY * (MAX_PENALTY - Penalty(options, prevEpochs));
            direct <= stepped < direct + kept
  {
    PartialIsFloor(options, prevEpochs, newEpochs);
    KeptAfterStep(MAX_PENALTY, Penalty(options, prevEpochs), Penalty(options, newEpochs));
  }

  lemma KeptAfterStep(m: nat, full: nat, kept: nat)
    requires kept <= full <= m && kept < m
    ensures var p := ((full - kept) * m) / (m - kept);
            m * (m - full) <= (m - p) * (m - kept) < m * (m - full) + (m - kept)
  {
    var (n, d) := ((full - kept) * m, m - kept);
    assert n == d * (n / d) + n % d;
    Distribute(d, m - n / d, n / d);
    Distribute(m, m - full, full - kept);
  }

  /** Keeping a longer lock never costs more. */
  lemma PartialFallsWithKept(options: seq<LockOption>, prevEpochs: int, newEpochs: int, newEpochs': int)
    requires Shrinks(options, prevEpochs, newEpochs) && Shrinks(options, prevEpochs, newEpochs')
    requires newEpochs <= newEpochs'
    ensures PartialPenalty(options, prevEpochs, newEpochs') <= PartialPenalty(options, prevEpochs, newEpochs)
  {
    PartialIsFloor(options, prevEpochs, newEpochs);
    PartialIsFloor(options, prevEpochs, newEpochs');
    CurveMonotone(options, newEpochs, newEpochs');
    QuotientFalls(
      MAX_PENALTY, Penalty(options, prevEpochs), Penalty(options, newEpochs), Penalty(options, newEpochs'));
  }

  lemma QuotientFalls(m: nat, full: nat, kept: nat, kept': nat)
    requires kept <= kept' <= full <= m && kept' < m
    ensures ((full - kept') * m) / (m - kept') <= ((full - kept) * m) / (m - kept)
  {
    var (n, d, d') := ((full - kept) * m, m - kept, m - kept');
    var q := ((full - kept') * m) / d';
    // q * d' <= (full - kept') * m, and shortening the lock adds kept' - kept to both factors
    assert (full - kept') * m == d' * q + ((full - kept') * m) % d';
    assert q <= m by {
      MulMonotone(full - kept', d', m);
      FloorBounds((full - kept') * m, d', m);
    }
    MulMonotone(q, m, kept' - kept);
    Distribute(q, d', kept' - kept);
    Distribute(m, full - kept', kept' - kept);
    FloorBounds(n, d, q);
  }

  // ----- unlocking in many steps -------------------------------------------------------

  /** Lock periods that shrink from one to the next. */
  ghost predicate ShrinkingChain(options: seq<LockOption>, periods: seq<int>) {
    && |periods| > 0
    && ValidOptions(options)
    && 0 <= periods[|periods| - 1]
    && periods[0] <= LastOption(options).lockEpochs
    && forall i, j :: 0 <= i < j < |periods| ==> periods[j] <= periods[i]
  }

  /** What is left of a whole unit, scaled by MAX_PENALTY per step, after reducing step by step and then unlocking. */
  ghost function KeptInSteps(options: seq<LockOption>, periods: seq<int>): int
    requires |periods| > 0
  {
    if |periods| == 1 then MAX_PENALTY - Percentage(FullUnlock(options, periods[0]))
    else (MAX_PENALTY - Percentage(PartialUnlock(options, periods[0], periods[1]))) * KeptInSteps(options, periods[1..])
  }

  ghost function Percentage(outcome: Outcome<int>): int {
    if outcome.Ok? then outcome.value else 0
  }

  /** The same product, from the full-unlock penalties alone. */
  ghost function KeptAlong(m: nat, penalties: seq<nat>): int
    requires |penalties| > 0
  {
    if |penalties| == 1 then m - penalties[0]
    else KeptByStep(m, penalties[0], penalties[1]) * KeptAlong(m, penalties[1..])
  }

  function KeptByStep(m: nat, full: nat, kept: nat): int {
    m - if kept < m then ((full - kept) * m) / (m - kept) else 0
  }

  lemma OneStep(options: seq<LockOption>, prevEpochs: int, newEpochs: int, full: nat, kept: nat)
    requires Shrinks(options, prevEpochs, newEpochs)
    requires FullUnlock(options, prevEpochs) == Ok(full) && FullUnlock(options, newEpochs) == Ok(kept)
    ensures MAX_PENALTY - Percentage(PartialUnlock(options, prevEpochs, newEpochs))
         == KeptByStep(MAX_PENALTY, full, kept)
  {
    PartialIsFloor(options, prevEpochs, newEpochs);
  }

  lemma {:induction false} StepsFromPenalties(options: seq<LockOption>, periods: seq<int>, penalties: seq<nat>)
    requires ShrinkingChain(options, periods) && |penalties| == |periods|
    requires forall i :: 0 <= i < |periods| ==> FullUnlock(options, periods[i]) == Ok(penalties[i])
    ensures KeptInSteps(options, periods) == KeptAlong(MAX_PENALTY, penalties)
  {
    if |periods| > 1 {
      StepsFromPenalties(options, periods[1..], penalties[1..]);
      OneStep(options, periods[0], periods[1], penalties[0], penalties[1]);
    }
  }

  function Power(b: nat, e: nat): nat {
    if e == 0 then 1 else b * Power(b, e - 1)
  }

  lemma {:induction false} KeptAlongBounds(m: nat, penalties: seq<nat>)
    requires |penalties| > 0 && penalties[0] < m
    requires forall i, j :: 0 <= i < j < |penalties| ==> penalties[j] <= penalties[i]
    ensures var k := |penalties| - 1;
            Power(m, k) * (m - penalties[0]) <= KeptAlong(m, penalties) <= Power(m, k) * (m - penalties[0] + k)
  {
    if |penalties| > 1 {
      var (full, kept, k) := (penalties[0], penalties[1], |penalties| - 2);
      KeptAlongBounds(m, penalties[1..]);
      KeptAfterStep(m, full, kept);
      PartialBelowFull(m, full, kept);
      StepLower(m, Power(m, k), KeptByStep(m, full, kept), m - kept, m - full, KeptAlong(m, penalties[1..]));
      StepUpper(m, Power(m, k), k, KeptByStep(m, full, kept), m - kept, m - full, KeptAlong(m, penalties[1..]));
    }
  }

  lemma StepLower(m: nat, power: nat, p: nat, kept: nat, direct: nat, rest: int)
    requires power * kept <= rest
    requires m * direct <= p * kept
    ensures (m * power) * direct <= p * rest
  {
    MulMonotone(power * kept, rest, p);
    MulMonotone(m * direct, p * kept, power);
    Reassociate(p, power, kept);
    Reassociate(power, p, kept);
    Reassociate(power, m, direct);
  }

  lemma StepUpper(m: nat, power: nat, k: nat, p: nat, kept: nat, direct: nat, rest: int)
    requires rest <= power * (kept + k)
    requires p * kept <= m * direct + kept
    requires p <= m && kept <= m
    ensures p * rest <= (m * power) * (direct + (k + 1))
  {
    var gained := direct + (k + 1);
    assert p * (kept + k) <= m * gained by {
      Distribute(p, kept, k);
      MulMonotone(p, m, k);
      Distribute(m, direct, k + 1);
      Distribute(m, k, 1);
    }
    MulMonotone(rest, power * (kept + k), p);
    MulMonotone(p * (kept + k), m * gained, power);
    Reassociate(p, power, kept + k);
    Reassociate(power, p, kept + k);
    Reassociate(power, m, gained);
  }

  /**
   Any number of steps: the kept fractions multiply to at least the direct one, and k steps
   gain at most k points of MAX_PENALTY.
   */
  lemma ChainAgreesWithDirect(options: seq<LockOption>, periods: seq<int>)
    requires ShrinkingChain(options, periods)
    ensures FullUnlock(options, periods[0]).Ok?
    ensures var k := |periods| - 1;
            var direct := MAX_PENALTY - FullUnlock(options, periods[0]).value;
            Power(MAX_PENALTY, k) * direct <= KeptInSteps(options, periods) <= Power(MAX_PENALTY, k) * (direct + k)
  {
    var penalties := PenaltiesOf(options, periods);
    StepsBounds(options, periods, penalties);
  }

  lemma StepsBounds(options: seq<LockOption>, periods: seq<int>, penalties: seq<nat>)
    requires ShrinkingChain(options, periods)
    requires ArePenalties(options, periods, penalties)
    ensures var (k, direct) := (|periods| - 1, MAX_PENALTY - penalties[0]);
            Power(MAX_PENALTY, k) * direct <= KeptInSteps(options, periods) <= Power(MAX_PENALTY, k) * (direct + k)
  {
    StepsFromPenalties(options, periods, penalties);
    KeptAlongBounds(MAX_PENALTY, penalties);
  }

  /** The full-unlock penalties of the periods, which fall below the maximum and never rise. */
  ghost predicate ArePenalties(options: seq<LockOption>, periods: seq<int>, penalties: seq<nat>) {
    && |penalties| == |periods| > 0
    && penalties[0] < MAX_PENALTY
    && (forall i :: 0 <= i < |periods| ==> FullUnlock(options, periods[i]) == Ok(penalties[i]))
    && (forall i, j :: 0 <= i < j < |penalties| ==> penalties[j] <= penalties[i])
  }

  lemma PenaltiesOf(options: seq<LockOption>, periods: seq<int>) returns (penalties: seq<nat>)
    requires ShrinkingChain(options, periods)
    ensures ArePenalties(options, periods, penalties)
  {
    penalties := [];
    while |penalties| < |periods|
      invariant |penalties| <= |periods|
      invariant forall i :: 0 <= i < |penalties| ==> FullUnlock(options, periods[i]) == Ok(penalties[i])
      invariant forall i :: 0 <= i < |penalties| ==> penalties[i] < MAX_PENALTY
    {
      penalties := penalties + [Penalty(options, periods[|penalties|])];
    }
    forall i, j | 0 <= i < j < |periods|
      ensures penalties[j] <= penalties[i]
    {
      CurveMonotone(options, periods[j], periods[i]);
    }
  }
}
