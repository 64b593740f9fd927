/**
 The penalty shown for a locked token (`energy.service.ts`, without the contract query):
 the new unlock epoch is moved back to the start of its month, and the penalty of the
 resulting reduction is taken from the token amount.
 */
module Energy {
  import opened Arithmetic
  import opened BigNumbers
  import opened EnergyCompute

  /** EPOCHS_IN_MONTH. */
  const EPOCHS_IN_MONTH: nat := 30

  /** The remainder as JavaScript takes it, with the sign of the dividend. */
  function Remainder(n: int, d: nat): int
    requires d > 0
  {
    if n >= 0 then n % d else -(-n % d)
  }

  function UnlockEpochToStartOfMonth(unlockEpoch: int): int {
    unlockEpoch - Remainder(unlockEpoch, EPOCHS_IN_MONTH)
  }

  /** tokenAmount * percentage / MAX_PENALTY, in units of 10^-20. */
  function PenaltyUnits(tokenAmount: nat, percentage: int): int {
    var units: int := Rounded(tokenAmount * Abs(percentage) * SCALE, MAX_PENALTY);
    if percentage < 0 then -units else units
  }

  function ComputePenaltyAmount(
    options: seq<LockOption>, tokenAmount: nat, prevLockEpochs: int, newLockEpochs: int
  ): Outcome<int> {
    var percentage := if newLockEpochs == 0 then FullUnlock(options, prevLockEpochs)
                      else PartialUnlock(options, prevLockEpochs, newLockEpochs);
    match percentage
    case Ok(p) => Ok(PenaltyUnits(tokenAmount, p))
    case NotFinite => NotFinite
    case Throws(e) => Throws(e)
  }

  ghost predicate IsOption(options: seq<LockOption>, period: int) {
    exists o :: o in options && o.lockEpochs == period
  }

  /** The lock period after moving the new unlock epoch to the start of its month. */
  function AdjustedPeriod(currentEpoch: nat, newLockPeriod: int): int {
    if newLockPeriod == 0 then 0
    else
      var tentative := currentEpoch + newLockPeriod;
      newLockPeriod - (tentative - UnlockEpochToStartOfMonth(tentative))
  }

  /** Everything the caller learns, in the order in which the source checks it. */
  ghost function PenaltyAmount(
    options: seq<LockOption>, tokenAmount: nat, unlockEpoch: int, currentEpoch: nat, newLockPeriod: int
  ): Outcome<int> {
    var remaining, adjusted := unlockEpoch - currentEpoch, AdjustedPeriod(currentEpoch, newLockPeriod);
    if newLockPeriod != 0 && !IsOption(options, newLockPeriod) then Throws(InvalidNewLockEpochs)
    else if remaining <= 0 then Ok(0)
    else if adjusted > remaining then Throws(InvalidNewLockEpoch)
    else ComputePenaltyAmount(options, tokenAmount, remaining, adjusted)
  }

  method FindOption(lockOptions: seq<LockOption>, period: int) returns (found: bool)
    ensures found == IsOption(lockOptions, period)
  {
    for i := 0 to |lockOptions|
      invariant forall o :: o in lockOptions[..i] ==> o.lockEpochs != period
    {
      if lockOptions[i].lockEpochs == period {
        assert lockOptions[i] in lockOptions;
        return true;
      }
      assert lockOptions[..i + 1] == lockOptions[..i] + [lockOptions[i]];
    }
    assert lockOptions[..|lockOptions|] == lockOptions;
    return false;
  }

  /** The first branch of `getPenaltyAmount`: the requested period must be an option, and is aligned to the month. */
  method AlignNewLockPeriod(lockOptions: seq<LockOption>, currentEpoch: nat, requestedPeriod: int)
    returns (r: Outcome<int>)
    ensures r == if requestedPeriod != 0 && !IsOption(lockOptions, requestedPeriod) then Throws(InvalidNewLockEpochs)
                 else Ok(AdjustedPeriod(currentEpoch, requestedPeriod))
  {
    var newLockPeriod := requestedPeriod;
    if newLockPeriod != 0 {
      var found := FindOption(lockOptions, newLockPeriod);
      if !found {
        return Throws(InvalidNewLockEpochs);
      }
      var tentativeNewUnlockEpoch := currentEpoch + newLockPeriod;
      var startOfMonthEpoch := UnlockEpochToStartOfMonth(tentativeNewUnlockEpoch);
      newLockPeriod := newLockPeriod - (tentativeNewUnlockEpoch - startOfMonthEpoch);
    }
    r := Ok(newLockPeriod);
  }

  method GetPenaltyAmount(
    lockOptions: seq<LockOption>, tokenAmount: nat, unlockEpoch: int, currentEpoch: nat, requestedPeriod: int
  ) returns (r: Outcome<int>)
    ensures r == PenaltyAmount(lockOptions, tokenAmount, unlockEpoch, currentEpoch, requestedPeriod)
  {
    var aligned := AlignNewLockPeriod(lockOptions, currentEpoch, requestedPeriod);
    if aligned.Throws? {
      return aligned;
    }
    var newLockPeriod := aligned.value;
    var prevLockEpochs := unlockEpoch - currentEpoch;
    if prevLockEpochs <= 0 {
      return Ok(0);
    }
    if newLockPeriod > prevLockEpochs {
      return Throws(InvalidNewLockEpoch);
    }
    r := ComputePenaltyAmount(lockOptions, tokenAmount, prevLockEpochs, newLockPeriod);
  }

  /** The new unlock epoch is the last start of a month not after the requested one. */
  lemma AdjustedToMonth(currentEpoch: nat, newLockPeriod: nat)
    requires newLockPeriod > 0
    ensures var adjusted := AdjustedPeriod(currentEpoch, newLockPeriod);
            && (currentEpoch + adjusted) % 30 == 0
            && newLockPeriod - 30 < adjusted <= newLockPeriod
  {
    var tentative := currentEpoch + newLockPeriod;
    assert tentative == EPOCHS_IN_MONTH * (tentative / EPOCHS_IN_MONTH) + tentative % EPOCHS_IN_MONTH;
    assert currentEpoch + AdjustedPeriod(currentEpoch, newLockPeriod)
        == EPOCHS_IN_MONTH * (tentative / EPOCHS_IN_MONTH);
  }

  /**
   A request for a partial unlock is treated as one exactly when its unlock epoch lies fewer
   days into the month than the requested period is long; on equality it silently becomes a
   full unlock.  Periods of a month or more are safe.
   */
  lemma PartialStaysPartial(currentEpoch: nat, newLockPeriod: nat)
    requires newLockPeriod > 0
    ensures var intoMonth := (currentEpoch + newLockPeriod) % EPOCHS_IN_MONTH;
            && (AdjustedPeriod(currentEpoch, newLockPeriod) > 0 <==> intoMonth < newLockPeriod)
            && (AdjustedPeriod(currentEpoch, newLockPeriod) == 0 <==> intoMonth == newLockPeriod)
    ensures newLockPeriod >= EPOCHS_IN_MONTH ==> AdjustedPeriod(currentEpoch, newLockPeriod) > 0
  {
  }

  /** A lock option shorter than a month: a partial request on it costs the whole penalty. */
  lemma ShortOptionUnlocksFully()
    ensures var options := [LockOption(10, 4_000)];
            && ValidOptions(options)
            && PenaltyAmount(options, 100, 40, 30, 10) == PenaltyAmount(options, 100, 40, 30, 0) == Ok(40 * SCALE)
  {
    var options := [LockOption(10, 4_000)];
    assert options[0] in options;
    assert AdjustedPeriod(30, 10) == 0;
    TruncIsFloor(40_000, 10);
    assert FullUnlock(options, 10) == Ok(4_000);
    RoundedOfWhole(40 * SCALE, MAX_PENALTY);
  }

  /** The penalty is exact: MAX_PENALTY divides 10^20, so nothing is rounded, and it never exceeds the amount. */
  lemma UnitsExact(tokenAmount: nat, percentage: nat)
    requires percentage <= MAX_PENALTY
    ensures PenaltyUnits(tokenAmount, percentage) * MAX_PENALTY == tokenAmount * percentage * SCALE
    ensures 0 <= PenaltyUnits(tokenAmount, percentage) <= tokenAmount * SCALE
  {
    var share := SCALE / MAX_PENALTY;
    assert SCALE == share * MAX_PENALTY;
    Reassociate(tokenAmount * percentage, share, MAX_PENALTY);
    RoundedOfWhole(tokenAmount * percentage * share, MAX_PENALTY);
    MulMonotone(percentage, MAX_PENALTY, tokenAmount);
    MulMonotone(tokenAmount * percentage, tokenAmount * MAX_PENALTY, share);
    Reassociate(tokenAmount, MAX_PENALTY, share);
  }

  lemma PenaltyBeyondCurve(options: seq<LockOption>, tokenAmount: nat, remaining: int, adjusted: int)
    requires ValidOptions(options)
    requires remaining > LastOption(options).lockEpochs && 0 <= adjusted <= LastOption(options).lockEpochs
    ensures ComputePenaltyAmount(options, tokenAmount, remaining, adjusted) == Throws(InvalidLockEpochs)
  {
    CurveDomain(options, remaining);
    CurveDomain(options, adjusted);
  }

  lemma NegativePeriodThrows(options: seq<LockOption>, tokenAmount: nat, remaining: int, adjusted: int)
    requires ValidOptions(options) && adjusted < 0
    ensures ComputePenaltyAmount(options, tokenAmount, remaining, adjusted) == Throws(InvalidValues)
  {
    CurveDomain(options, adjusted);
  }

  /** How many days into its month the requested unlock epoch lies. */
  function IntoMonth(currentEpoch: nat, newLockPeriod: int): int {
    (currentEpoch + newLockPeriod) % EPOCHS_IN_MONTH
  }

  /** What a request on the curve costs: the full penalty to keep nothing, and else that of the reduction. */
  ghost predicate Costs(options: seq<LockOption>, tokenAmount: nat, remaining: int, adjusted: int, r: Outcome<int>) {
    var percentage := if adjusted == 0 then FullUnlock(options, remaining)
                      else PartialUnlock(options, remaining, adjusted);
    && r.Ok? && percentage.Ok? && 0 <= r.value <= tokenAmount * SCALE
    && r.value * 10_000 == tokenAmount * SCALE * percentage.value
  }

  lemma PenaltyOnCurve(options: seq<LockOption>, tokenAmount: nat, remaining: int, adjusted: int)
    requires Shrinks(options, remaining, adjusted)
    ensures var r := ComputePenaltyAmount(options, tokenAmount, remaining, adjusted);
            Costs(options, tokenAmount, remaining, adjusted, r)
  {
    var percentage := if adjusted == 0 then Penalty(options, remaining)
                      else PartialPenalty(options, remaining, adjusted);
    UnitsExact(tokenAmount, percentage);
    Reassociate(tokenAmount, SCALE, percentage);
    Reassociate(tokenAmount, percentage, SCALE);
  }

  /**
   With valid options the outcome of every request is known: which requests are refused and
   with which error, and otherwise a penalty between nothing and the whole amount, namely the
   percentage of the amount that the adjusted request costs.  A partial request is treated as
   one unless its period is at most as long as its unlock epoch lies into the month: then it
   costs the full penalty, or is refused.
   */
  lemma PenaltyWellBehaved(
    options: seq<LockOption>, tokenAmount: nat, unlockEpoch: int, currentEpoch: nat, newLockPeriod: int
  )
    requires ValidOptions(options)
    ensures var remaining, adjusted := unlockEpoch - currentEpoch, AdjustedPeriod(currentEpoch, newLockPeriod);
            var r := PenaltyAmount(options, tokenAmount, unlockEpoch, currentEpoch, newLockPeriod);
            if newLockPeriod != 0 && !IsOption(options, newLockPeriod) then r == Throws(InvalidNewLockEpochs)
            else if remaining <= 0 then r == Ok(0)
            else if adjusted > remaining then r == Throws(InvalidNewLockEpoch)
            else if newLockPeriod != 0 && newLockPeriod < IntoMonth(currentEpoch, newLockPeriod) then
              r == Throws(InvalidValues)
            else if remaining > LastOption(options).lockEpochs then r == Throws(InvalidLockEpochs)
            else
              && (adjusted == 0 <==> newLockPeriod == 0 || newLockPeriod == IntoMonth(currentEpoch, newLockPeriod))
              && Shrinks(options, remaining, adjusted)
              && Costs(options, tokenAmount, remaining, adjusted, r)
    ensures options[0].lockEpochs >= EPOCHS_IN_MONTH && newLockPeriod != 0 && IsOption(options, newLockPeriod) ==>
              AdjustedPeriod(currentEpoch, newLockPeriod) > 0
  {
    var remaining, adjusted := unlockEpoch - currentEpoch, AdjustedPeriod(currentEpoch, newLockPeriod);
    if newLockPeriod == 0 || IsOption(options, newLockPeriod) {
      AdjustedOption(options, currentEpoch, newLockPeriod);
      if 0 < remaining && adjusted <= remaining {
        PenaltyOfAdjusted(options, tokenAmount, remaining, adjusted);
        assert PenaltyAmount(options, tokenAmount, unlockEpoch, currentEpoch, newLockPeriod)
            == ComputePenaltyAmount(options, tokenAmount, remaining, adjusted);
      }
    }
  }

  lemma AdjustedOption(options: seq<LockOption>, currentEpoch: nat, newLockPeriod: int)
    requires ValidOptions(options) && (newLockPeriod == 0 || IsOption(options, newLockPeriod))
    ensures var adjusted := AdjustedPeriod(currentEpoch, newLockPeriod);
            && adjusted <= LastOption(options).lockEpochs
            && (adjusted < 0 <==> newLockPeriod != 0 && newLockPeriod < IntoMonth(currentEpoch, newLockPeriod))
            && (adjusted == 0 <==> newLockPeriod == 0 || newLockPeriod == IntoMonth(currentEpoch, newLockPeriod))
            && (options[0].lockEpochs >= EPOCHS_IN_MONTH && newLockPeriod != 0 ==> adjusted > 0)
  {
    if newLockPeriod != 0 {
      OptionsAtLeastFirst(options, newLockPeriod);
      PartialStaysPartial(currentEpoch, newLockPeriod);
      AdjustedToMonth(currentEpoch, newLockPeriod);
    }
  }

  /** The outcome of a request that passes the checks, after its period was adjusted. */
  lemma PenaltyOfAdjusted(options: seq<LockOption>, tokenAmount: nat, remaining: int, adjusted: int)
    requires ValidOptions(options) && 0 < remaining && adjusted <= remaining
    requires adjusted <= LastOption(options).lockEpochs
    ensures var r := ComputePenaltyAmount(options, tokenAmount, remaining, adjusted);
            if adjusted < 0 then r == Throws(InvalidValues)
            else if remaining > LastOption(options).lockEpochs then r == Throws(InvalidLockEpochs)
            else
              && Shrinks(options, remaining, adjusted)
              && Costs(options, tokenAmount, remaining, adjusted, r)
  {
    if adjusted < 0 {
      NegativePeriodThrows(options, tokenAmount, remaining, adjusted);
    } else if remaining <= LastOption(options).lockEpochs {
      PenaltyOnCurve(options, tokenAmount, remaining, adjusted);
    } else {
      PenaltyBeyondCurve(options, tokenAmount, remaining, adjusted);
    }
  }

  lemma OptionsAtLeastFirst(options: seq<LockOption>, period: int)
    requires ValidOptions(options) && IsOption(options, period)
    ensures options[0].lockEpochs <= period <= LastOption(options).lockEpochs
  {
    var o :| o in options && o.lockEpochs == period;
    var i :| 0 <= i < |options| && options[i] == o;
  }
}
