/**
 The swaps a transaction asks the router contract for (`auto-router.transactions.service.ts`),
 with their tolerances, and what becomes of them at the reserves the route was quoted at.
 A pair is taken to charge what the service's own formulas say.
 */
module AutoRouterTransactions {
  import opened Arithmetic
  import opened BigNumbers
  import opened PairUtils
  import opened Pairs
  import opened TokenPaths
  import opened AutoRouterCompute
  import opened AutoRouter
  import opened Wrappers

  datatype Swap = Swap(address: string, function_: SwapType, token: Token, amount: int)

  /** Rounding of a number that may be negative: by its absolute value. */
  function RoundedSigned(n: int, d: nat): int
    requires d > 0
  {
    if n >= 0 then Rounded(n, d)
    else
      var size: int := Rounded(-n, d);
      -size
  }

  /** The least output hop i of a fixed-input route accepts: the quoted one less (hops - i) shares of the tolerance. */
  function MinimumOut(quoted: nat, hops: nat, i: nat, tolerance: Tolerance): int
    requires i < hops
  {
    HopsTimesDen(hops, tolerance);
    RoundedSigned(quoted * (hops * tolerance.den - (hops - i) * tolerance.num), hops * tolerance.den)
  }

  /** The output hop i of a fixed-output route asks for: the quoted one plus (hops - i - 1) shares of the tolerance. */
  function RequestedOut(quoted: nat, hops: nat, i: nat, tolerance: Tolerance): nat
    requires i < hops
  {
    HopsTimesDen(hops, tolerance);
    Rounded(quoted * (hops * tolerance.den + (hops - i - 1) * tolerance.num), hops * tolerance.den)
  }

  lemma HopsTimesDen(hops: nat, tolerance: Tolerance)
    requires hops > 0
    ensures hops * tolerance.den > 0
  {
    MulMonotone(1, hops, tolerance.den);
  }

  method MultiPairFixedInputSwaps(
    addressRoute: seq<string>, intermediaryAmounts: seq<nat>, tokenRoute: Path, tolerance: Tolerance
  ) returns (swaps: seq<Swap>)
    requires |intermediaryAmounts| == |tokenRoute| == |addressRoute| + 1
    ensures |swaps| == |addressRoute|
    ensures forall i :: 0 <= i < |swaps| ==>
              swaps[i] == Swap(addressRoute[i], FixedInput, tokenRoute[i + 1],
                               MinimumOut(intermediaryAmounts[i + 1], |addressRoute|, i, tolerance))
    ensures forall i :: 0 <= i < |swaps| ==>
              IsMinimum(swaps[i].amount, intermediaryAmounts[i + 1], |addressRoute|, i, tolerance)
  {
    swaps := [];
    for index := 0 to |addressRoute|
      invariant |swaps| == index
      invariant forall i :: 0 <= i < index ==>
                  swaps[i] == Swap(addressRoute[i], FixedInput, tokenRoute[i + 1],
                                   MinimumOut(intermediaryAmounts[i + 1], |addressRoute|, i, tolerance))
    {
      var amountOutMin := MinimumOut(intermediaryAmounts[index + 1], |addressRoute|, index, tolerance);
      swaps := swaps + [Swap(addressRoute[index], FixedInput, tokenRoute[index + 1], amountOutMin)];
    }
    forall i | 0 <= i < |swaps|
      ensures IsMinimum(swaps[i].amount, intermediaryAmounts[i + 1], |addressRoute|, i, tolerance)
    {
      MinimumRounds(intermediaryAmounts[i + 1], |addressRoute|, i, tolerance);
    }
  }

  method MultiPairFixedOutputSwaps(
    addressRoute: seq<string>, intermediaryAmounts: seq<nat>, tokenRoute: Path, tolerance: Tolerance
  ) returns (swaps: seq<Swap>)
    requires |intermediaryAmounts| == |tokenRoute| == |addressRoute| + 1
    ensures |swaps| == |addressRoute|
    ensures forall i :: 0 <= i < |swaps| ==>
              swaps[i] == Swap(addressRoute[i], FixedOutput, tokenRoute[i + 1],
                               RequestedOut(intermediaryAmounts[i + 1], |addressRoute|, i, tolerance))
    ensures forall i :: 0 <= i < |swaps| ==>
              IsRequest(swaps[i].amount, intermediaryAmounts[i + 1], |addressRoute|, i, tolerance)
  {
    swaps := [];
    for index := 0 to |addressRoute|
      invariant |swaps| == index
      invariant forall i :: 0 <= i < index ==>
                  swaps[i] == Swap(addressRoute[i], FixedOutput, tokenRoute[i + 1],
                                   RequestedOut(intermediaryAmounts[i + 1], |addressRoute|, i, tolerance))
    {
      var amountOut := RequestedOut(intermediaryAmounts[index + 1], |addressRoute|, index, tolerance);
      swaps := swaps + [Swap(addressRoute[index], FixedOutput, tokenRoute[index + 1], amountOut)];
    }
    forall i | 0 <= i < |swaps|
      ensures IsRequest(swaps[i].amount, intermediaryAmounts[i + 1], |addressRoute|, i, tolerance)
    {
      RequestRounds(intermediaryAmounts[i + 1], |addressRoute|, i, tolerance);
    }
  }

  // ----- what the tolerances do to an amount -------------------------------------------

  lemma RoundedAtLeast(a: nat, n: nat, d: nat)
    requires d > 0
    ensures a * d <= n ==> a <= Rounded(n, d)
    ensures n <= a * d ==> Rounded(n, d) <= a
  {
    RoundedOfWhole(a, d);
    if a * d <= n {
      MulMonotone(a * d, n, d);
      RoundedMonotone(a * d, d, n, d);
    }
    if n <= a * d {
      MulMonotone(n, a * d, d);
      RoundedMonotone(n, d, a * d, d);
    }
  }

  /** quoted * (1 - (hops - i) / hops * tolerance), rounded. */
  ghost predicate IsMinimum(minimum: int, quoted: nat, hops: nat, i: nat, tolerance: Tolerance) {
    var d := hops * tolerance.den;
    d > 0 && IsRounding(minimum, quoted * (d - (hops - i) * tolerance.num), d)
  }

  /** quoted * (1 + (hops - i - 1) / hops * tolerance), rounded. */
  ghost predicate IsRequest(request: int, quoted: nat, hops: nat, i: nat, tolerance: Tolerance) {
    var d := hops * tolerance.den;
    d > 0 && IsRounding(request, quoted * (d + (hops - i - 1) * tolerance.num), d)
  }

  lemma MinimumRounds(quoted: nat, hops: nat, i: nat, tolerance: Tolerance)
    requires i < hops
    ensures IsMinimum(MinimumOut(quoted, hops, i, tolerance), quoted, hops, i, tolerance)
  {
    HopsTimesDen(hops, tolerance);
  }

  lemma RequestRounds(quoted: nat, hops: nat, i: nat, tolerance: Tolerance)
    requires i < hops
    ensures IsRequest(RequestedOut(quoted, hops, i, tolerance), quoted, hops, i, tolerance)
  {
    HopsTimesDen(hops, tolerance);
    var more := (hops - i - 1) * tolerance.num;
    MulMonotone(0, hops - i - 1, tolerance.num);
    MulMonotone(0, hops * tolerance.den + more, quoted);
  }

  /**
   The minimum written out, for a tolerance up to 1: the quoted amount less (hops - i) of hops
   equal shares of the tolerance, rounded.
   */
  lemma MinimumBounds(quoted: nat, hops: nat, i: nat, tolerance: Tolerance)
    requires i < hops && tolerance.num <= tolerance.den
    ensures var d := hops * tolerance.den;
            var exact := quoted * (d - (hops - i) * tolerance.num);
            var minimum := MinimumOut(quoted, hops, i, tolerance);
            && exact >= 0 && minimum >= 0
            && (ROUNDING == HalfUp ==> 2 * d * minimum <= 2 * exact + d < 2 * d * minimum + 2 * d)
            && (ROUNDING == Down ==> d * minimum <= exact < d * minimum + d)
  {
    MinimumRounds(quoted, hops, i, tolerance);
    var d := hops * tolerance.den;
    MulMonotone(hops - i, hops, tolerance.num);
    MulMonotone(tolerance.num, tolerance.den, hops);
    MulMonotone(0, d - (hops - i) * tolerance.num, quoted);
  }

  /** The request written out: the quoted amount plus (hops - i - 1) of hops equal shares, rounded. */
  lemma RequestBounds(quoted: nat, hops: nat, i: nat, tolerance: Tolerance)
    requires i < hops
    ensures var d := hops * tolerance.den;
            var exact := quoted * (d + (hops - i - 1) * tolerance.num);
            var request := RequestedOut(quoted, hops, i, tolerance);
            && (ROUNDING == HalfUp ==> 2 * d * request <= 2 * exact + d < 2 * d * request + 2 * d)
            && (ROUNDING == Down ==> d * request <= exact < d * request + d)
  {
    RequestRounds(quoted, hops, i, tolerance);
    var d := hops * tolerance.den;
    MulMonotone(0, hops - i - 1, tolerance.num);
    MulMonotone(0, d + (hops - i - 1) * tolerance.num, quoted);
  }

  /** A minimum is never above the quote, and never negative unless the tolerance is more than the whole. */
  lemma MinimumBelowQuote(quoted: nat, hops: nat, i: nat, tolerance: Tolerance)
    requires i < hops
    ensures MinimumOut(quoted, hops, i, tolerance) <= quoted
    ensures tolerance.num <= tolerance.den ==> 0 <= MinimumOut(quoted, hops, i, tolerance)
  {
    HopsTimesDen(hops, tolerance);
    var d := hops * tolerance.den;
    var kept := d - (hops - i) * tolerance.num;
    MulMonotone(0, hops - i, tolerance.num);
    MulMonotone(kept, d, quoted);
    if quoted * kept >= 0 {
      RoundedAtLeast(quoted, quoted * kept, d);
    }
    if tolerance.num <= tolerance.den {
      MulMonotone(hops - i, hops, tolerance.num);
      MulMonotone(tolerance.num, tolerance.den, hops);
      MulMonotone(0, kept, quoted);
    }
  }

  /** A request is never below the quote, and is the quote on the last hop and without a tolerance. */
  lemma RequestAboveQuote(quoted: nat, hops: nat, i: nat, tolerance: Tolerance)
    requires i < hops
    ensures quoted <= RequestedOut(quoted, hops, i, tolerance)
    ensures i == hops - 1 || tolerance.num == 0 ==> RequestedOut(quoted, hops, i, tolerance) == quoted
  {
    HopsTimesDen(hops, tolerance);
    var d := hops * tolerance.den;
    var more := (hops - i - 1) * tolerance.num;
    MulMonotone(0, hops - i - 1, tolerance.num);
    MulMonotone(d, d + more, quoted);
    RoundedAtLeast(quoted, quoted * (d + more), d);
  }

  // ----- a fixed-output transaction ----------------------------------------------------

  /** The hop can hand out what is wanted for at most the funds. */
  predicate Affordable(hop: Hop, wanted: nat, funds: nat) {
    var cost := StepIn(Fin(wanted), hop);
    cost.Fin? && cost.value <= funds
  }

  lemma AffordableIff(hop: Hop, wanted: nat, funds: nat)
    ensures Affordable(hop, wanted, funds) <==>
              && wanted < hop.ReserveOut() && hop.pair.totalFee < BASE_POINTS
              && var cost := GetAmountIn(Fin(wanted), hop.ReserveIn(), hop.ReserveOut(), hop.pair.totalFee);
                 cost.Fin? && cost.value <= funds
  {
    StepInFinite(Fin(wanted), hop);
  }

  /** The swaps from hop k on: each pays for its request out of what the one before has handed out. */
  function RunFixedOutput(hops: seq<Hop>, requests: seq<nat>, funds: nat, k: nat): Option<nat>
    requires |requests| == |hops| && k <= |hops|
    decreases |hops| - k
  {
    if k == |hops| then Some(funds)
    else if Affordable(hops[k], requests[k], funds) then RunFixedOutput(hops, requests, requests[k], k + 1)
    else None
  }

  /** What hop i has to pay with. */
  function FundsAt(requests: seq<nat>, funds: nat, i: nat): nat
    requires i <= |requests|
  {
    if i == 0 then funds else requests[i - 1]
  }

  /** Hop i can be paid for. */
  ghost predicate Paid(hops: seq<Hop>, requests: seq<nat>, funds: nat, i: nat)
    requires |requests| == |hops| && i < |hops|
  {
    Affordable(hops[i], requests[i], FundsAt(requests, funds, i))
  }

  ghost predicate AllButLastPaid(hops: seq<Hop>, requests: seq<nat>, funds: nat)
    requires |requests| == |hops|
  {
    forall i :: 0 <= i < |hops| - 1 ==> Paid(hops, requests, funds, i)
  }

  lemma {:induction false} RunFixedOutputIff(hops: seq<Hop>, requests: seq<nat>, funds: nat, k: nat)
    requires |requests| == |hops| && k <= |hops|
    ensures RunFixedOutput(hops, requests, FundsAt(requests, funds, k), k)
         == if forall i :: k <= i < |hops| ==> Paid(hops, requests, funds, i)
            then Some(FundsAt(requests, funds, |hops|)) else None
    decreases |hops| - k
  {
    if k < |hops| {
      RunFixedOutputIff(hops, requests, funds, k + 1);
      assert Paid(hops, requests, funds, k) <==> Affordable(hops[k], requests[k], FundsAt(requests, funds, k));
    }
  }

  lemma LastHopPaid(hops: seq<Hop>, requests: seq<nat>, funds: nat)
    requires |requests| == |hops| > 0 && Paid(hops, requests, funds, |hops| - 1)
    ensures RunFixedOutput(hops, requests, funds, 0)
         == if AllButLastPaid(hops, requests, funds) then Some(requests[|hops| - 1]) else None
  {
    RunFixedOutputIff(hops, requests, funds, 0);
  }

  /** The amounts of a fixed-output route: each is what its hop needs for the next. */
  ghost predicate IsCostQuote(hops: seq<Hop>, quotes: seq<nat>) {
    |quotes| == |hops| + 1 && forall i :: 0 <= i < |hops| ==> CostsQuoted(hops, quotes, i)
  }

  ghost predicate CostsQuoted(hops: seq<Hop>, quotes: seq<nat>, i: nat)
    requires i < |hops| && |quotes| == |hops| + 1
  {
    StepIn(Fin(quotes[i + 1]), hops[i]) == Fin(quotes[i])
  }

  /** What the transaction asks the hops for. */
  function Requests(quotes: seq<nat>, tolerance: Tolerance): seq<nat>
    requires |quotes| > 0
  {
    seq(|quotes| - 1, i requires 0 <= i < |quotes| - 1 => RequestedOut(quotes[i + 1], |quotes| - 1, i, tolerance))
  }

  /** What it attaches. */
  function Attached(quotes: seq<nat>, tolerance: Tolerance): nat
    requires |quotes| > 0
  {
    AddTolerance(Fin(quotes[0]), tolerance).value
  }

  /** Whatever pays for a hop is at least what the quote says it needs. */
  lemma FundsAboveQuote(quotes: seq<nat>, tolerance: Tolerance, i: nat)
    requires i < |quotes|
    ensures quotes[i] <= FundsAt(Requests(quotes, tolerance), Attached(quotes, tolerance), i)
  {
    if i == 0 {
      ToleranceOnlyAdds(quotes[0], tolerance);
    } else {
      RequestAboveQuote(quotes[i], |quotes| - 1, i - 1, tolerance);
    }
  }

  /** A hop asked for exactly its quote can be paid for. */
  lemma QuotedIsAffordable(hops: seq<Hop>, quotes: seq<nat>, tolerance: Tolerance, i: nat)
    requires IsCostQuote(hops, quotes) && i < |hops|
    requires i == |hops| - 1 || tolerance.num == 0
    ensures Requests(quotes, tolerance)[i] == quotes[i + 1]
    ensures Affordable(hops[i], quotes[i + 1], FundsAt(Requests(quotes, tolerance), Attached(quotes, tolerance), i))
  {
    RequestAboveQuote(quotes[i + 1], |hops|, i, tolerance);
    FundsAboveQuote(quotes, tolerance, i);
    assert CostsQuoted(hops, quotes, i);
  }

  /** The outcome of the transaction at the quoted reserves. */
  function FixedOutputOutcome(hops: seq<Hop>, quotes: seq<nat>, tolerance: Tolerance): Option<nat>
    requires |quotes| == |hops| + 1
  {
    RunFixedOutput(hops, Requests(quotes, tolerance), Attached(quotes, tolerance), 0)
  }

  /**
   Exactly when a fixed-output transaction completes at the quoted reserves: when every hop
   but the last can be paid for with its tolerance.  It then hands out exactly the target.
   */
  lemma FixedOutputCompletesIff(hops: seq<Hop>, quotes: seq<nat>, tolerance: Tolerance)
    requires |hops| > 0 && IsCostQuote(hops, quotes)
    ensures FixedOutputOutcome(hops, quotes, tolerance)
         == if AllButLastPaid(hops, Requests(quotes, tolerance), Attached(quotes, tolerance))
            then Some(quotes[|hops|]) else None
  {
    var last := |hops| - 1;
    QuotedIsAffordable(hops, quotes, tolerance, last);
    assert Paid(hops, Requests(quotes, tolerance), Attached(quotes, tolerance), last);
    LastHopPaid(hops, Requests(quotes, tolerance), Attached(quotes, tolerance));
  }

  /** Without a tolerance, and on a single hop with any, a fixed-output transaction completes. */
  lemma ZeroToleranceCompletes(hops: seq<Hop>, quotes: seq<nat>, tolerance: Tolerance)
    requires |hops| > 0 && IsCostQuote(hops, quotes)
    requires tolerance.num == 0 || |hops| == 1
    ensures FixedOutputOutcome(hops, quotes, tolerance) == Some(quotes[|hops|])
  {
    FixedOutputCompletesIff(hops, quotes, tolerance);
    forall i | 0 <= i < |hops| - 1
      ensures Paid(hops, Requests(quotes, tolerance), Attached(quotes, tolerance), i)
    {
      QuotedIsAffordable(hops, quotes, tolerance, i);
    }
  }

  // ----- a fixed-input transaction -----------------------------------------------------

  /** The swaps from hop k on: each sells what the one before has paid, and fails below its minimum. */
  function RunFixedInput(hops: seq<Hop>, minima: seq<int>, holdings: nat, k: nat): Option<nat>
    requires |minima| == |hops| && k <= |hops|
    decreases |hops| - k
  {
    if k == |hops| then Some(holdings)
    else
      match StepOut(Fin(holdings), hops[k])
      case Fin(out) => if minima[k] <= out then RunFixedInput(hops, minima, out, k + 1) else None
      case _ => None
  }

  /** The amounts of a fixed-input route: each is what its hop pays for the one before. */
  ghost predicate IsSaleQuote(hops: seq<Hop>, quotes: seq<nat>) {
    |quotes| == |hops| + 1 && forall i :: 0 <= i < |hops| ==> PaysQuoted(hops, quotes, i)
  }

  ghost predicate PaysQuoted(hops: seq<Hop>, quotes: seq<nat>, i: nat)
    requires i < |hops| && |quotes| == |hops| + 1
  {
    StepOut(Fin(quotes[i]), hops[i]) == Fin(quotes[i + 1])
  }

  /** The minima of a fixed-input transaction. */
  function Minima(quotes: seq<nat>, tolerance: Tolerance): seq<int>
    requires |quotes| > 0
  {
    seq(|quotes| - 1, i requires 0 <= i < |quotes| - 1 => MinimumOut(quotes[i + 1], |quotes| - 1, i, tolerance))
  }

  /** The swaps complete exactly when every sale is at least its minimum. */
  lemma {:induction false} RunFixedInputIff(hops: seq<Hop>, quotes: seq<nat>, minima: seq<int>, k: nat)
    requires IsSaleQuote(hops, quotes) && |minima| == |hops| && k <= |hops|
    ensures RunFixedInput(hops, minima, quotes[k], k)
         == if forall i :: k <= i < |hops| ==> minima[i] <= quotes[i + 1] then Some(quotes[|hops|]) else None
    decreases |hops| - k
  {
    if k < |hops| {
      RunFixedInputIff(hops, quotes, minima, k + 1);
      assert PaysQuoted(hops, quotes, k);
    }
  }

  /** Whatever the reserves have become, swaps that complete hand out at least the last minimum. */
  lemma {:induction false} CompletedMeetsMinimum(hops: seq<Hop>, minima: seq<int>, holdings: nat, k: nat)
    requires |minima| == |hops| && k < |hops|
    requires RunFixedInput(hops, minima, holdings, k).Some?
    ensures minima[|hops| - 1] <= RunFixedInput(hops, minima, holdings, k).value
    decreases |hops| - k
  {
    var out := StepOut(Fin(holdings), hops[k]).value;
    if k + 1 < |hops| {
      CompletedMeetsMinimum(hops, minima, out, k + 1);
    }
  }

  /**
   Protection against slippage: at whatever reserves a fixed-input transaction is carried out, if
   it completes it hands out at least the quoted output less one of n equal shares of the
   tolerance, for n hops, up to the rounding.
   */
  lemma SlippageProtected(hops: seq<Hop>, quotes: seq<nat>, tolerance: Tolerance, x: nat)
    requires |hops| > 0 && |quotes| == |hops| + 1 && tolerance.num <= tolerance.den
    requires RunFixedInput(hops, Minima(quotes, tolerance), x, 0).Some?
    ensures var out := RunFixedInput(hops, Minima(quotes, tolerance), x, 0).value;
            var d := |hops| * tolerance.den;
            var exact := quotes[|hops|] * (d - tolerance.num);
            && (ROUNDING == HalfUp ==> 2 * exact < 2 * (d * out) + d)
            && (ROUNDING == Down ==> exact < d * out + d)
  {
    var n := |hops|;
    CompletedMeetsMinimum(hops, Minima(quotes, tolerance), x, 0);
    MinimumBounds(quotes[n], n, n - 1, tolerance);
    HopsTimesDen(n, tolerance);
    MulMonotone(
      MinimumOut(quotes[n], n, n - 1, tolerance), RunFixedInput(hops, Minima(quotes, tolerance), x, 0).value,
      n * tolerance.den);
  }

  /**
   For every tolerance a fixed-input transaction completes at the quoted reserves, with the quoted
   output.  Only a tolerance of more than the whole can ask for a negative minimum, which the
   unsigned arguments of a transaction cannot carry.
   */
  lemma FixedInputCompletes(hops: seq<Hop>, quotes: seq<nat>, tolerance: Tolerance)
    requires IsSaleQuote(hops, quotes)
    ensures RunFixedInput(hops, Minima(quotes, tolerance), quotes[0], 0) == Some(quotes[|hops|])
    ensures tolerance.num <= tolerance.den ==> forall i :: 0 <= i < |hops| ==> 0 <= Minima(quotes, tolerance)[i]
  {
    forall i | 0 <= i < |hops| && tolerance.num <= tolerance.den
      ensures 0 <= Minima(quotes, tolerance)[i]
    {
      MinimumBelowQuote(quotes[i + 1], |hops|, i, tolerance);
    }
    forall i | 0 <= i < |hops|
      ensures Minima(quotes, tolerance)[i] <= quotes[i + 1]
    {
      MinimumBelowQuote(quotes[i + 1], |hops|, i, tolerance);
    }
    RunFixedInputIff(hops, quotes, Minima(quotes, tolerance), 0);
  }

  /** The least output a single-pair transaction accepts: 1 / (1 + tolerance) of the quote. */
  function SinglePairMinimum(quoted: nat, tolerance: Tolerance): nat {
    Rounded(Rounded(tolerance.den * SCALE, tolerance.den + tolerance.num) * quoted, SCALE)
  }

  /** It is the share den / (den + num), rounded to 20 decimals, of the quote, rounded to a whole number. */
  lemma SinglePairRounds(quoted: nat, tolerance: Tolerance) returns (share: nat)
    ensures IsRounding(share, tolerance.den * 100_000_000_000_000_000_000, tolerance.den + tolerance.num)
    ensures IsRounding(SinglePairMinimum(quoted, tolerance), share * quoted, 100_000_000_000_000_000_000)
  {
    share := Rounded(tolerance.den * SCALE, tolerance.den + tolerance.num);
  }

  lemma SinglePairBelowQuote(quoted: nat, tolerance: Tolerance)
    ensures SinglePairMinimum(quoted, tolerance) <= quoted
  {
    var share := Rounded(tolerance.den * SCALE, tolerance.den + tolerance.num);
    MulMonotone(tolerance.den, tolerance.den + tolerance.num, SCALE);
    RoundedAtLeast(SCALE, tolerance.den * SCALE, tolerance.den + tolerance.num);
    MulMonotone(share, SCALE, quoted);
    RoundedAtLeast(quoted, share * quoted, SCALE);
  }

  lemma SinglePairCompletes(hop: Hop, x: nat, out: nat, tolerance: Tolerance)
    requires StepOut(Fin(x), hop) == Fin(out)
    ensures RunFixedInput([hop], [SinglePairMinimum(out, tolerance)], x, 0) == Some(out)
  {
    SinglePairBelowQuote(out, tolerance);
    assert RunFixedInput([hop], [SinglePairMinimum(out, tolerance)], out, 1) == Some(out);
  }

  // ----- the transactions of a reported route ------------------------------------------

  ghost predicate AllFinite(amounts: seq<Amount>) {
    forall a :: a in amounts ==> a.Fin?
  }

  function Values(amounts: seq<Amount>): seq<nat> {
    seq(|amounts|, i requires 0 <= i < |amounts| => if amounts[i].Fin? then amounts[i].value else 0)
  }

  lemma CostsOfBackward(hops: seq<Hop>, y: nat)
    requires BackwardAt(hops, Fin(y), 0).Fin?
    ensures AllFinite(BackwardAmounts(hops, Fin(y)))
    ensures IsCostQuote(hops, Values(BackwardAmounts(hops, Fin(y))))
  {
    var amounts := BackwardAmounts(hops, Fin(y));
    forall k | 0 <= k <= |hops|
      ensures amounts[k].Fin?
    {
      FiniteFromHead(hops, Fin(y), k);
    }
    forall i | 0 <= i < |hops|
      ensures CostsQuoted(hops, Values(amounts), i)
    {
      assert amounts[i] == StepIn(amounts[i + 1], hops[i]);
    }
  }

  lemma {:induction false} FiniteUpTo(hops: seq<Hop>, x: Amount, k: nat)
    requires k <= |hops| && ForwardAt(hops, x, |hops|).Fin?
    ensures ForwardAt(hops, x, k).Fin?
    decreases |hops| - k
  {
    if k < |hops| {
      FiniteUpTo(hops, x, k + 1);
    }
  }

  lemma ForwardFinite(hops: seq<Hop>, x: nat)
    requires ForwardAt(hops, Fin(x), |hops|).Fin?
    ensures AllFinite(ForwardAmounts(hops, Fin(x)))
  {
    forall k | 0 <= k <= |hops|
      ensures ForwardAmounts(hops, Fin(x))[k].Fin?
    {
      FiniteUpTo(hops, Fin(x), k);
    }
  }

  lemma SaleQuoted(hops: seq<Hop>, x: nat, i: nat)
    requires i < |hops| && AllFinite(ForwardAmounts(hops, Fin(x)))
    ensures PaysQuoted(hops, Values(ForwardAmounts(hops, Fin(x))), i)
  {
    var amounts := ForwardAmounts(hops, Fin(x));
    assert amounts[i] in amounts && amounts[i + 1] in amounts;
    assert amounts[i + 1] == StepOut(amounts[i], hops[i]);
  }

  lemma SalesOfForward(hops: seq<Hop>, x: nat)
    requires ForwardAt(hops, Fin(x), |hops|).Fin?
    ensures AllFinite(ForwardAmounts(hops, Fin(x)))
    ensures IsSaleQuote(hops, Values(ForwardAmounts(hops, Fin(x))))
  {
    ForwardFinite(hops, x);
    forall i | 0 <= i < |hops|
      ensures PaysQuoted(hops, Values(ForwardAmounts(hops, Fin(x))), i)
    {
      SaleQuoted(hops, x, i);
    }
  }

  /** The minima of the transaction for a fixed-input answer: with a single pair it goes to that pair. */
  function SentMinima(model: AutoRouteModel): seq<int>
    requires |model.intermediaryAmounts| > 0 && model.amountOut.Fin?
  {
    if |model.pairs| == 1 then [SinglePairMinimum(model.amountOut.value, model.tolerance)]
    else Minima(Values(model.intermediaryAmounts), model.tolerance)
  }

  /** The requests of the transaction for a fixed-output answer. */
  function SentRequests(model: AutoRouteModel): seq<nat>
    requires |model.intermediaryAmounts| > 0 && model.amountOut.Fin?
  {
    if |model.pairs| == 1 then [model.amountOut.value]
    else Requests(Values(model.intermediaryAmounts), model.tolerance)
  }

  lemma SentSale(hops: seq<Hop>, model: AutoRouteModel, x: nat)
    requires ForwardAt(hops, Fin(x), |hops|).Fin? && |model.pairs| == |hops|
    requires model.intermediaryAmounts == ForwardAmounts(hops, Fin(x))
    requires model.amountOut == ForwardAt(hops, Fin(x), |hops|)
    ensures |SentMinima(model)| == |hops|
    ensures RunFixedInput(hops, SentMinima(model), x, 0) == Some(model.amountOut.value)
  {
    SalesOfForward(hops, x);
    FixedInputCompletes(hops, Values(model.intermediaryAmounts), model.tolerance);
    if |hops| == 1 {
      SaleOfOne(hops, x);
      SinglePairCompletes(hops[0], x, model.amountOut.value, model.tolerance);
      assert hops == [hops[0]];
    }
  }

  /**
   The same protection for the transaction of an answer, whatever the reserves have become: sent
   through several pairs it is the share of `SlippageProtected`; sent to a single pair, at least
   1 / (1 + tolerance) of the output shown, up to the rounding.
   */
  lemma SentSaleProtected(hops: seq<Hop>, model: AutoRouteModel, x: nat) returns (share: nat)
    requires model.amountOut.Fin? && model.tolerance.num <= model.tolerance.den
    requires |hops| == |model.pairs| > 0 && |model.intermediaryAmounts| == |hops| + 1
    requires model.intermediaryAmounts[|hops|] == model.amountOut
    requires RunFixedInput(hops, SentMinima(model), x, 0).Some?
    ensures var out := RunFixedInput(hops, SentMinima(model), x, 0).value;
            var (num, den, shown) := (model.tolerance.num, model.tolerance.den, model.amountOut.value);
            if |hops| == 1 then
              && IsRounding(share, den * 100_000_000_000_000_000_000, den + num)
              && (ROUNDING == HalfUp ==> 2 * (share * shown) < 100_000_000_000_000_000_000 * (2 * out + 1))
              && (ROUNDING == Down ==> share * shown < 100_000_000_000_000_000_000 * (out + 1))
            else
              var d := |hops| * den;
              && (ROUNDING == HalfUp ==> 2 * (shown * (d - num)) < 2 * (d * out) + d)
              && (ROUNDING == Down ==> shown * (d - num) < d * out + d)
  {
    share := SinglePairRounds(model.amountOut.value, model.tolerance);
    if |hops| == 1 {
      CompletedMeetsMinimum(hops, SentMinima(model), x, 0);
    } else {
      SlippageProtected(hops, Values(model.intermediaryAmounts), model.tolerance, x);
    }
  }

  lemma SaleOfOne(hops: seq<Hop>, x: nat)
    requires |hops| == 1
    ensures ForwardAt(hops, Fin(x), 1) == StepOut(Fin(x), hops[0])
  {
    assert ForwardAt(hops, Fin(x), 0) == Fin(x);
  }

  lemma SentPurchase(hops: seq<Hop>, model: AutoRouteModel, y: nat)
    requires BackwardAt(hops, Fin(y), 0).Fin? && |model.pairs| == |hops| > 0
    requires model.intermediaryAmounts == BackwardAmounts(hops, Fin(y)) && model.amountOut == Fin(y)
    requires model.amountIn == AddTolerance(BackwardAt(hops, Fin(y), 0), model.tolerance)
    ensures |SentRequests(model)| == |hops|
    ensures RunFixedOutput(hops, SentRequests(model), model.amountIn.value, 0)
         == if AllButLastPaid(hops, SentRequests(model), model.amountIn.value) then Some(y) else None
  {
    var quotes := Values(model.intermediaryAmounts);
    CostsOfBackward(hops, y);
    FixedOutputCompletesIff(hops, quotes, model.tolerance);
    if |hops| == 1 {
      RequestAboveQuote(y, 1, 0, model.tolerance);
      assert Requests(quotes, model.tolerance) == [y];
    }
  }

  /**
   From the search to the transaction, at the reserves of the quote: a fixed-input answer is
   always carried out with the output shown; a fixed-output answer is carried out, with exactly
   the output asked for, if and only if every hop but the last can be paid for, and so always
   when it has a single hop.
   */
  lemma SentSwapsOutcome(
    pairs: seq<PairModel>, source: Token, destination: Token, amount: nat, model: AutoRouteModel, route: BestSwapRoute
  )
    requires source != destination
    requires IsBestRoute(pairs, source, destination, model.swapType, Fin(amount), route)
    requires Reports(model, route, pairs, Fin(amount))
    ensures AllFinite(model.intermediaryAmounts) && model.amountIn.Fin? && model.amountOut.Fin?
    ensures var hops := RouteHops(pairs, route.tokenRoute);
            && |model.intermediaryAmounts| == |hops| + 1
            && if model.swapType == FixedInput then
                 && |SentMinima(model)| == |hops|
                 && RunFixedInput(hops, SentMinima(model), model.amountIn.value, 0) == Some(model.amountOut.value)
               else
                 && |SentRequests(model)| == |hops|
                 && RunFixedOutput(hops, SentRequests(model), model.amountIn.value, 0)
                    == if AllButLastPaid(hops, SentRequests(model), model.amountIn.value)
                       then Some(model.amountOut.value) else None
  {
    var hops := RouteHops(pairs, route.tokenRoute);
    RouteResolves(pairs, source, destination, route.tokenRoute);
    OnePairPerHop(pairs, hops);
    QuoteOverHops(pairs, route.tokenRoute, Fin(amount));
    if model.swapType == FixedInput {
      ForwardNeverInfinite(hops, Fin(amount), |hops|);
      SalesOfForward(hops, amount);
      SentSale(hops, model, amount);
    } else {
      CostsOfBackward(hops, amount);
      SentPurchase(hops, model, amount);
    }
  }

  // ----- tolerance can be too much -----------------------------------------------------

  const PAIR_AB: PairModel := PairModel("x", EsdtToken("A", 18), EsdtToken("B", 18), 1_000_000, 1_000_000, 0)

  const PAIR_BC: PairModel := PairModel("y", EsdtToken("B", 18), EsdtToken("C", 18), 899_999, 2, 0)

  /**
   A two-hop fixed-output answer whose transaction fails at the very reserves it was quoted at,
   with a tolerance of 5%: the first hop is asked for 922500 instead of 900000, which costs
   about 11.9 million, and 9450001 are attached.
   */
  lemma ToleranceCanBeTooMuch(route: BestSwapRoute, quotes: seq<nat>)
    requires quotes == [9_000_001, 900_000, 1]
    requires route == BestSwapRoute(
                        ["A", "B", "C"], [Fin(quotes[0]), Fin(quotes[1]), Fin(quotes[2])], ["x", "y"], Fin(quotes[0]))
    ensures IsBestRoute([PAIR_AB, PAIR_BC], "A", "C", FixedOutput, Fin(1), route)
    ensures Requests(quotes, Fraction(1, 20)) == [922_500, 1] && Attached(quotes, Fraction(1, 20)) == 9_450_001
    ensures FixedOutputOutcome(RouteHops([PAIR_AB, PAIR_BC], route.tokenRoute), quotes, Fraction(1, 20)) == None
  {
    ExampleIsBest(route, quotes);
    ExampleHops();
    ExampleRequests(quotes);
    ExampleFails([Hop(PAIR_AB, "A"), Hop(PAIR_BC, "B")]);
  }

  lemma ExampleFails(hops: seq<Hop>)
    requires hops == [Hop(PAIR_AB, "A"), Hop(PAIR_BC, "B")]
    ensures RunFixedOutput(hops, [922_500, 1], 9_450_001, 0) == None
  {
    TooExpensive(hops[0]);
    RunFixedOutputIff(hops, [922_500, 1], 9_450_001, 0);
    assert !Paid(hops, [922_500, 1], 9_450_001, 0);
  }

  lemma ExampleIsBest(route: BestSwapRoute, quotes: seq<nat>)
    requires quotes == [9_000_001, 900_000, 1]
    requires route == BestSwapRoute(
                        ["A", "B", "C"], [Fin(quotes[0]), Fin(quotes[1]), Fin(quotes[2])], ["x", "y"], Fin(quotes[0]))
    ensures IsBestRoute([PAIR_AB, PAIR_BC], "A", "C", FixedOutput, Fin(1), route)
  {
    ExampleHops();
    ExampleCosts();
    assert AddressesOf([Hop(PAIR_AB, "A"), Hop(PAIR_BC, "B")]) == ["x", "y"];
    forall p
      ensures IsRoute([PAIR_AB, PAIR_BC], "A", "C", p) <==> p == ["A", "B", "C"]
    {
      OnlyRoute(p);
    }
  }

  lemma ExampleJoined(a: Token, b: Token)
    ensures Joined([PAIR_AB, PAIR_BC], a, b)
       <==> (a == "B" && (b == "A" || b == "C")) || (b == "B" && (a == "A" || a == "C"))
  {
    assert PAIR_AB in [PAIR_AB, PAIR_BC] && PAIR_BC in [PAIR_AB, PAIR_BC];
  }

  lemma OnlyRoute(p: Path)
    ensures IsRoute([PAIR_AB, PAIR_BC], "A", "C", p) <==> p == ["A", "B", "C"]
  {
    forall a, b
      ensures Joined([PAIR_AB, PAIR_BC], a, b)
         <==> (a == "B" && (b == "A" || b == "C")) || (b == "B" && (a == "A" || a == "C"))
    {
      ExampleJoined(a, b);
    }
    if IsRoute([PAIR_AB, PAIR_BC], "A", "C", p) {
      assert |p| > 2 && p[1] == "B" && p[2] == "C";
    }
  }

  lemma ExampleHops()
    ensures RouteHops([PAIR_AB, PAIR_BC], ["A", "B", "C"]) == [Hop(PAIR_AB, "A"), Hop(PAIR_BC, "B")]
  {
    OneMoreHop([PAIR_AB, PAIR_BC], ["A", "B", "C"], 0);
    OneMoreHop([PAIR_AB, PAIR_BC], ["A", "B", "C"], 1);
  }

  lemma ExampleCosts()
    ensures BackwardAmounts([Hop(PAIR_AB, "A"), Hop(PAIR_BC, "B")], Fin(1)) == [Fin(9_000_001), Fin(900_000), Fin(1)]
  {
    var hops := [Hop(PAIR_AB, "A"), Hop(PAIR_BC, "B")];
    StepInExact(hops[0], 900_000, 9_000_000);
    StepInExact(hops[1], 1, 899_999);
    assert BackwardAt(hops, Fin(1), 2) == Fin(1);
    assert BackwardAt(hops, Fin(1), 1) == Fin(900_000);
  }

  lemma ExampleRequests(quotes: seq<nat>)
    requires quotes == [9_000_001, 900_000, 1]
    ensures Requests(quotes, Fraction(1, 20)) == [922_500, 1] && Attached(quotes, Fraction(1, 20)) == 9_450_001
  {
    RoundedOfWhole(922_500, 40);
    RoundedOfWhole(1, 40);
  }

  lemma TooExpensive(hop: Hop)
    requires hop.ReserveIn() == hop.ReserveOut() == 1_000_000 && hop.pair.totalFee == 0
    ensures !Affordable(hop, 922_500, 9_450_001)
  {
    AmountInAboveQuotient(922_500, 1_000_000, 1_000_000, 0);
    StepInFinite(Fin(922_500), hop);
  }

  /** When the quotient is whole, the cost is one more. */
  lemma StepInExact(hop: Hop, wanted: nat, quotient: nat)
    requires wanted < hop.ReserveOut() && hop.pair.totalFee < BASE_POINTS
    requires InNumerator(wanted, hop.ReserveIn())
          == quotient * InDenominator(wanted, hop.ReserveOut(), hop.pair.totalFee)
    ensures StepIn(Fin(wanted), hop) == Fin(quotient + 1)
  {
    AmountInAboveQuotient(wanted, hop.ReserveIn(), hop.ReserveOut(), hop.pair.totalFee);
    RoundTwiceRespectsWholes(
      InNumerator(wanted, hop.ReserveIn()), InDenominator(wanted, hop.ReserveOut(), hop.pair.totalFee), quotient);
  }
}
