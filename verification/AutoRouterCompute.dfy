/**
 Pricing of token paths (`auto-router.compute.service.ts`).  A path is first resolved to
 its hops; a fixed-input pass prices the hops forwards, a fixed-output pass backwards.
 */
module AutoRouterCompute {
  import opened Arithmetic
  import opened BigNumbers
  import opened PairUtils
  import opened Pairs
  import opened Sequences
  import opened TokenPaths
  import opened Wrappers

  datatype SwapType = FixedInput | FixedOutput

  datatype Result<T> = Ok(value: T) | Err(error: RouterError)

  datatype RouterError = NoRouteFound | LockedTokens

  datatype BestSwapRoute = BestSwapRoute(
    tokenRoute: Path,
    intermediaryAmounts: seq<Amount>,
    addressRoute: seq<string>,
    bestResult: Amount
  )

  // ----- resolving a path to hops ------------------------------------------------------

  /** The pair used for a hop, and the token that enters it. */
  datatype Hop = Hop(pair: PairModel, tokenIn: Token) {
    function ReserveIn(): nat { OrderedReserves(tokenIn, pair).0 }

    function ReserveOut(): nat { OrderedReserves(tokenIn, pair).1 }
  }

  function OrderedReserves(tokenIn: Token, pair: PairModel): (nat, nat) {
    if tokenIn == pair.firstToken.identifier then (pair.reserves0, pair.reserves1)
    else (pair.reserves1, pair.reserves0)
  }

  /** The first pair that trades the two tokens. */
  function PairByTokens(pairs: seq<PairModel>, tokenIn: Token, tokenOut: Token): (r: Option<PairModel>)
    ensures r.Some? <==> Joined(pairs, tokenIn, tokenOut)
    ensures r.Some? ==> r.value in pairs && Joins(r.value, tokenIn, tokenOut)
  {
    if pairs == [] then None
    else if Joins(pairs[0], tokenIn, tokenOut) then Some(pairs[0])
    else
      assert pairs == [pairs[0]] + pairs[1..];
      PairByTokens(pairs[1..], tokenIn, tokenOut)
  }

  /** A pair is priced if no pair before it trades the two tokens. */
  lemma {:induction false} FirstOfMarket(pairs: seq<PairModel>, i: nat, tokenIn: Token, tokenOut: Token)
    requires i < |pairs| && Joins(pairs[i], tokenIn, tokenOut)
    requires forall j :: 0 <= j < i ==> !Joins(pairs[j], tokenIn, tokenOut)
    ensures PairByTokens(pairs, tokenIn, tokenOut) == Some(pairs[i])
  {
    if i > 0 {
      FirstOfMarket(pairs[1..], i - 1, tokenIn, tokenOut);
    }
  }

  method GetPairByTokens(pairs: seq<PairModel>, tokenIn: Token, tokenOut: Token) returns (r: Option<PairModel>)
    ensures r == PairByTokens(pairs, tokenIn, tokenOut)
  {
    for i := 0 to |pairs|
      invariant PairByTokens(pairs, tokenIn, tokenOut) == PairByTokens(pairs[i..], tokenIn, tokenOut)
    {
      if || (tokenIn == pairs[i].firstToken.identifier && tokenOut == pairs[i].secondToken.identifier)
         || (tokenIn == pairs[i].secondToken.identifier && tokenOut == pairs[i].firstToken.identifier) {
        return Some(pairs[i]);
      }
    }
    return None;
  }

  /** The hop from position i to the next; empty when no pair trades the two tokens. */
  function HopAt(pairs: seq<PairModel>, path: Path, i: nat): seq<Hop>
    requires i + 1 < |path|
  {
    match PairByTokens(pairs, path[i], path[i + 1])
    case Some(pair) => [Hop(pair, path[i])]
    case None => []
  }

  /** The resolved hops that start at positions lo to hi - 1. */
  function HopsBetween(pairs: seq<PairModel>, path: Path, lo: nat, hi: nat): seq<Hop>
    requires hi < |path| || hi == 0
  {
    if lo >= hi then [] else HopsBetween(pairs, path, lo, hi - 1) + HopAt(pairs, path, hi - 1)
  }

  function RouteHops(pairs: seq<PairModel>, path: Path): seq<Hop> {
    HopsBetween(pairs, path, 0, if |path| == 0 then 0 else |path| - 1)
  }

  lemma {:induction false} HopsFromFront(pairs: seq<PairModel>, path: Path, lo: nat, hi: nat)
    requires lo < hi < |path|
    ensures HopsBetween(pairs, path, lo, hi) == HopAt(pairs, path, lo) + HopsBetween(pairs, path, lo + 1, hi)
  {
    if lo + 1 < hi {
      HopsFromFront(pairs, path, lo, hi - 1);
      Concat3(HopAt(pairs, path, lo), HopsBetween(pairs, path, lo + 1, hi - 1), HopAt(pairs, path, hi - 1));
    }
  }

  /** What one more position adds at the end. */
  lemma OneMoreHop(pairs: seq<PairModel>, path: Path, index: nat)
    requires index + 1 < |path|
    ensures var pair, hops := PairByTokens(pairs, path[index], path[index + 1]), HopsBetween(pairs, path, 0, index);
            HopsBetween(pairs, path, 0, index + 1)
            == if pair.Some? then hops + [Hop(pair.value, path[index])] else hops
  {
  }

  /** What one more position adds in front. */
  lemma OneMoreHopInFront(pairs: seq<PairModel>, path: Path, index: nat, last: nat)
    requires index < last < |path|
    ensures var pair := PairByTokens(pairs, path[index], path[index + 1]);
            var hops := HopsBetween(pairs, path, index + 1, last);
            HopsBetween(pairs, path, index, last)
            == if pair.Some? then [Hop(pair.value, path[index])] + hops else hops
  {
    HopsFromFront(pairs, path, index, last);
  }

  /** The hop is the one priced between positions i and i + 1 of the path. */
  ghost predicate PricedAt(pairs: seq<PairModel>, path: Path, hop: Hop, i: nat) {
    && i + 1 < |path|
    && PairByTokens(pairs, path[i], path[i + 1]) == Some(hop.pair)
    && hop.tokenIn == path[i]
  }

  ghost predicate Resolves(pairs: seq<PairModel>, path: Path, i: nat) {
    i + 1 < |path| && PairByTokens(pairs, path[i], path[i + 1]).Some?
  }

  /** hops[i] is the hop priced at position i, for every position. */
  ghost predicate Aligned(pairs: seq<PairModel>, path: Path, hops: seq<Hop>) {
    forall i :: 0 <= i < |hops| ==> PricedAt(pairs, path, hops[i], i)
  }

  lemma AlignedOneMore(pairs: seq<PairModel>, path: Path, hops: seq<Hop>, more: seq<Hop>)
    requires Aligned(pairs, path, hops) && Resolves(pairs, path, |hops|)
    requires more == hops + HopAt(pairs, path, |hops|)
    ensures |more| == |hops| + 1 && Aligned(pairs, path, more)
  {
    assert PricedAt(pairs, path, more[|hops|], |hops|);
  }

  /** When every hop resolves, there is exactly one per position. */
  lemma {:induction false} HopsAligned(pairs: seq<PairModel>, path: Path, hi: nat)
    requires hi < |path|
    requires forall i :: 0 <= i < hi ==> Resolves(pairs, path, i)
    ensures |HopsBetween(pairs, path, 0, hi)| == hi
    ensures Aligned(pairs, path, HopsBetween(pairs, path, 0, hi))
  {
    if hi > 0 {
      HopsAligned(pairs, path, hi - 1);
      AlignedOneMore(pairs, path, HopsBetween(pairs, path, 0, hi - 1), HopsBetween(pairs, path, 0, hi));
    }
  }

  // ----- the two passes ----------------------------------------------------------------

  function StepOut(amountIn: Amount, hop: Hop): Amount {
    GetAmountOut(amountIn, hop.ReserveIn(), hop.ReserveOut(), hop.pair.totalFee)
  }

  /** A hop that cannot be paid for, or that follows one, costs 'Infinity'. */
  function StepIn(amountOut: Amount, hop: Hop): Amount {
    var amountIn := if amountOut == Infinity then Fin(0)
                    else GetAmountIn(amountOut, hop.ReserveIn(), hop.ReserveOut(), hop.pair.totalFee);
    if amountIn == Fin(0) then Infinity else amountIn
  }

  /** The amount after the first k hops when x enters the first one. */
  function ForwardAt(hops: seq<Hop>, x: Amount, k: nat): Amount
    requires k <= |hops|
  {
    if k == 0 then x else StepOut(ForwardAt(hops, x, k - 1), hops[k - 1])
  }

  /** The amount needed before hop k for y to leave the last one. */
  function BackwardAt(hops: seq<Hop>, y: Amount, k: nat): Amount
    requires k <= |hops|
    decreases |hops| - k
  {
    if k == |hops| then y else StepIn(BackwardAt(hops, y, k + 1), hops[k])
  }

  function ForwardAmounts(hops: seq<Hop>, x: Amount): seq<Amount> {
    seq(|hops| + 1, k requires 0 <= k <= |hops| => ForwardAt(hops, x, k))
  }

  function BackwardAmounts(hops: seq<Hop>, y: Amount): seq<Amount> {
    seq(|hops| + 1, k requires 0 <= k <= |hops| => BackwardAt(hops, y, k))
  }

  lemma {:induction false} ForwardLocal(hops: seq<Hop>, more: seq<Hop>, x: Amount, k: nat)
    requires k <= |hops|
    ensures ForwardAt(hops + more, x, k) == ForwardAt(hops, x, k)
  {
    if k > 0 {
      ForwardLocal(hops, more, x, k - 1);
    }
  }

  lemma ForwardExtends(hops: seq<Hop>, hop: Hop, x: Amount)
    ensures ForwardAmounts(hops + [hop], x)
         == ForwardAmounts(hops, x) + [StepOut(ForwardAmounts(hops, x)[|hops|], hop)]
  {
    forall k | 0 <= k <= |hops|
      ensures ForwardAt(hops + [hop], x, k) == ForwardAt(hops, x, k)
    {
      ForwardLocal(hops, [hop], x, k);
    }
  }

  lemma {:induction false} BackwardLocal(hop: Hop, hops: seq<Hop>, y: Amount, k: nat)
    requires k <= |hops|
    ensures BackwardAt([hop] + hops, y, k + 1) == BackwardAt(hops, y, k)
    decreases |hops| - k
  {
    if k < |hops| {
      BackwardLocal(hop, hops, y, k + 1);
    }
  }

  lemma BackwardExtends(hop: Hop, hops: seq<Hop>, y: Amount)
    ensures BackwardAmounts([hop] + hops, y)
         == [StepIn(BackwardAmounts(hops, y)[0], hop)] + BackwardAmounts(hops, y)
  {
    forall k | 0 <= k <= |hops|
      ensures BackwardAt([hop] + hops, y, k + 1) == BackwardAt(hops, y, k)
    {
      BackwardLocal(hop, hops, y, k);
    }
  }

  /** The inner loop of the fixed-input pass: one path. */
  method PathAmountsFixedInput(path: Path, pairs: seq<PairModel>, initialAmountIn: Amount)
    returns (pathAmounts: seq<Amount>)
    ensures pathAmounts == ForwardAmounts(RouteHops(pairs, path), initialAmountIn)
  {
    pathAmounts := [initialAmountIn];
    var index := 0;
    while index < |path| - 1
      invariant 0 <= index && (index < |path| || index == 0)
      invariant pathAmounts == ForwardAmounts(HopsBetween(pairs, path, 0, index), initialAmountIn)
    {
      var pair := GetPairByTokens(pairs, path[index], path[index + 1]);
      if pair.Some? {
        var hop := Hop(pair.value, path[index]);
        ForwardExtends(HopsBetween(pairs, path, 0, index), hop, initialAmountIn);
        pathAmounts := pathAmounts + [StepOut(pathAmounts[|pathAmounts| - 1], hop)];
      }
      OneMoreHop(pairs, path, index);
      index := index + 1;
    }
  }

  method ComputeIntermediaryAmountsFixedInput(paths: seq<Path>, pairs: seq<PairModel>, initialAmountIn: Amount)
    returns (intermediaryAmounts: seq<seq<Amount>>)
    ensures |intermediaryAmounts| == |paths|
    ensures forall i :: 0 <= i < |paths| ==>
              intermediaryAmounts[i] == ForwardAmounts(RouteHops(pairs, paths[i]), initialAmountIn)
  {
    intermediaryAmounts := [];
    for p := 0 to |paths|
      invariant |intermediaryAmounts| == p
      invariant forall i :: 0 <= i < p ==>
                  intermediaryAmounts[i] == ForwardAmounts(RouteHops(pairs, paths[i]), initialAmountIn)
    {
      var pathAmounts := PathAmountsFixedInput(paths[p], pairs, initialAmountIn);
      intermediaryAmounts := intermediaryAmounts + [pathAmounts];
    }
  }

  /** The inner loop of the fixed-output pass: one path, from its end. */
  method PathAmountsFixedOutput(path: Path, pairs: seq<PairModel>, fixedAmountOut: Amount)
    returns (pathAmounts: seq<Amount>)
    ensures pathAmounts == BackwardAmounts(RouteHops(pairs, path), fixedAmountOut)
  {
    var last := if |path| == 0 then 0 else |path| - 1;
    pathAmounts := [fixedAmountOut];
    var index := |path| - 1;
    while index > 0
      invariant index <= last && (index >= 0 || |path| == 0)
      invariant pathAmounts
             == BackwardAmounts(HopsBetween(pairs, path, if index < 0 then 0 else index, last), fixedAmountOut)
      decreases index
    {
      var pair := GetPairByTokens(pairs, path[index - 1], path[index]);
      OneMoreHopInFront(pairs, path, index - 1, last);
      if pair.Some? {
        var hop := Hop(pair.value, path[index - 1]);
        BackwardExtends(hop, HopsBetween(pairs, path, index, last), fixedAmountOut);
        pathAmounts := [StepIn(pathAmounts[0], hop)] + pathAmounts;
      }
      index := index - 1;
    }
  }

  method ComputeIntermediaryAmountsFixedOutput(paths: seq<Path>, pairs: seq<PairModel>, fixedAmountOut: Amount)
    returns (intermediaryAmounts: seq<seq<Amount>>)
    ensures |intermediaryAmounts| == |paths|
    ensures forall i :: 0 <= i < |paths| ==>
              intermediaryAmounts[i] == BackwardAmounts(RouteHops(pairs, paths[i]), fixedAmountOut)
  {
    intermediaryAmounts := [];
    for p := 0 to |paths|
      invariant |intermediaryAmounts| == p
      invariant forall i :: 0 <= i < p ==>
                  intermediaryAmounts[i] == BackwardAmounts(RouteHops(pairs, paths[i]), fixedAmountOut)
    {
      var pathAmounts := PathAmountsFixedOutput(paths[p], pairs, fixedAmountOut);
      intermediaryAmounts := intermediaryAmounts + [pathAmounts];
    }
  }

  /** A fixed-input pass divides by zero only where it divides zero. */
  lemma {:induction false} ForwardNeverInfinite(hops: seq<Hop>, x: Amount, k: nat)
    requires k <= |hops| && x != Infinity
    ensures ForwardAt(hops, x, k) != Infinity
  {
    if k > 0 {
      ForwardNeverInfinite(hops, x, k - 1);
    }
  }

  // ----- replaying a fixed-output route ------------------------------------------------

  /** A hop can be paid for exactly when the output leaves something in its reserve and the fee is not everything. */
  lemma StepInFinite(y: Amount, hop: Hop)
    ensures StepIn(y, hop).Fin? <==> y.Fin? && y.value < hop.ReserveOut() && hop.pair.totalFee < BASE_POINTS
    ensures StepIn(y, hop).Fin? ==>
              StepIn(y, hop) == GetAmountIn(y, hop.ReserveIn(), hop.ReserveOut(), hop.pair.totalFee)
  {
    if y.Fin? {
      AmountInFinite(y.value, hop.ReserveIn(), hop.ReserveOut(), hop.pair.totalFee);
    }
  }

  lemma {:induction false} FiniteFromHead(hops: seq<Hop>, y: Amount, k: nat)
    requires k <= |hops|
    requires BackwardAt(hops, y, 0).Fin?
    ensures BackwardAt(hops, y, k).Fin?
  {
    if k > 0 {
      FiniteFromHead(hops, y, k - 1);
      StepInFinite(BackwardAt(hops, y, k), hops[k - 1]);
    }
  }

  /**
   Replaying a fixed-output quote forwards is safe: whoever starts with at least the amount
   quoted at the head holds at every position at least the amount quoted there.
   */
  lemma {:induction false} ReplayIsSafe(hops: seq<Hop>, y: nat, x: nat, k: nat)
    requires k <= |hops|
    requires BackwardAt(hops, Fin(y), 0).Fin? && BackwardAt(hops, Fin(y), 0).value <= x
    ensures BackwardAt(hops, Fin(y), k).Fin? && ForwardAt(hops, Fin(x), k).Fin?
    ensures BackwardAt(hops, Fin(y), k).value <= ForwardAt(hops, Fin(x), k).value
  {
    FiniteFromHead(hops, Fin(y), k);
    if k > 0 {
      var hop := hops[k - 1];
      var (reserveIn, reserveOut, fee) := (hop.ReserveIn(), hop.ReserveOut(), hop.pair.totalFee);
      var (before, after) := (BackwardAt(hops, Fin(y), k - 1), BackwardAt(hops, Fin(y), k));
      ReplayIsSafe(hops, y, x, k - 1);
      StepInFinite(after, hop);
      InverseLaw(after.value, reserveIn, reserveOut, fee);
      AmountOutMonotone(before.value, ForwardAt(hops, Fin(x), k - 1).value, reserveIn, reserveOut, fee);
    }
  }

  /** Replaying on the whole path yields at least the target. */
  lemma ReplayReachesTarget(hops: seq<Hop>, y: nat, x: nat)
    requires BackwardAt(hops, Fin(y), 0).Fin? && BackwardAt(hops, Fin(y), 0).value <= x
    ensures ForwardAt(hops, Fin(x), |hops|).Fin? && y <= ForwardAt(hops, Fin(x), |hops|).value
  {
    ReplayIsSafe(hops, y, x, |hops|);
  }

  // ----- larger amounts over the same hops ---------------------------------------------

  /** Entering with more, one holds more after every hop. */
  lemma {:induction false} ForwardMonotone(hops: seq<Hop>, x: nat, x': nat, k: nat)
    requires k <= |hops| && x <= x'
    requires ForwardAt(hops, Fin(x), k).Fin?
    ensures FinAtMost(ForwardAt(hops, Fin(x), k), ForwardAt(hops, Fin(x'), k))
  {
    if k > 0 {
      var hop := hops[k - 1];
      ForwardMonotone(hops, x, x', k - 1);
      AmountOutMonotone(
        ForwardAt(hops, Fin(x), k - 1).value, ForwardAt(hops, Fin(x'), k - 1).value,
        hop.ReserveIn(), hop.ReserveOut(), hop.pair.totalFee);
    }
  }

  /** Wanting less in the end, one needs less before every hop. */
  lemma {:induction false} BackwardMonotone(hops: seq<Hop>, y: nat, y': nat, k: nat)
    requires k <= |hops| && y <= y'
    requires BackwardAt(hops, Fin(y'), k).Fin?
    ensures FinAtMost(BackwardAt(hops, Fin(y), k), BackwardAt(hops, Fin(y'), k))
    decreases |hops| - k
  {
    if k < |hops| {
      StepInFinite(BackwardAt(hops, Fin(y'), k + 1), hops[k]);
      BackwardMonotone(hops, y, y', k + 1);
      StepInOrdered(BackwardAt(hops, Fin(y), k + 1), BackwardAt(hops, Fin(y'), k + 1), hops[k]);
    }
  }

  lemma StepInOrdered(y: Amount, y': Amount, hop: Hop)
    requires FinAtMost(y, y') && StepIn(y', hop).Fin?
    ensures FinAtMost(StepIn(y, hop), StepIn(y', hop))
  {
    StepInFinite(y, hop);
    StepInFinite(y', hop);
    AmountInMonotone(y.value, y'.value, hop.ReserveIn(), hop.ReserveOut(), hop.pair.totalFee);
  }

  // ----- when a fixed-output quote is 'Infinity' ---------------------------------------

  /** Working backwards, hop k is the one that asks for what it cannot deliver. */
  ghost predicate Blocks(hops: seq<Hop>, y: Amount, k: nat)
    requires k < |hops|
  {
    var wanted := BackwardAt(hops, y, k + 1);
    wanted.Fin? && (hops[k].ReserveOut() <= wanted.value || hops[k].pair.totalFee == BASE_POINTS)
  }

  lemma FiniteStep(hops: seq<Hop>, y: Amount, k: nat)
    requires k < |hops|
    ensures BackwardAt(hops, y, k).Fin? <==> BackwardAt(hops, y, k + 1).Fin? && !Blocks(hops, y, k)
  {
    StepInFinite(BackwardAt(hops, y, k + 1), hops[k]);
  }

  /** The quote is finite exactly when no hop blocks. */
  lemma {:induction false} HeadFinite(hops: seq<Hop>, y: Amount, k: nat)
    requires k <= |hops| && y.Fin?
    ensures BackwardAt(hops, y, k).Fin? <==> forall j :: k <= j < |hops| ==> !Blocks(hops, y, j)
    decreases |hops| - k
  {
    if k < |hops| {
      HeadFinite(hops, y, k + 1);
      FiniteStep(hops, y, k);
    }
  }

  /** With positive reserves and fees below everything a quote is never NaN. */
  lemma {:induction false} NeverNaN(hops: seq<Hop>, y: nat, k: nat)
    requires k <= |hops|
    requires forall h :: h in hops ==> h.ReserveIn() > 0 && h.ReserveOut() > 0 && h.pair.totalFee < BASE_POINTS
    ensures !BackwardAt(hops, Fin(y), k).NaN?
    decreases |hops| - k
  {
    if k < |hops| {
      NeverNaN(hops, y, k + 1);
      var wanted := BackwardAt(hops, Fin(y), k + 1);
      if wanted.Fin? && wanted.value == hops[k].ReserveOut() {
        MulMonotone(1, hops[k].ReserveIn(), wanted.value);
        assert InDenominator(wanted.value, hops[k].ReserveOut(), hops[k].pair.totalFee) == 0;
        assert InNumerator(wanted.value, hops[k].ReserveIn()) > 0;
      } else {
        StepInFinite(wanted, hops[k]);
      }
    }
  }

  /** Working backwards, hop k would have to give at least its whole output reserve. */
  ghost predicate Drains(hops: seq<Hop>, y: Amount, k: nat) {
    && k < |hops|
    && BackwardAt(hops, y, k + 1).Fin?
    && hops[k].ReserveOut() <= BackwardAt(hops, y, k + 1).value
  }

  /** 'Infinity' is exact: it is quoted if and only if some hop would be drained. */
  lemma InfinityIsExact(hops: seq<Hop>, y: nat)
    requires forall h :: h in hops ==> h.ReserveIn() > 0 && h.ReserveOut() > 0 && h.pair.totalFee < BASE_POINTS
    ensures BackwardAt(hops, Fin(y), 0) == Infinity <==> exists k :: Drains(hops, Fin(y), k)
  {
    forall k | 0 <= k < |hops|
      ensures Blocks(hops, Fin(y), k) <==> Drains(hops, Fin(y), k)
    {
      assert hops[k] in hops;
    }
    NeverNaN(hops, y, 0);
    NoneBlocks(hops, Fin(y));
  }

  lemma NoneBlocks(hops: seq<Hop>, y: Amount)
    requires y.Fin?
    ensures BackwardAt(hops, y, 0).Fin? <==> forall j :: 0 <= j < |hops| ==> !Blocks(hops, y, j)
  {
    HeadFinite(hops, y, 0);
  }

  // ----- choosing the best path --------------------------------------------------------

  /** The amount by which a path is judged: its last one, or its first one for a fixed output. */
  function JudgedAmount(swapType: SwapType, amounts: seq<Amount>): Amount {
    if amounts == [] then NaN
    else if swapType == FixedInput then amounts[|amounts| - 1]
    else amounts[0]
  }

  /** What a path has to beat to be chosen at all. */
  function Baseline(swapType: SwapType): Amount {
    if swapType == FixedInput then Fin(0) else Infinity
  }

  /** a is strictly better than b. */
  predicate Better(swapType: SwapType, a: Amount, b: Amount) {
    if swapType == FixedInput then LessThan(b, a) else LessThan(a, b)
  }

  /** The first list with the best judged amount, or index -1 when none beats the baseline. */
  method GetBestAmountAndIndex(amounts: seq<seq<Amount>>, swapType: SwapType) returns (bestAmount: Amount, index: int)
    ensures -1 <= index < |amounts|
    ensures index == -1 ==> bestAmount == Baseline(swapType)
    ensures index >= 0 ==>
              && bestAmount == JudgedAmount(swapType, amounts[index])
              && Better(swapType, bestAmount, Baseline(swapType))
              && forall i :: 0 <= i < index ==> JudgedAmount(swapType, amounts[i]) != bestAmount
    ensures forall i :: 0 <= i < |amounts| ==> !Better(swapType, JudgedAmount(swapType, amounts[i]), bestAmount)
  {
    bestAmount := if swapType == FixedInput then Fin(0) else Infinity;
    index := -1;
    for i := 0 to |amounts|
      invariant -1 <= index < i
      invariant index == -1 ==> bestAmount == Baseline(swapType)
      invariant index >= 0 ==>
                  && bestAmount == JudgedAmount(swapType, amounts[index])
                  && Better(swapType, bestAmount, Baseline(swapType))
                  && forall j :: 0 <= j < index ==> JudgedAmount(swapType, amounts[j]) != bestAmount
      invariant forall j :: 0 <= j < i ==> !Better(swapType, JudgedAmount(swapType, amounts[j]), bestAmount)
    {
      var amount := amounts[i];
      if swapType == FixedInput {
        var compareAmount := if amount == [] then NaN else amount[|amount| - 1];
        if LessThan(bestAmount, compareAmount) {
          bestAmount, index := compareAmount, i;
        }
      } else {
        var compareAmount := if amount == [] then NaN else amount[0];
        if LessThan(compareAmount, bestAmount) {
          bestAmount, index := compareAmount, i;
        }
      }
    }
  }

  // ----- the chosen route --------------------------------------------------------------

  function IntermediaryAmounts(swapType: SwapType, pairs: seq<PairModel>, path: Path, amount: Amount): seq<Amount> {
    if swapType == FixedInput then ForwardAmounts(RouteHops(pairs, path), amount)
    else BackwardAmounts(RouteHops(pairs, path), amount)
  }

  /** The price of a path: what it yields, or what it costs for a fixed output. */
  function Quote(swapType: SwapType, pairs: seq<PairModel>, path: Path, amount: Amount): Amount {
    JudgedAmount(swapType, IntermediaryAmounts(swapType, pairs, path, amount))
  }

  function AddressesOf(hops: seq<Hop>): seq<string> {
    seq(|hops|, i requires 0 <= i < |hops| => hops[i].pair.address)
  }

  lemma OneMoreAddress(hops: seq<Hop>, hop: Hop)
    ensures AddressesOf(hops + [hop]) == AddressesOf(hops) + [hop.pair.address]
  {
  }

  method GetAddressRoute(pairs: seq<PairModel>, tokensRoute: Path) returns (addressRoute: seq<string>)
    ensures addressRoute == AddressesOf(RouteHops(pairs, tokensRoute))
  {
    addressRoute := [];
    var index := 0;
    while index < |tokensRoute| - 1
      invariant 0 <= index && (index < |tokensRoute| || index == 0)
      invariant addressRoute == AddressesOf(HopsBetween(pairs, tokensRoute, 0, index))
    {
      var pair := GetPairByTokens(pairs, tokensRoute[index], tokensRoute[index + 1]);
      if pair.Some? {
        OneMoreAddress(HopsBetween(pairs, tokensRoute, 0, index), Hop(pair.value, tokensRoute[index]));
        addressRoute := addressRoute + [pair.value.address];
      }
      OneMoreHop(pairs, tokensRoute, index);
      index := index + 1;
    }
  }

  /** The route is one of the paths, priced as the code prices it, and none of the paths is better. */
  ghost predicate ChosenFrom(
    paths: seq<Path>, pairs: seq<PairModel>, amount: Amount, swapType: SwapType, route: BestSwapRoute
  ) {
    && route.tokenRoute in paths
    && route.intermediaryAmounts == IntermediaryAmounts(swapType, pairs, route.tokenRoute, amount)
    && route.addressRoute == AddressesOf(RouteHops(pairs, route.tokenRoute))
    && route.bestResult == Quote(swapType, pairs, route.tokenRoute, amount)
    && Better(swapType, route.bestResult, Baseline(swapType))
    && forall p :: p in paths ==> !Better(swapType, Quote(swapType, pairs, p, amount), route.bestResult)
  }

  ghost predicate NoneBeatsBaseline(paths: seq<Path>, pairs: seq<PairModel>, amount: Amount, swapType: SwapType) {
    forall p :: p in paths ==> !Better(swapType, Quote(swapType, pairs, p, amount), Baseline(swapType))
  }

  method ComputeBestSwapRoute(paths: seq<Path>, pairs: seq<PairModel>, amount: Amount, swapType: SwapType)
    returns (r: Result<BestSwapRoute>)
    ensures r.Ok? ==> ChosenFrom(paths, pairs, amount, swapType, r.value)
    ensures r.Err? ==> r.error == NoRouteFound
    ensures r.Err? <==> NoneBeatsBaseline(paths, pairs, amount, swapType)
  {
    var amounts: seq<seq<Amount>>;
    if swapType == FixedInput {
      amounts := ComputeIntermediaryAmountsFixedInput(paths, pairs, amount);
    } else {
      amounts := ComputeIntermediaryAmountsFixedOutput(paths, pairs, amount);
    }
    assert forall i :: 0 <= i < |paths| ==> amounts[i] == IntermediaryAmounts(swapType, pairs, paths[i], amount);

    var bestAmount, pathIndex := GetBestAmountAndIndex(amounts, swapType);
    forall p | p in paths
      ensures !Better(swapType, Quote(swapType, pairs, p, amount), bestAmount)
    {
      var i :| 0 <= i < |paths| && paths[i] == p;
    }
    if pathIndex == -1 {
      return Err(NoRouteFound);
    }
    assert paths[pathIndex] in paths;

    var addressRoute := GetAddressRoute(pairs, paths[pathIndex]);
    return Ok(BestSwapRoute(paths[pathIndex], amounts[pathIndex], addressRoute, bestAmount));
  }
}
