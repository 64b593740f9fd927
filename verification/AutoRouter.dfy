/**
 The auto-router end to end (`auto-router.service.ts`): a graph built from the pairs, all
 its paths, the best of them, and the route, amounts and pairs reported to the caller.
 */
module AutoRouter {
  import opened Arithmetic
  import opened BigNumbers
  import opened PairUtils
  import opened Pairs
  import opened TokenPaths
  import opened AutoRouterCompute
  import opened Wrappers
  import Graph

  // ----- the search over all routes ----------------------------------------------------

  /** No simple path from source to destination beats the route, and the route beats the baseline. */
  ghost predicate IsBestRoute(
    pairs: seq<PairModel>, source: Token, destination: Token, swapType: SwapType, amount: Amount, route: BestSwapRoute
  ) {
    && IsRoute(pairs, source, destination, route.tokenRoute)
    && route.intermediaryAmounts == IntermediaryAmounts(swapType, pairs, route.tokenRoute, amount)
    && route.addressRoute == AddressesOf(RouteHops(pairs, route.tokenRoute))
    && route.bestResult == Quote(swapType, pairs, route.tokenRoute, amount)
    && Better(swapType, route.bestResult, Baseline(swapType))
    && forall p :: IsRoute(pairs, source, destination, p) ==>
                     !Better(swapType, Quote(swapType, pairs, p, amount), route.bestResult)
  }

  /** Every simple path yields nothing, or costs 'Infinity' (or is NaN). */
  ghost predicate NothingToGain(
    pairs: seq<PairModel>, source: Token, destination: Token, swapType: SwapType, amount: Amount
  ) {
    forall p :: IsRoute(pairs, source, destination, p) ==>
                  !Better(swapType, Quote(swapType, pairs, p, amount), Baseline(swapType))
  }

  method FindBestRoute(pairs: seq<PairModel>, source: Token, destination: Token, amount: Amount, swapType: SwapType)
    returns (r: Result<BestSwapRoute>)
    ensures r.Ok? ==> IsBestRoute(pairs, source, destination, swapType, amount, r.value)
    ensures r.Err? ==> r.error == NoRouteFound
    ensures r.Err? <==> NothingToGain(pairs, source, destination, swapType, amount)
  {
    var graph := new Graph.GraphService(pairs);
    var paths := graph.GetAllPaths(source, destination);
    r := ComputeBestSwapRoute(paths, pairs, amount, swapType);
    AllPathsPriced(pairs, source, destination, amount, swapType);
    if r.Ok? {
      BestOfAllPaths(pairs, source, destination, amount, swapType, r.value);
    }
  }

  lemma AllPathsPriced(pairs: seq<PairModel>, source: Token, destination: Token, amount: Amount, swapType: SwapType)
    ensures NoneBeatsBaseline(AllPaths(pairs, source, destination), pairs, amount, swapType)
       <==> NothingToGain(pairs, source, destination, swapType, amount)
  {
    forall p
      ensures p in AllPaths(pairs, source, destination) <==> IsRoute(pairs, source, destination, p)
    {
      AllPathsExact(pairs, source, destination, p);
    }
  }

  lemma BestOfAllPaths(
    pairs: seq<PairModel>, source: Token, destination: Token, amount: Amount, swapType: SwapType, route: BestSwapRoute
  )
    requires ChosenFrom(AllPaths(pairs, source, destination), pairs, amount, swapType, route)
    ensures IsBestRoute(pairs, source, destination, swapType, amount, route)
  {
    forall p
      ensures p in AllPaths(pairs, source, destination) <==> IsRoute(pairs, source, destination, p)
    {
      AllPathsExact(pairs, source, destination, p);
    }
  }

  // ----- fixed output against fixed input ----------------------------------------------

  lemma QuoteOverHops(pairs: seq<PairModel>, path: Path, amount: Amount)
    ensures var hops := RouteHops(pairs, path);
            && Quote(FixedInput, pairs, path, amount) == ForwardAt(hops, amount, |hops|)
            && Quote(FixedOutput, pairs, path, amount) == BackwardAt(hops, amount, 0)
  {
  }

  /** On one path: entering with what a fixed output costs yields at least that output. */
  lemma CostCoversTarget(pairs: seq<PairModel>, path: Path, y: nat, x: nat)
    requires Quote(FixedOutput, pairs, path, Fin(y)).Fin?
    requires Quote(FixedOutput, pairs, path, Fin(y)).value <= x
    ensures Quote(FixedInput, pairs, path, Fin(x)).Fin? && y <= Quote(FixedInput, pairs, path, Fin(x)).value
  {
    QuoteOverHops(pairs, path, Fin(y));
    QuoteOverHops(pairs, path, Fin(x));
    ReplayReachesTarget(RouteHops(pairs, path), y, x);
  }

  /**
   The two searches agree: whoever enters with at least what the best fixed-output route
   costs is offered a fixed-input route, and every best one yields at least the target.
   */
  lemma FixedOutputCostSuffices(
    pairs: seq<PairModel>, source: Token, destination: Token, y: nat, x: nat, cost: BestSwapRoute, offer: BestSwapRoute
  )
    requires y > 0
    requires IsBestRoute(pairs, source, destination, FixedOutput, Fin(y), cost)
    requires cost.bestResult.value <= x
    ensures !NothingToGain(pairs, source, destination, FixedInput, Fin(x))
    ensures IsBestRoute(pairs, source, destination, FixedInput, Fin(x), offer) ==>
              offer.bestResult.Fin? && y <= offer.bestResult.value
  {
    CostCoversTarget(pairs, cost.tokenRoute, y, x);
    if IsBestRoute(pairs, source, destination, FixedInput, Fin(x), offer) {
      var hops := RouteHops(pairs, offer.tokenRoute);
      QuoteOverHops(pairs, offer.tokenRoute, Fin(x));
      ForwardNeverInfinite(hops, Fin(x), |hops|);
    }
  }

  // ----- larger amounts over all routes ------------------------------------------------

  /**
   Whoever enters with more is offered a route whenever one with less is, and every best one
   yields at least as much.
   */
  lemma MoreInputYieldsNoLess(
    pairs: seq<PairModel>, source: Token, destination: Token, x: nat, x': nat, less: BestSwapRoute, more: BestSwapRoute
  )
    requires x <= x'
    requires IsBestRoute(pairs, source, destination, FixedInput, Fin(x), less)
    ensures !NothingToGain(pairs, source, destination, FixedInput, Fin(x'))
    ensures IsBestRoute(pairs, source, destination, FixedInput, Fin(x'), more) ==>
              FinAtMost(less.bestResult, more.bestResult)
  {
    SaleFinite(pairs, less.tokenRoute, x);
    SaleMonotone(pairs, less.tokenRoute, x, x');
    if IsBestRoute(pairs, source, destination, FixedInput, Fin(x'), more) {
      SaleFinite(pairs, more.tokenRoute, x');
      assert !Better(FixedInput, Quote(FixedInput, pairs, less.tokenRoute, Fin(x')), more.bestResult);
    }
  }

  lemma SaleFinite(pairs: seq<PairModel>, path: Path, x: nat)
    requires Better(FixedInput, Quote(FixedInput, pairs, path, Fin(x)), Fin(0))
    ensures Quote(FixedInput, pairs, path, Fin(x)).Fin?
  {
    QuoteOverHops(pairs, path, Fin(x));
    ForwardNeverInfinite(RouteHops(pairs, path), Fin(x), |RouteHops(pairs, path)|);
  }

  lemma SaleMonotone(pairs: seq<PairModel>, path: Path, x: nat, x': nat)
    requires x <= x' && Quote(FixedInput, pairs, path, Fin(x)).Fin?
    ensures FinAtMost(Quote(FixedInput, pairs, path, Fin(x)), Quote(FixedInput, pairs, path, Fin(x')))
  {
    QuoteOverHops(pairs, path, Fin(x));
    QuoteOverHops(pairs, path, Fin(x'));
    ForwardMonotone(RouteHops(pairs, path), x, x', |RouteHops(pairs, path)|);
  }

  /**
   Whoever wants less is offered a route whenever one who wants more is, and every best one
   costs at most as much.
   */
  lemma LessOutputCostsNoMore(
    pairs: seq<PairModel>, source: Token, destination: Token, y: nat, y': nat, less: BestSwapRoute, more: BestSwapRoute
  )
    requires y <= y'
    requires IsBestRoute(pairs, source, destination, FixedOutput, Fin(y'), more)
    ensures !NothingToGain(pairs, source, destination, FixedOutput, Fin(y))
    ensures IsBestRoute(pairs, source, destination, FixedOutput, Fin(y), less) ==>
              FinAtMost(less.bestResult, more.bestResult)
  {
    CostMonotone(pairs, more.tokenRoute, y, y');
    if IsBestRoute(pairs, source, destination, FixedOutput, Fin(y), less) {
      assert !Better(FixedOutput, Quote(FixedOutput, pairs, more.tokenRoute, Fin(y)), less.bestResult);
    }
  }

  lemma CostMonotone(pairs: seq<PairModel>, path: Path, y: nat, y': nat)
    requires y <= y' && Quote(FixedOutput, pairs, path, Fin(y')).Fin?
    ensures FinAtMost(Quote(FixedOutput, pairs, path, Fin(y)), Quote(FixedOutput, pairs, path, Fin(y')))
  {
    QuoteOverHops(pairs, path, Fin(y));
    QuoteOverHops(pairs, path, Fin(y'));
    BackwardMonotone(RouteHops(pairs, path), y, y', 0);
  }

  // ----- the reported pairs ------------------------------------------------------------

  ghost predicate DistinctAddresses(pairs: seq<PairModel>) {
    forall i, j :: 0 <= i < j < |pairs| ==> pairs[i].address != pairs[j].address
  }

  /** `pairs.find` by address. */
  function PairByAddress(pairs: seq<PairModel>, address: string): (r: Option<PairModel>)
    ensures r.None? <==> forall pair :: pair in pairs ==> pair.address != address
    ensures r.Some? ==> r.value in pairs && r.value.address == address
  {
    if pairs == [] then None
    else if pairs[0].address == address then Some(pairs[0])
    else
      assert pairs == [pairs[0]] + pairs[1..];
      PairByAddress(pairs[1..], address)
  }

  /** A pair is found if no pair before it has the address. */
  lemma {:induction false} FirstAtAddress(pairs: seq<PairModel>, i: nat, address: string)
    requires i < |pairs| && pairs[i].address == address
    requires forall j :: 0 <= j < i ==> pairs[j].address != address
    ensures PairByAddress(pairs, address) == Some(pairs[i])
  {
    if i > 0 {
      FirstAtAddress(pairs[1..], i - 1, address);
    }
  }

  function PairsByAddress(pairs: seq<PairModel>, addresses: seq<string>): seq<PairModel> {
    if addresses == [] then []
    else
      var n := |addresses| - 1;
      PairsByAddress(pairs, addresses[..n])
      + match PairByAddress(pairs, addresses[n])
        case Some(pair) => [pair]
        case None => []
  }

  method GetPairsRoute(addresses: seq<string>, pairs: seq<PairModel>) returns (routePairs: seq<PairModel>)
    ensures routePairs == PairsByAddress(pairs, addresses)
  {
    routePairs := [];
    for i := 0 to |addresses|
      invariant routePairs == PairsByAddress(pairs, addresses[..i])
    {
      assert addresses[..i + 1][..i] == addresses[..i];
      var pair := PairByAddress(pairs, addresses[i]);
      if pair.Some? {
        routePairs := routePairs + [pair.value];
      }
    }
    assert addresses[..|addresses|] == addresses;
  }

  function PairsOf(hops: seq<Hop>): seq<PairModel> {
    seq(|hops|, i requires 0 <= i < |hops| => hops[i].pair)
  }

  /** With distinct addresses, looking the addresses of a route up again gives back the very pairs that priced it. */
  lemma {:induction false} AddressesRoundTrip(pairs: seq<PairModel>, hops: seq<Hop>)
    requires DistinctAddresses(pairs)
    requires forall h :: h in hops ==> h.pair in pairs
    ensures PairsByAddress(pairs, AddressesOf(hops)) == PairsOf(hops)
  {
    if hops != [] {
      var n := |hops| - 1;
      AddressesRoundTrip(pairs, hops[..n]);
      assert AddressesOf(hops)[..n] == AddressesOf(hops[..n]);
      assert hops[n] in hops;
      assert PairByAddress(pairs, hops[n].pair.address) == Some(hops[n].pair);
      assert PairsOf(hops) == PairsOf(hops[..n]) + [hops[n].pair];
    }
  }

  /** Every hop of a route resolves, to one of the pairs. */
  lemma RouteResolves(pairs: seq<PairModel>, source: Token, destination: Token, p: Path)
    requires IsRoute(pairs, source, destination, p)
    ensures |RouteHops(pairs, p)| == |p| - 1 && Aligned(pairs, p, RouteHops(pairs, p))
    ensures forall h :: h in RouteHops(pairs, p) ==> h.pair in pairs
  {
    var hops := RouteHops(pairs, p);
    forall k | 0 <= k < |p| - 1
      ensures Resolves(pairs, p, k)
    {
      assert Joined(pairs, p[k], p[k + 1]);
    }
    HopsAligned(pairs, p, |p| - 1);
    forall h | h in hops
      ensures h.pair in pairs
    {
      var k :| 0 <= k < |hops| && hops[k] == h;
      assert PricedAt(pairs, p, hops[k], k);
    }
  }

  /** One pair is shown per hop, even where addresses repeat. */
  lemma {:induction false} OnePairPerHop(pairs: seq<PairModel>, hops: seq<Hop>)
    requires forall h :: h in hops ==> h.pair in pairs
    ensures |PairsByAddress(pairs, AddressesOf(hops))| == |hops|
  {
    if hops != [] {
      var n := |hops| - 1;
      OnePairPerHop(pairs, hops[..n]);
      assert AddressesOf(hops)[..n] == AddressesOf(hops[..n]);
      assert hops[n] in hops;
      assert PairByAddress(pairs, hops[n].pair.address).Some?;
    }
  }

  /** The decimals `getFeesDenom` uses for the fee of a hop. */
  function FeeDecimals(pair: PairModel, tokenIn: Token): nat {
    if pair.firstToken.identifier == tokenIn then pair.firstToken.decimals else pair.secondToken.decimals
  }

  /** The reserve of a token of the pair, as `getPriceImpactPercents` picks it for the output of a hop. */
  function ImpactReserve(pair: PairModel, token: Token): nat {
    if pair.firstToken.identifier == token then pair.reserves0 else pair.reserves1
  }

  /**
   Everything reported about a route is aligned: one amount per token, one pair per hop, the
   pair at i joins tokens i and i + 1 and is the one that priced the hop, the fee is shown in
   decimals of the token that enters, the price impact is taken on the reserve the hop paid
   out of, and the hop was priced with the reserves of its own two tokens.
   */
  lemma RouteAligned(
    pairs: seq<PairModel>, source: Token, destination: Token, p: Path, swapType: SwapType, amount: Amount, i: nat
  )
    requires DistinctAddresses(pairs)
    requires IsRoute(pairs, source, destination, p)
    requires i < |p| - 1
    ensures var hops := RouteHops(pairs, p);
            var shown := PairsByAddress(pairs, AddressesOf(hops));
            && |IntermediaryAmounts(swapType, pairs, p, amount)| == |p|
            && |hops| == |shown| == |p| - 1
            && shown[i] == hops[i].pair
            && PairByTokens(pairs, p[i], p[i + 1]) == Some(shown[i])
            && (exists t :: t in {shown[i].firstToken, shown[i].secondToken}
                            && t.identifier == p[i] && t.decimals == FeeDecimals(shown[i], p[i]))
            && ImpactReserve(shown[i], p[i + 1]) == hops[i].ReserveOut()
            && ImpactReserve(shown[i], p[i]) == hops[i].ReserveIn()
  {
    var hops := RouteHops(pairs, p);
    RouteResolves(pairs, source, destination, p);
    AddressesRoundTrip(pairs, hops);
    assert PricedAt(pairs, p, hops[i], i);
    var pair := hops[i].pair;
    assert p[i] != p[i + 1];
    if pair.firstToken.identifier == p[i] {
      assert pair.firstToken in {pair.firstToken, pair.secondToken};
    } else {
      assert pair.secondToken in {pair.firstToken, pair.secondToken};
    }
  }

  /**
   The amounts of a route hop by hop: into the first hop goes the amount, and each hop pays what
   the formula says for its own pair, or needs what the formula says, where 0 stands for an
   output that cannot be had.
   */
  lemma RouteAmounts(
    pairs: seq<PairModel>, source: Token, destination: Token, p: Path, swapType: SwapType, amount: Amount, i: nat
  )
    requires IsRoute(pairs, source, destination, p)
    requires i < |p| - 1
    ensures var amounts := IntermediaryAmounts(swapType, pairs, p, amount);
            && |amounts| == |p|
            && PairByTokens(pairs, p[i], p[i + 1]).Some?
            && var pair := PairByTokens(pairs, p[i], p[i + 1]).value;
               var (reserveIn, reserveOut) := (ImpactReserve(pair, p[i]), ImpactReserve(pair, p[i + 1]));
               if swapType == FixedInput then
                 && amounts[0] == amount
                 && amounts[i + 1] == GetAmountOut(amounts[i], reserveIn, reserveOut, pair.totalFee)
               else
                 && amounts[|p| - 1] == amount
                 && var needed := GetAmountIn(amounts[i + 1], reserveIn, reserveOut, pair.totalFee);
                    amounts[i] == if needed == Fin(0) then Infinity else needed
  {
    var hops := RouteHops(pairs, p);
    RouteResolves(pairs, source, destination, p);
    assert PricedAt(pairs, p, hops[i], i);
    assert p[i] != p[i + 1];
    var hop := hops[i];
    assert hop.ReserveIn() == ImpactReserve(hop.pair, p[i]) && hop.ReserveOut() == ImpactReserve(hop.pair, p[i + 1]);
    if swapType == FixedInput {
      assert ForwardAt(hops, amount, i + 1) == StepOut(ForwardAt(hops, amount, i), hop);
    } else {
      assert BackwardAt(hops, amount, i) == StepIn(BackwardAt(hops, amount, i + 1), hop);
    }
  }

  /** What being best means in numbers for a fixed input: the largest last amount, which is positive. */
  lemma BestSaleInNumbers(
    pairs: seq<PairModel>, source: Token, destination: Token, x: nat, route: BestSwapRoute, p: Path
  )
    requires IsBestRoute(pairs, source, destination, FixedInput, Fin(x), route)
    requires IsRoute(pairs, source, destination, p)
    ensures route.bestResult == route.intermediaryAmounts[|route.intermediaryAmounts| - 1]
    ensures route.bestResult.Fin? && route.bestResult.value > 0
    ensures var amounts := IntermediaryAmounts(FixedInput, pairs, p, Fin(x));
            var last := amounts[|amounts| - 1];
            last.NaN? || (last.Fin? && last.value <= route.bestResult.value)
  {
    SaleFinite(pairs, route.tokenRoute, x);
    ForwardNeverInfinite(RouteHops(pairs, p), Fin(x), |RouteHops(pairs, p)|);
    assert !Better(FixedInput, Quote(FixedInput, pairs, p, Fin(x)), route.bestResult);
  }

  /** For a fixed output: the smallest first amount, which can be paid. */
  lemma BestCostInNumbers(
    pairs: seq<PairModel>, source: Token, destination: Token, y: nat, route: BestSwapRoute, p: Path
  )
    requires IsBestRoute(pairs, source, destination, FixedOutput, Fin(y), route)
    requires IsRoute(pairs, source, destination, p)
    ensures route.bestResult == route.intermediaryAmounts[0] && route.bestResult.Fin?
    ensures var first := IntermediaryAmounts(FixedOutput, pairs, p, Fin(y))[0];
            first.Fin? ==> route.bestResult.value <= first.value
  {
    assert !Better(FixedOutput, Quote(FixedOutput, pairs, p, Fin(y)), route.bestResult);
  }

  /** When no route is found, in numbers: none yields anything, or none can be paid. */
  lemma NothingInNumbers(pairs: seq<PairModel>, source: Token, destination: Token, amount: Amount)
    requires amount.Fin?
    ensures NothingToGain(pairs, source, destination, FixedInput, amount)
       <==> forall p :: IsRoute(pairs, source, destination, p) ==> YieldsNothing(pairs, p, amount)
    ensures NothingToGain(pairs, source, destination, FixedOutput, amount)
       <==> forall p :: IsRoute(pairs, source, destination, p) ==> CannotBePaid(pairs, p, amount)
  {
    forall p
      ensures YieldsNothing(pairs, p, amount) <==> !Better(FixedInput, Quote(FixedInput, pairs, p, amount), Fin(0))
      ensures CannotBePaid(pairs, p, amount)
         <==> !Better(FixedOutput, Quote(FixedOutput, pairs, p, amount), Infinity)
    {
      SaleWorthless(pairs, p, amount);
      CostWorthless(pairs, p, amount);
    }
  }

  lemma SaleWorthless(pairs: seq<PairModel>, p: Path, amount: Amount)
    requires amount.Fin?
    ensures YieldsNothing(pairs, p, amount) <==> !Better(FixedInput, Quote(FixedInput, pairs, p, amount), Fin(0))
  {
    var hops := RouteHops(pairs, p);
    QuoteOverHops(pairs, p, amount);
    ForwardNeverInfinite(hops, amount, |hops|);
    var last := ForwardAt(hops, amount, |hops|);
    assert last in {Fin(0), NaN} <==> !LessThan(Fin(0), last);
  }

  lemma CostWorthless(pairs: seq<PairModel>, p: Path, amount: Amount)
    ensures CannotBePaid(pairs, p, amount) <==> !Better(FixedOutput, Quote(FixedOutput, pairs, p, amount), Infinity)
  {
    QuoteOverHops(pairs, p, amount);
  }

  /** The last amount of the path is 0, or not a number. */
  ghost predicate YieldsNothing(pairs: seq<PairModel>, p: Path, amount: Amount) {
    var amounts := IntermediaryAmounts(FixedInput, pairs, p, amount);
    amounts[|amounts| - 1] in {Fin(0), NaN}
  }

  /** The first amount of the path is 'Infinity', or not a number. */
  ghost predicate CannotBePaid(pairs: seq<PairModel>, p: Path, amount: Amount) {
    IntermediaryAmounts(FixedOutput, pairs, p, amount)[0] in {Infinity, NaN}
  }

  // ----- the answer to the caller ------------------------------------------------------

  /** A tolerance as a fraction. */
  datatype Fraction = Fraction(num: nat, den: nat)

  type Tolerance = t: Fraction | t.den > 0 witness Fraction(0, 1)

  /** amount + amount * tolerance, as `integerValue` rounds it. */
  function AddTolerance(amount: Amount, tolerance: Tolerance): Amount {
    match amount
    case Fin(a) => Fin(Rounded(a * (tolerance.den + tolerance.num), tolerance.den))
    case _ => amount
  }

  /** The amount `multiPairSwap` attaches to its transaction. */
  function AttachedAmount(swapType: SwapType, intermediaryAmounts: seq<Amount>, tolerance: Tolerance): Amount
    requires |intermediaryAmounts| > 0
  {
    AddTolerance(intermediaryAmounts[0], if swapType == FixedOutput then tolerance else Fraction(0, 1))
  }

  datatype AutoRouteModel = AutoRouteModel(
    swapType: SwapType,
    amountIn: Amount,
    amountOut: Amount,
    intermediaryAmounts: seq<Amount>,
    tokenRoute: Path,
    pairs: seq<PairModel>,
    tolerance: Tolerance
  )

  /** The model shown for a chosen route. */
  ghost predicate Reports(
    model: AutoRouteModel, route: BestSwapRoute, pairs: seq<PairModel>, amount: Amount
  ) {
    && model.tokenRoute == route.tokenRoute
    && model.intermediaryAmounts == route.intermediaryAmounts
    && model.pairs == PairsByAddress(pairs, route.addressRoute)
    && model.amountIn
       == (if model.swapType == FixedInput then amount else AddTolerance(route.bestResult, model.tolerance))
    && model.amountOut == (if model.swapType == FixedInput then route.bestResult else amount)
  }

  /** A multi-hop route through a pair that hands out locked tokens is refused. */
  ghost predicate Refused(route: BestSwapRoute, locking: set<string>) {
    |route.addressRoute| > 1 && exists a :: a in route.addressRoute && a in locking
  }

  /** The pairs shown have addresses of the route, and there are no more of them. */
  lemma {:induction false} ShownAreOnRoute(pairs: seq<PairModel>, addresses: seq<string>)
    ensures |PairsByAddress(pairs, addresses)| <= |addresses|
    ensures forall pair :: pair in PairsByAddress(pairs, addresses) ==> pair.address in addresses
  {
    if addresses != [] {
      var n := |addresses| - 1;
      ShownAreOnRoute(pairs, addresses[..n]);
      assert addresses == addresses[..n] + [addresses[n]];
    }
  }

  method RefusesRoute(route: BestSwapRoute, locking: set<string>) returns (refused: bool)
    ensures refused == Refused(route, locking)
  {
    var addressRoute := route.addressRoute;
    for i := 0 to |addressRoute|
      invariant |addressRoute| > 1 ==> forall j :: 0 <= j < i ==> addressRoute[j] !in locking
    {
      if addressRoute[i] in locking && |addressRoute| > 1 {
        assert addressRoute[i] in addressRoute;
        return true;
      }
    }
    return false;
  }

  method MultiSwap(
    pairs: seq<PairModel>, tokenInID: Token, tokenOutID: Token, swapType: SwapType, amount: Amount,
    tolerance: Tolerance, locking: set<string>
  ) returns (r: Result<AutoRouteModel>, ghost route: BestSwapRoute)
    ensures r == Err(NoRouteFound) <==> NothingToGain(pairs, tokenInID, tokenOutID, swapType, amount)
    ensures r != Err(NoRouteFound) ==>
              && IsBestRoute(pairs, tokenInID, tokenOutID, swapType, amount, route)
              && (r == Err(LockedTokens) <==> Refused(route, locking))
    ensures r.Ok? ==>
              && r.value.swapType == swapType && r.value.tolerance == tolerance
              && Reports(r.value, route, pairs, amount)
    ensures r.Ok? && |r.value.pairs| > 1 ==> forall pair :: pair in r.value.pairs ==> pair.address !in locking
    ensures r == Err(LockedTokens) ==>
              |route.addressRoute| > 1 && exists address :: address in route.addressRoute && address in locking
  {
    route := BestSwapRoute([], [], [], NaN);
    var found := FindBestRoute(pairs, tokenInID, tokenOutID, amount, swapType);
    if found.Err? {
      return Err(found.error), route;
    }
    var swapRoute := found.value;
    route := swapRoute;
    var refused := RefusesRoute(swapRoute, locking);
    if refused {
      return Err(LockedTokens), route;
    }
    var routePairs := GetPairsRoute(swapRoute.addressRoute, pairs);
    ShownAreOnRoute(pairs, swapRoute.addressRoute);
    r := Ok(AutoRouteModel(
      swapType,
      if swapType == FixedInput then amount else AddTolerance(swapRoute.bestResult, tolerance),
      if swapType == FixedInput then swapRoute.bestResult else amount,
      swapRoute.intermediaryAmounts,
      swapRoute.tokenRoute,
      routePairs,
      tolerance));
  }

  lemma ToleranceOnlyAdds(a: nat, tolerance: Tolerance)
    ensures IsRounding(AddTolerance(Fin(a), tolerance).value, a * (tolerance.den + tolerance.num), tolerance.den)
    ensures AddTolerance(Fin(a), tolerance).value >= a
    ensures AddTolerance(Fin(a), Fraction(0, 1)) == Fin(a)
  {
    RoundedOfWhole(a, tolerance.den);
    MulMonotone(tolerance.den, tolerance.den + tolerance.num, a);
    MulMonotone(a * tolerance.den, a * (tolerance.den + tolerance.num), tolerance.den);
    RoundedMonotone(a * tolerance.den, tolerance.den, a * (tolerance.den + tolerance.num), tolerance.den);
  }

  /**
   What a fixed-output model shows is what its transaction attaches, and it is worth the
   target: sold through the route at the quoted reserves it yields at least `amountOut`.  The
   transaction does not sell it, though, but asks every hop for an output of its own.
   For a fixed input the attached amount is the caller's own.
   */
  lemma ShownAmountSuffices(
    pairs: seq<PairModel>, source: Token, destination: Token, amount: nat, model: AutoRouteModel, route: BestSwapRoute
  )
    requires IsBestRoute(pairs, source, destination, model.swapType, Fin(amount), route)
    requires Reports(model, route, pairs, Fin(amount))
    ensures AttachedAmount(model.swapType, model.intermediaryAmounts, model.tolerance) == model.amountIn
    ensures model.amountIn.Fin?
    ensures var reached := Quote(FixedInput, pairs, model.tokenRoute, model.amountIn);
            reached.Fin? && model.amountOut.Fin? && model.amountOut.value <= reached.value
  {
    QuoteOverHops(pairs, route.tokenRoute, Fin(amount));
    if model.swapType == FixedInput {
      ToleranceOnlyAdds(amount, Fraction(0, 1));
      ForwardNeverInfinite(RouteHops(pairs, route.tokenRoute), Fin(amount), |RouteHops(pairs, route.tokenRoute)|);
    } else {
      ToleranceOnlyAdds(route.bestResult.value, model.tolerance);
      CostCoversTarget(pairs, route.tokenRoute, amount, model.amountIn.value);
    }
  }
}
