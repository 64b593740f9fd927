/**
 What the router gives up by looking at one pair per market: `getPairByTokens` prices a hop
 with the first pair that trades the two tokens, whatever the others would offer.
 */
module MarketChoice {
  import opened Arithmetic
  import opened BigNumbers
  import opened PairUtils
  import opened Pairs
  import opened Sequences
  import opened TokenPaths
  import opened AutoRouterCompute
  import opened AutoRouter
  import opened Wrappers

  /** One freely chosen pair for every hop of a simple path. */
  ghost predicate HopChoice(pairs: seq<PairModel>, p: Path, hops: seq<Hop>) {
    && NoRepeats(p)
    && |hops| + 1 == |p|
    && forall i :: 0 <= i < |hops| ==> ChosenAt(pairs, p, hops[i], i)
  }

  ghost predicate ChosenAt(pairs: seq<PairModel>, p: Path, hop: Hop, i: nat) {
    i + 1 < |p| && Trades(pairs, hop.pair, p[i], p[i + 1]) && hop.tokenIn == p[i]
  }

  /** The pair is one of those that trade a for b. */
  ghost predicate Trades(pairs: seq<PairModel>, pair: PairModel, a: Token, b: Token) {
    pair in pairs && Joins(pair, a, b) && a != b
  }

  /** What selling x over chosen pairs yields. */
  function SaleOver(hops: seq<Hop>, x: Amount): Amount {
    ForwardAt(hops, x, |hops|)
  }

  /** What buying y over chosen pairs costs. */
  function CostOver(hops: seq<Hop>, y: Amount): Amount {
    BackwardAt(hops, y, 0)
  }

  /** Every pair has liquidity on both sides. */
  ghost predicate Liquid(pairs: seq<PairModel>) {
    forall pair :: pair in pairs ==> pair.reserves0 > 0 && pair.reserves1 > 0
  }

  /** No pair takes the whole input as fee. */
  ghost predicate FeesBelowAll(pairs: seq<PairModel>) {
    forall pair :: pair in pairs ==> pair.totalFee < BASE_POINTS
  }

  // ----- the hops of the quote and of a choice -----------------------------------------

  /** Chosen hops and priced hops over the same path. */
  ghost predicate SamePath(pairs: seq<PairModel>, p: Path, chosen: seq<Hop>, priced: seq<Hop>) {
    && |chosen| == |priced|
    && (forall i :: 0 <= i < |chosen| ==> ChosenAt(pairs, p, chosen[i], i))
    && (forall i :: 0 <= i < |priced| ==> PricedAt(pairs, p, priced[i], i) && priced[i].pair in pairs)
  }

  lemma ChoiceResolves(pairs: seq<PairModel>, p: Path, hops: seq<Hop>)
    requires HopChoice(pairs, p, hops)
    ensures SamePath(pairs, p, hops, RouteHops(pairs, p))
  {
    forall i | 0 <= i < |hops|
      ensures Resolves(pairs, p, i)
    {
      ChosenResolves(pairs, p, hops[i], i);
    }
    HopsAligned(pairs, p, |hops|);
    ChosenAndPriced(pairs, p, hops, HopsBetween(pairs, p, 0, |hops|));
  }

  lemma ChosenAndPriced(pairs: seq<PairModel>, p: Path, chosen: seq<Hop>, priced: seq<Hop>)
    requires HopChoice(pairs, p, chosen) && Aligned(pairs, p, priced) && |chosen| == |priced|
    ensures SamePath(pairs, p, chosen, priced)
  {
    forall i | 0 <= i < |priced|
      ensures PricedAt(pairs, p, priced[i], i) && priced[i].pair in pairs
    {
      PricedIsTraded(pairs, p, priced[i], i);
    }
  }

  lemma ChosenResolves(pairs: seq<PairModel>, p: Path, hop: Hop, i: nat)
    requires ChosenAt(pairs, p, hop, i)
    ensures Resolves(pairs, p, i)
  {
    assert Joined(pairs, p[i], p[i + 1]);
  }

  lemma PricedIsTraded(pairs: seq<PairModel>, p: Path, hop: Hop, i: nat)
    requires PricedAt(pairs, p, hop, i)
    ensures hop.pair in pairs
  {
  }

  /** The choice that a single hop between two tokens leaves. */
  lemma SingleHop(pairs: seq<PairModel>, pair: PairModel, a: Token, b: Token)
    requires Trades(pairs, pair, a, b)
    ensures PairByTokens(pairs, a, b).Some?
    ensures HopChoice(pairs, [a, b], [Hop(pair, a)])
    ensures RouteHops(pairs, [a, b]) == [Hop(PairByTokens(pairs, a, b).value, a)]
  {
    assert Joined(pairs, a, b);
    assert ChosenAt(pairs, [a, b], Hop(pair, a), 0);
    OneMoreHop(pairs, [a, b], 0);
  }

  // ----- selling -----------------------------------------------------------------------

  /** Selling x to this pair yields no more than selling it to the first pair of the market. */
  ghost predicate SellsAtMost(pairs: seq<PairModel>, pair: PairModel, a: Token, b: Token, x: nat) {
    var first := PairByTokens(pairs, a, b);
    first.Some? && !LessThan(StepOut(Fin(x), Hop(first.value, a)), StepOut(Fin(x), Hop(pair, a)))
  }

  /** In every market the first pair pays at least as much as any other, whatever is sold. */
  ghost predicate FirstSellsBest(pairs: seq<PairModel>) {
    forall pair, a, b, x: nat :: Trades(pairs, pair, a, b) ==> SellsAtMost(pairs, pair, a, b, x)
  }

  /** On every simple path and for every amount the quote is at least what any choice of pairs yields. */
  ghost predicate SalesUnbeaten(pairs: seq<PairModel>) {
    forall p, hops, x: nat :: HopChoice(pairs, p, hops) ==> SaleUnbeaten(pairs, p, hops, x)
  }

  ghost predicate SaleUnbeaten(pairs: seq<PairModel>, p: Path, hops: seq<Hop>, x: nat) {
    !LessThan(Quote(FixedInput, pairs, p, Fin(x)), SaleOver(hops, Fin(x)))
  }

  lemma StepOutFinite(x: nat, hop: Hop)
    requires hop.ReserveIn() > 0
    ensures StepOut(Fin(x), hop).Fin?
  {
    assert OutDenominator(x, hop.ReserveIn(), hop.pair.totalFee) > 0;
  }

  /** One hop: less sold to a pair that pays no more yields no more. */
  lemma SaleStep(pairs: seq<PairModel>, p: Path, chosen: Hop, priced: Hop, i: nat, c: Amount, r: Amount)
    requires Liquid(pairs) && FirstSellsBest(pairs)
    requires ChosenAt(pairs, p, chosen, i) && PricedAt(pairs, p, priced, i) && priced.pair in pairs
    requires FinAtMost(c, r)
    ensures FinAtMost(StepOut(c, chosen), StepOut(r, priced))
  {
    var (x, x') := (c.value, r.value);
    assert SellsAtMost(pairs, chosen.pair, p[i], p[i + 1], x);
    StepOutFinite(x, chosen);
    StepOutFinite(x, priced);
    AmountOutMonotone(x, x', priced.ReserveIn(), priced.ReserveOut(), priced.pair.totalFee);
  }

  lemma {:induction false} ChoiceSellsNoMore(
    pairs: seq<PairModel>, p: Path, chosen: seq<Hop>, priced: seq<Hop>, x: nat, k: nat
  )
    requires Liquid(pairs) && FirstSellsBest(pairs)
    requires SamePath(pairs, p, chosen, priced) && k <= |chosen|
    ensures FinAtMost(ForwardAt(chosen, Fin(x), k), ForwardAt(priced, Fin(x), k))
  {
    if k > 0 {
      ChoiceSellsNoMore(pairs, p, chosen, priced, x, k - 1);
      SaleStep(
        pairs, p, chosen[k - 1], priced[k - 1], k - 1,
        ForwardAt(chosen, Fin(x), k - 1), ForwardAt(priced, Fin(x), k - 1));
    }
  }

  lemma ChoiceNeverSellsMore(pairs: seq<PairModel>, p: Path, hops: seq<Hop>, x: nat)
    requires Liquid(pairs) && FirstSellsBest(pairs) && HopChoice(pairs, p, hops)
    ensures Quote(FixedInput, pairs, p, Fin(x)).Fin? && SaleOver(hops, Fin(x)).Fin?
    ensures SaleUnbeaten(pairs, p, hops, x)
  {
    ChoiceResolves(pairs, p, hops);
    ChoiceSellsNoMore(pairs, p, hops, RouteHops(pairs, p), x, |hops|);
    QuoteOverHops(pairs, p, Fin(x));
  }

  lemma UnbeatenSaleOfOneHop(pairs: seq<PairModel>, pair: PairModel, a: Token, b: Token, x: nat)
    requires SalesUnbeaten(pairs) && Trades(pairs, pair, a, b)
    ensures SellsAtMost(pairs, pair, a, b, x)
  {
    SingleHop(pairs, pair, a, b);
    assert SaleUnbeaten(pairs, [a, b], [Hop(pair, a)], x);
    QuoteOverHops(pairs, [a, b], Fin(x));
    SaleOverOne(Hop(pair, a), Fin(x));
    SaleOverOne(Hop(PairByTokens(pairs, a, b).value, a), Fin(x));
  }

  lemma SaleOverOne(hop: Hop, x: Amount)
    ensures SaleOver([hop], x) == StepOut(x, hop)
  {
    assert ForwardAt([hop], x, 0) == x;
  }

  /**
   Exactly when looking at one pair per market loses nothing: no choice of pairs, on any path
   and for any amount, sells better than the quote if and only if in every market the first
   pair pays at least as much as every other for every amount.
   */
  lemma QuoteSellsBestIff(pairs: seq<PairModel>)
    requires Liquid(pairs)
    ensures SalesUnbeaten(pairs) <==> FirstSellsBest(pairs)
  {
    if FirstSellsBest(pairs) {
      forall p, hops, x: nat | HopChoice(pairs, p, hops)
        ensures SaleUnbeaten(pairs, p, hops, x)
      {
        ChoiceNeverSellsMore(pairs, p, hops, x);
      }
    }
    if SalesUnbeaten(pairs) {
      forall pair, a, b, x: nat | Trades(pairs, pair, a, b)
        ensures SellsAtMost(pairs, pair, a, b, x)
      {
        UnbeatenSaleOfOneHop(pairs, pair, a, b, x);
      }
    }
  }

  /** Then the best route is best over all simple routes and all choices of pairs for their hops. */
  lemma BestSaleOverChoices(
    pairs: seq<PairModel>, source: Token, destination: Token, x: nat, route: BestSwapRoute, p: Path, hops: seq<Hop>
  )
    requires Liquid(pairs) && FirstSellsBest(pairs)
    requires IsBestRoute(pairs, source, destination, FixedInput, Fin(x), route)
    requires IsRoute(pairs, source, destination, p) && HopChoice(pairs, p, hops)
    ensures !LessThan(route.bestResult, SaleOver(hops, Fin(x)))
  {
    ChoiceNeverSellsMore(pairs, p, hops, x);
    assert !Better(FixedInput, Quote(FixedInput, pairs, p, Fin(x)), route.bestResult);
  }

  // ----- buying ------------------------------------------------------------------------

  /** Buying y from this pair costs no less than buying it from the first pair of the market. */
  ghost predicate CostsAtLeast(pairs: seq<PairModel>, pair: PairModel, a: Token, b: Token, y: nat) {
    var first := PairByTokens(pairs, a, b);
    first.Some? && !LessThan(StepIn(Fin(y), Hop(pair, a)), StepIn(Fin(y), Hop(first.value, a)))
  }

  ghost predicate FirstCostsLeast(pairs: seq<PairModel>) {
    forall pair, a, b, y: nat :: Trades(pairs, pair, a, b) ==> CostsAtLeast(pairs, pair, a, b, y)
  }

  /** On every simple path and for every target the quote is at most what any choice of pairs costs. */
  ghost predicate CostsUnbeaten(pairs: seq<PairModel>) {
    forall p, hops, y: nat :: HopChoice(pairs, p, hops) ==> CostUnbeaten(pairs, p, hops, y)
  }

  ghost predicate CostUnbeaten(pairs: seq<PairModel>, p: Path, hops: seq<Hop>, y: nat) {
    !LessThan(CostOver(hops, Fin(y)), Quote(FixedOutput, pairs, p, Fin(y)))
  }

  /** Both are amounts, and a is not above b. */
  predicate AtMost(a: Amount, b: Amount) {
    !a.NaN? && !b.NaN? && !LessThan(b, a)
  }

  lemma StepInNumber(y: Amount, hop: Hop)
    requires !y.NaN?
    requires hop.ReserveIn() > 0 && hop.ReserveOut() > 0 && hop.pair.totalFee < BASE_POINTS
    ensures !StepIn(y, hop).NaN?
  {
    var hops := [hop];
    if y.Fin? {
      NeverNaN(hops, y.value, 0);
      assert BackwardAt(hops, y, 1) == y;
      assert BackwardAt(hops, y, 0) == StepIn(y, hop);
    }
  }

  /** Needing more never costs less, 'Infinity' included. */
  lemma StepInMonotone(y: Amount, y': Amount, hop: Hop)
    requires AtMost(y, y')
    requires hop.ReserveIn() > 0 && hop.ReserveOut() > 0 && hop.pair.totalFee < BASE_POINTS
    ensures AtMost(StepIn(y, hop), StepIn(y', hop))
  {
    StepInNumber(y, hop);
    StepInNumber(y', hop);
    StepInFinite(y, hop);
    StepInFinite(y', hop);
    if StepIn(y', hop).Fin? {
      AmountInMonotone(y.value, y'.value, hop.ReserveIn(), hop.ReserveOut(), hop.pair.totalFee);
    }
  }

  /** One hop: needing more from a pair that costs no less costs no less. */
  lemma CostStep(pairs: seq<PairModel>, p: Path, chosen: Hop, priced: Hop, i: nat, y: Amount, y': Amount)
    requires Liquid(pairs) && FeesBelowAll(pairs) && FirstCostsLeast(pairs)
    requires ChosenAt(pairs, p, chosen, i) && PricedAt(pairs, p, priced, i) && priced.pair in pairs
    requires AtMost(y, y')
    ensures AtMost(StepIn(y, priced), StepIn(y', chosen))
  {
    StepInMonotone(y, y', priced);
    StepInNumber(y', chosen);
    if y'.Fin? {
      assert CostsAtLeast(pairs, chosen.pair, p[i], p[i + 1], y'.value);
    }
  }

  lemma {:induction false} ChoiceCostsNoLess(
    pairs: seq<PairModel>, p: Path, chosen: seq<Hop>, priced: seq<Hop>, y: nat, k: nat
  )
    requires Liquid(pairs) && FeesBelowAll(pairs) && FirstCostsLeast(pairs)
    requires SamePath(pairs, p, chosen, priced) && k <= |chosen|
    ensures AtMost(BackwardAt(priced, Fin(y), k), BackwardAt(chosen, Fin(y), k))
    decreases |chosen| - k
  {
    if k < |chosen| {
      ChoiceCostsNoLess(pairs, p, chosen, priced, y, k + 1);
      CostStep(
        pairs, p, chosen[k], priced[k], k, BackwardAt(priced, Fin(y), k + 1), BackwardAt(chosen, Fin(y), k + 1));
    }
  }

  lemma ChoiceNeverCostsLess(pairs: seq<PairModel>, p: Path, hops: seq<Hop>, y: nat)
    requires Liquid(pairs) && FeesBelowAll(pairs) && FirstCostsLeast(pairs) && HopChoice(pairs, p, hops)
    ensures AtMost(Quote(FixedOutput, pairs, p, Fin(y)), CostOver(hops, Fin(y)))
  {
    ChoiceResolves(pairs, p, hops);
    ChoiceCostsNoLess(pairs, p, hops, RouteHops(pairs, p), y, 0);
    QuoteOverHops(pairs, p, Fin(y));
  }

  lemma UnbeatenCostOfOneHop(pairs: seq<PairModel>, pair: PairModel, a: Token, b: Token, y: nat)
    requires CostsUnbeaten(pairs) && Trades(pairs, pair, a, b)
    ensures CostsAtLeast(pairs, pair, a, b, y)
  {
    SingleHop(pairs, pair, a, b);
    assert CostUnbeaten(pairs, [a, b], [Hop(pair, a)], y);
    QuoteOverHops(pairs, [a, b], Fin(y));
    CostOverOne(Hop(pair, a), Fin(y));
    CostOverOne(Hop(PairByTokens(pairs, a, b).value, a), Fin(y));
  }

  lemma CostOverOne(hop: Hop, y: Amount)
    ensures CostOver([hop], y) == StepIn(y, hop)
  {
    assert BackwardAt([hop], y, 1) == y;
  }

  /** The same for a fixed output: the quote is cheapest over all choices if and only if every first pair is. */
  lemma QuoteCostsLeastIff(pairs: seq<PairModel>)
    requires Liquid(pairs) && FeesBelowAll(pairs)
    ensures CostsUnbeaten(pairs) <==> FirstCostsLeast(pairs)
  {
    if FirstCostsLeast(pairs) {
      forall p, hops, y: nat | HopChoice(pairs, p, hops)
        ensures CostUnbeaten(pairs, p, hops, y)
      {
        ChoiceNeverCostsLess(pairs, p, hops, y);
      }
    }
    if CostsUnbeaten(pairs) {
      forall pair, a, b, y: nat | Trades(pairs, pair, a, b)
        ensures CostsAtLeast(pairs, pair, a, b, y)
      {
        UnbeatenCostOfOneHop(pairs, pair, a, b, y);
      }
    }
  }

  lemma BestCostOverChoices(
    pairs: seq<PairModel>, source: Token, destination: Token, y: nat, route: BestSwapRoute, p: Path, hops: seq<Hop>
  )
    requires Liquid(pairs) && FeesBelowAll(pairs) && FirstCostsLeast(pairs)
    requires IsBestRoute(pairs, source, destination, FixedOutput, Fin(y), route)
    requires IsRoute(pairs, source, destination, p) && HopChoice(pairs, p, hops)
    ensures !LessThan(CostOver(hops, Fin(y)), route.bestResult)
  {
    ChoiceNeverCostsLess(pairs, p, hops, y);
    assert !Better(FixedOutput, Quote(FixedOutput, pairs, p, Fin(y)), route.bestResult);
  }

  // ----- a condition on the pairs alone ------------------------------------------------

  /** This hop has at least the other's reserve to pay out, and after fees at least the other's price. */
  predicate NoWorse(hop: Hop, other: Hop) {
    && other.ReserveOut() <= hop.ReserveOut()
    && Kept(other) * other.ReserveOut() * hop.ReserveIn() <= Kept(hop) * hop.ReserveOut() * other.ReserveIn()
  }

  /** The share of an input that a hop does not keep as fee. */
  function Kept(hop: Hop): nat {
    BASE_POINTS - hop.pair.totalFee
  }

  /** In every market the first pair is no worse than any other, in either direction. */
  ghost predicate FirstNoWorse(pairs: seq<PairModel>) {
    forall pair, a, b :: Trades(pairs, pair, a, b) ==> FirstNoWorseThan(pairs, pair, a, b)
  }

  ghost predicate FirstNoWorseThan(pairs: seq<PairModel>, pair: PairModel, a: Token, b: Token) {
    var first := PairByTokens(pairs, a, b);
    first.Some? && NoWorse(Hop(first.value, a), Hop(pair, a))
  }

  /** g * ro * x / (ri * m + g * x) is no smaller for the hop than for the other. */
  lemma PaysLargerFraction(x: nat, m: nat, g: nat, ri: nat, ro: nat, g': nat, ri': nat, ro': nat)
    requires ro' <= ro && g' * ro' * ri <= g * ro * ri'
    ensures (x * g' * ro') * (ri * m + x * g) <= (x * g * ro) * (ri' * m + x * g')
  {
    MulMonotone(g' * ro' * ri, g * ro * ri', x * m);
    MulMonotone(ro', ro, (x * g') * (x * g));
    SplitFraction(x, m, g', ro', ri, g);
    SplitFraction(x, m, g, ro, ri', g');
    assert (x * g) * (x * g') == (x * g') * (x * g);
  }

  lemma SplitFraction(x: nat, m: nat, g: nat, ro: nat, ri: nat, g': nat)
    ensures (x * g * ro) * (ri * m + x * g') == (g * ro * ri) * (x * m) + ro * ((x * g) * (x * g'))
  {
    Distribute(x * g * ro, ri * m, x * g');
    assert (x * g * ro) * (ri * m) == (g * ro * ri) * (x * m) by {
      Reassociate(x, g, ro);
      SwapFactors(x, ri, m, g * ro);
    }
    Reassociate(ro, x * g, x * g');
  }

  lemma NoWorsePaysMore(hop: Hop, other: Hop, x: nat)
    requires NoWorse(hop, other) && hop.ReserveIn() > 0 && other.ReserveIn() > 0
    ensures FinAtMost(StepOut(Fin(x), other), StepOut(Fin(x), hop))
  {
    StepOutFinite(x, hop);
    StepOutFinite(x, other);
    PaysLargerFraction(
      x, BASE_POINTS, Kept(hop), hop.ReserveIn(), hop.ReserveOut(), Kept(other), other.ReserveIn(), other.ReserveOut());
    RoundTwiceMonotone(
      OutNumerator(x, other.ReserveOut(), other.pair.totalFee),
      OutDenominator(x, other.ReserveIn(), other.pair.totalFee),
      OutNumerator(x, hop.ReserveOut(), hop.pair.totalFee), OutDenominator(x, hop.ReserveIn(), hop.pair.totalFee));
  }

  /** ri * y / ((ro - y) * g) is no larger for the hop than for the other, as it is so at y = 0 and at y = ro'. */
  lemma CostsSmallerFraction(y: nat, m: nat, g: nat, ri: nat, ro: nat, g': nat, ri': nat, ro': nat)
    requires y < ro' <= ro && g' * ro' * ri <= g * ro * ri'
    ensures (ri * y * m) * ((ro' - y) * g') <= (ri' * y * m) * ((ro - y) * g)
  {
    var (left, right) := (ri * ((ro' - y) * g'), ri' * ((ro - y) * g));
    // ro' times the difference of the two is (ro' - y) times the one at y = 0 plus y times the one at y = ro'
    assert ro' * left <= ro' * right by {
      var (atZero, atZero') := (g' * ro' * ri, g * ro * ri');
      MulMonotone(atZero, atZero', ro' - y);
      WeighLeft(ri, ro', g', y);
      WeighRight(ri', ro, ro', g, y);
      MulMonotone(0, y, ri' * g * (ro - ro'));
    }
    Distribute(ro', right, 1);
    CancelFactor(ro', left, right + 1);
    MulMonotone(left, right, y * m);
    assert (ri * y * m) * ((ro' - y) * g') == left * (y * m);
    assert (ri' * y * m) * ((ro - y) * g) == right * (y * m);
  }

  lemma SwapFactors(a: int, b: int, c: int, d: int)
    ensures (a * d) * (b * c) == (d * b) * (a * c)
  {
    assert (a * d) * (b * c) == ((a * d) * b) * c == ((d * b) * a) * c;
  }

  lemma WeighLeft(ri: nat, ro: nat, g: nat, y: nat)
    requires y <= ro
    ensures ro * (ri * ((ro - y) * g)) == (ro - y) * (g * ro * ri)
  {
  }

  lemma WeighRight(ri: nat, ro: nat, ro': nat, g: nat, y: nat)
    requires y <= ro' <= ro
    ensures ro' * (ri * ((ro - y) * g)) == (ro' - y) * (g * ro * ri) + y * (ri * g * (ro - ro'))
  {
    assert ro' * (ro - y) == (ro' - y) * ro + y * (ro - ro');
    var c := ri * g;
    assert ri * ((ro - y) * g) == c * (ro - y);
    assert g * ro * ri == c * ro;
    assert ro' * (c * (ro - y)) == c * (ro' * (ro - y));
    Distribute(c, (ro' - y) * ro, y * (ro - ro'));
    Reassociate(ro' - y, c, ro);
    Reassociate(c, ro' - y, ro);
    Reassociate(y, c, ro - ro');
    Reassociate(c, y, ro - ro');
  }

  lemma NoWorseCostsLess(hop: Hop, other: Hop, y: nat)
    requires NoWorse(hop, other) && Kept(hop) > 0 && Kept(other) > 0
    requires y < other.ReserveOut()
    ensures FinAtMost(StepIn(Fin(y), hop), StepIn(Fin(y), other))
  {
    var (n, d) := (InNumerator(y, hop.ReserveIn()), InDenominator(y, hop.ReserveOut(), hop.pair.totalFee));
    var (n', d') := (InNumerator(y, other.ReserveIn()), InDenominator(y, other.ReserveOut(), other.pair.totalFee));
    AmountInAboveQuotient(y, hop.ReserveIn(), hop.ReserveOut(), hop.pair.totalFee);
    AmountInAboveQuotient(y, other.ReserveIn(), other.ReserveOut(), other.pair.totalFee);
    CostsSmallerFraction(
      y, BASE_POINTS, Kept(hop), hop.ReserveIn(), hop.ReserveOut(), Kept(other), other.ReserveIn(), other.ReserveOut());
    RoundTwiceMonotone(n, d, n', d');
  }

  /**
   What can be read off the pairs: if the first pair of every market has the largest reserve
   to pay out and the best price after fees, no choice of pairs beats a quote, in either way of
   swapping.
   */
  lemma NoWorseIsEnough(pairs: seq<PairModel>)
    requires Liquid(pairs) && FeesBelowAll(pairs) && FirstNoWorse(pairs)
    ensures SalesUnbeaten(pairs) && CostsUnbeaten(pairs)
  {
    forall pair, a, b, x: nat | Trades(pairs, pair, a, b)
      ensures SellsAtMost(pairs, pair, a, b, x) && CostsAtLeast(pairs, pair, a, b, x)
    {
      FirstIsBest(pairs, pair, a, b, x);
    }
    QuoteSellsBestIff(pairs);
    QuoteCostsLeastIff(pairs);
  }

  lemma FirstIsBest(pairs: seq<PairModel>, pair: PairModel, a: Token, b: Token, x: nat)
    requires Liquid(pairs) && FeesBelowAll(pairs) && FirstNoWorse(pairs) && Trades(pairs, pair, a, b)
    ensures SellsAtMost(pairs, pair, a, b, x) && CostsAtLeast(pairs, pair, a, b, x)
  {
    assert FirstNoWorseThan(pairs, pair, a, b);
    var (hop, other) := (Hop(PairByTokens(pairs, a, b).value, a), Hop(pair, a));
    NoWorsePaysMore(hop, other, x);
    StepInFinite(Fin(x), other);
    if x < other.ReserveOut() {
      NoWorseCostsLess(hop, other, x);
    } else {
      StepInNumber(Fin(x), other);
    }
  }

  // ----- the loss is real --------------------------------------------------------------

  /** With two pairs in a market only the first is priced, even when the second would pay ten times as much. */
  lemma LaterPairIgnored(a: Token, b: Token, first: PairModel, second: PairModel)
    requires a != b
    requires first == PairModel("x", EsdtToken(a, 18), EsdtToken(b, 18), 100, 100, 0)
    requires second == PairModel("y", EsdtToken(a, 18), EsdtToken(b, 18), 100, 1000, 0)
    ensures Liquid([first, second]) && IsRoute([first, second], a, b, [a, b])
    ensures HopChoice([first, second], [a, b], [Hop(second, a)])
    ensures Quote(FixedInput, [first, second], [a, b], Fin(100)) == Fin(50)
    ensures SaleOver([Hop(second, a)], Fin(100)) == Fin(500)
  {
    var pairs, p := [first, second], [a, b];
    SingleHop(pairs, second, a, b);
    assert Joins(first, a, b);
    QuoteOverHops(pairs, p, Fin(100));
    SaleOverOne(Hop(first, a), Fin(100));
    SaleOverOne(Hop(second, a), Fin(100));
    RoundedOfWhole(50 * SCALE, 20_000_000);
    RoundedOfWhole(500 * SCALE, 20_000_000);
    RoundedOfWhole(50, SCALE);
    RoundedOfWhole(500, SCALE);
  }
}
