# Verified model of the exchange service's computations

The service answers questions about a decentralised exchange: which chain of liquidity
pairs gives the best swap, what it costs to unlock locked tokens early, how much was burned
or traded. This project models the parts that compute and coordinate, and proves what the
rest of the service relies on.

- **Auto-router.** `BigNumbers` is the part of bignumber.js in use: `dividedBy` rounds to 20
  decimals, `integerValue` rounds again. `PairUtils` holds the two constant-product formulas
  on every input, zero reserves and a full fee included (a division by zero yields `Infinity`
  or `NaN` as in the source). `Pairs`, `TokenPaths` and `Graph` are the liquidity graph and
  its backtracking search, `AutoRouterCompute` prices paths and picks one, `AutoRouter` is the
  whole swap, `MarketChoice` asks what is lost by pricing one pair per market, and
  `AutoRouterTransactions` are the swaps that are sent. Main results: the search returns
  exactly the simple routes, each once per choice of pairs; the route reported is best among
  all of them; a fixed-output quote, sold forwards hop by hop, always yields its target; a
  fixed-input transaction completes at the quoted reserves, and never pays out less than its
  share of the tolerance allows at any others; and it is stated exactly when a fixed-output
  transaction completes.
- **Lock penalty.** `EnergyCompute` is the piecewise linear penalty curve and the formula
  for partial unlocks, `Energy` the penalty of a token. Main results: the curve is defined
  exactly on 0 to the longest option, monotone, and linear between the options; unlocking in k
  steps keeps at least as much as unlocking at once, and at most k points more; the outcome
  of every penalty request is known.
- **Protocols and folds.** `PendingExecution` (request coalescing) and `GuestCaching` (batched
  hit counting) are machines whose steps are the code between two awaits, proved over every
  interleaving: joiners get the owner's result, no call is lost or stuck, every hit is
  accounted for. `LogsProcessor` adds up burned fees and writes them in batches;
  `IngestData` merges the analytics of a batch of events.
- `Wrappers` is the option type; `Arithmetic` and `Sequences` are what several modules need about
  integers and sequences.

**Rounding.** Which way bignumber.js rounds is a setting shared by everything that loads the
library. The service sets only EXPONENTIAL_AT (src/main.ts:18), which leaves the default, half
up. The amounts its unit tests expect are rounded down, though
(src/modules/auto-router/specs/auto-router.service.spec.ts:159, 203, 364), as they are once a loaded
package has changed the setting; that package is not part of this model. The mode is therefore
a constant without a value, `BigNumbers.ROUNDING`: every result holds for both modes, and
`PairUtils.ExpectedAmountTellsRounding` shows that the expected amounts tell them apart.

Findings about the code as it stands, each with the exact condition under which it behaves:

- Rounding half up, a quote can pay one unit more than the exact output, and the product of
  the reserves may fall (`PairUtils.ProductCanDrop`); rounding down it never does
  (`PairUtils.ProductKeptIff`).
- A tolerance can make a fixed-output transaction fail at the very reserves it was quoted at,
  because every hop but the last is asked for more than was quoted
  (`AutoRouterTransactions.ToleranceCanBeTooMuch`, `FixedOutputCompletesIff`).
- With several pairs in one market only the first is priced (`MarketChoice.LaterPairIgnored`);
  nothing is lost if and only if the first pair of every market is its best
  (`QuoteSellsBestIff`, `QuoteCostsLeastIff`), for which a comparison of reserves and fees is
  enough (`NoWorseIsEnough`).
- Coalescing holds if and only if no executor asks for its own key before it has returned
  its promise (`PendingExecution.CoalescesIffNotReentrant`, `ReentryHappens`). The executors
  built in the repository never do.
- Overlapping requests can make a batch publish less than its hits
  (`GuestCaching.OverlapLosesHits`); where every hit goes is stated exactly
  (`HitsAccountedFor`, `ExactIffPublishesFull`).
- A transaction that both scans return is counted twice unless it burned nothing
  (`LogsProcessor.SharedTransactionCountsTwice`, `CountedOnceIff`).
- A lock option shorter than a month can turn a partial unlock into a full one
  (`Energy.ShortOptionUnlocksFully`, `PartialStaysPartial`).

Conventions: token identifiers, addresses and keys are strings; amounts and reserves are
natural numbers; a fee is a whole number of base points; what databases, contracts, clocks
and caches return is a parameter. Classes stand for the objects the source updates in
place; functions for its expressions.

## Model

| member | source | states |
|---|---|---|
| BigNumbers.RoundTwiceRespectsWholes | src/modules/pair/pair.utils.ts:41 | rounding to 20 decimals and then to a whole number, in either mode, never crosses a whole number |
| BigNumbers.RoundTwiceError | src/modules/pair/pair.utils.ts:41 | half up, the two roundings together move a quotient by at most 1/2 + 1/(2 * 10^20); down, they drop exactly the fraction |
| BigNumbers.RoundTwiceToFloor | src/modules/pair/pair.utils.ts:41 | exactly when both roundings together round down, from the remainder of the division |
| BigNumbers.RoundTwiceMonotone | src/modules/pair/pair.utils.ts:41 | a larger fraction never rounds to a smaller whole number |
| PairUtils.AmountOutMonotone | src/modules/pair/pair.utils.ts:32-41 | more input never yields less output |
| PairUtils.AmountOutBounds | src/modules/pair/pair.utils.ts:32-41 | on all inputs, with the arithmetic written out: the output never exceeds the reserve; half up it is the constant-product output up to 1/2 + 1/(2 * 10^20), down it is that output without its fraction; NaN where it would divide zero by zero |
| PairUtils.AmountInBounds | src/modules/pair/pair.utils.ts:53-69 | on all inputs, with the arithmetic written out: the input named is one more than the rounded constant-product quotient; 0 for more than the reserve, Infinity or NaN for a division by zero |
| PairUtils.TwentyDecimals | src/modules/pair/pair.utils.ts:41 | two quotes that tell apart how many decimals the first rounding keeps |
| PairUtils.ConstantProductKept | src/modules/pair/pair.utils.ts:32-41 | (Rin + in)(Rout - out) is at least Rin * Rout less (Rin + in)(1/2 + 1/(2 * 10^20)), for every fee |
| PairUtils.QuoteIsFloorOrNext | src/modules/pair/pair.utils.ts:32-41 | the output is the exact one rounded down, or one unit more |
| PairUtils.ProductKeptIff | src/modules/pair/pair.utils.ts:32-41 | for every fee and mode, the product of the reserves does not fall if and only if the fraction rounds down or the fee leaves room for the next whole number |
| PairUtils.ProductCanDrop | src/modules/pair/pair.utils.ts:32-41 | a concrete quote, rounded half up, after which the product of the reserves is smaller |
| PairUtils.ExpectedAmountTellsRounding | src/modules/auto-router/specs/auto-router.service.spec.ts:138-182 | the quote for a swap of the unit tests in both modes; the amount they expect is the one rounded down |
| PairUtils.AmountInFinite | src/modules/pair/pair.utils.ts:53-69 | an input can be named exactly when the output is below the reserve and the fee below the whole |
| PairUtils.AmountInNearlyLeast | src/modules/pair/pair.utils.ts:56-69 | the input named reaches the output exactly, and no input more than one unit smaller does |
| PairUtils.InverseLaw | src/modules/pair/pair.utils.ts:32-69 | paying what `getAmountIn` asks for y yields at least y through `getAmountOut`, all rounding included |
| PairUtils.AmountInMonotone | src/modules/pair/pair.utils.ts:53-69 | wanting more never needs less input |
| Graph.GraphService.constructor | src/modules/auto-router/services/graph.service.ts:9-24 | the adjacency list holds both directions of every pair, in the order of the pairs |
| Graph.GraphService.AddEdge | src/modules/auto-router/services/graph.service.ts:36-43 | one neighbour is appended to one node, which is created if new |
| Graph.SpliceUndoesPush | src/modules/auto-router/services/graph.service.ts:66-74 | removing the first occurrence of a token just pushed removes the last element, because the path did not contain it |
| Graph.Descend | src/modules/auto-router/services/graph.service.ts:56-66 | marking a node and pushing an unvisited neighbour keeps the path simple and the marks in step with it, and leaves fewer unvisited nodes |
| Graph.GraphService.GetAllPathsUtil | src/modules/auto-router/services/graph.service.ts:45-78 | the search appends exactly the paths below the current one and hands `localPathList` and (for a node of the graph) `isVisited` back unchanged; it terminates |
| Graph.GraphService.GetAllPaths | src/modules/auto-router/services/graph.service.ts:80-95 | the paths from source to destination, from fresh marks |
| TokenPaths.EdgeCount | src/modules/auto-router/services/graph.service.ts:14-23 | two different tokens are joined by as many edges as there are positions in the list with a pair trading them |
| TokenPaths.PathCount | src/modules/auto-router/services/graph.service.ts:45-78 | below a simple path the search finds each simple continuation to the destination once per choice of edges, and nothing else |
| TokenPaths.AllPathsCount | src/modules/auto-router/services/graph.service.ts:9-95 | a token sequence is returned as often as pairs can be chosen for its hops if it is a simple route, and never otherwise |
| TokenPaths.AllPathsExact | src/modules/auto-router/services/graph.service.ts:45-95 | soundness and completeness: exactly the simple routes from source to destination are returned |
| TokenPaths.AllPathsOnce | src/modules/auto-router/services/graph.service.ts:45-95 | each route is returned exactly once when no two pairs trade the same two tokens |
| AutoRouterCompute.GetPairByTokens | src/modules/auto-router/services/auto-router.compute.service.ts:71-88 | the first pair that trades the two tokens, if any does |
| AutoRouterCompute.FirstOfMarket | src/modules/auto-router/services/auto-router.compute.service.ts:71-88 | a pair is priced if no pair before it in the list trades the two tokens, in either orientation |
| AutoRouterCompute.PathAmountsFixedInput | src/modules/auto-router/services/auto-router.compute.service.ts:107-127 | one path priced forwards: the amount before and after every resolved hop |
| AutoRouterCompute.PathAmountsFixedOutput | src/modules/auto-router/services/auto-router.compute.service.ts:140-163 | one path priced backwards from its end, unaffordable hops and all before them at 'Infinity' |
| AutoRouterCompute.ComputeIntermediaryAmountsFixedInput | src/modules/auto-router/services/auto-router.compute.service.ts:99-130 | every path priced forwards, in order |
| AutoRouterCompute.ComputeIntermediaryAmountsFixedOutput | src/modules/auto-router/services/auto-router.compute.service.ts:132-167 | every path priced backwards, in order |
| AutoRouterCompute.HopsAligned | src/modules/auto-router/services/auto-router.compute.service.ts:107-114 | when every hop resolves there is exactly one per position, with the first matching pair and the right token entering |
| AutoRouterCompute.ReplayIsSafe | src/modules/auto-router/services/auto-router.compute.service.ts:99-167 | replaying a finite fixed-output quote forwards from at least its head gives at every position at least the quoted amount |
| AutoRouterCompute.ReplayReachesTarget | src/modules/auto-router/services/auto-router.compute.service.ts:99-167 | such a replay ends in at least the target output |
| AutoRouterCompute.HeadFinite | src/modules/auto-router/services/auto-router.compute.service.ts:150-161 | on all inputs, a fixed-output quote is finite exactly when no hop is asked for its whole reserve or keeps the whole input as fee |
| AutoRouterCompute.NeverNaN | src/modules/auto-router/services/auto-router.compute.service.ts:150-161 | with positive reserves and fees below the whole a fixed-output quote is never NaN |
| AutoRouterCompute.InfinityIsExact | src/modules/auto-router/services/auto-router.compute.service.ts:150-161 | with positive reserves and fees below the whole, the head is 'Infinity' if and only if some hop, working backwards, needs at least its whole output reserve |
| AutoRouterCompute.ForwardNeverInfinite | src/modules/auto-router/services/auto-router.compute.service.ts:99-130 | a fixed-input pass never produces 'Infinity' |
| AutoRouterCompute.GetBestAmountAndIndex | src/modules/auto-router/services/auto-router.compute.service.ts:169-195 | the first list with the best last (or first) amount; index -1 exactly when none beats 0 (or 'Infinity') |
| AutoRouterCompute.GetAddressRoute | src/modules/auto-router/services/auto-router.compute.service.ts:197-216 | the addresses of the pairs that price the hops of the route, in order |
| AutoRouterCompute.ComputeBestSwapRoute | src/modules/auto-router/services/auto-router.compute.service.ts:22-69 | the route chosen is one of the paths, none of them is better, and 'No route found' is raised exactly when none beats the baseline |
| AutoRouter.FindBestRoute | src/modules/auto-router/services/auto-router.service.ts:46-67 | end to end, with paths from a graph of the same pairs: no simple route gives more (or costs less) than the one returned, and the failure is raised exactly when every route gives 0 (or costs 'Infinity') or none exists |
| AutoRouter.BestSaleInNumbers | src/modules/auto-router/services/auto-router.compute.service.ts:169-195 | a best fixed-input route ends in a positive amount that no simple route exceeds |
| AutoRouter.BestCostInNumbers | src/modules/auto-router/services/auto-router.compute.service.ts:169-195 | a best fixed-output route starts with a finite amount that no simple route undercuts |
| AutoRouter.NothingInNumbers | src/modules/auto-router/services/auto-router.compute.service.ts:169-195 | no route is found exactly when every simple route ends in 0 or NaN (or starts with Infinity or NaN) |
| AutoRouter.RouteAmounts | src/modules/auto-router/services/auto-router.compute.service.ts:99-167 | hop by hop: each amount of a simple route is what the formula gives for the amount before it (or after it), the reserves of its own two tokens and the fee of its first pair; 0 stands for Infinity in a fixed-output pass |
| AutoRouter.CostCoversTarget | src/modules/auto-router/services/auto-router.compute.service.ts:99-167 | on any path, entering with at least the fixed-output cost of y yields at least y |
| AutoRouter.FixedOutputCostSuffices | src/modules/auto-router/services/auto-router.compute.service.ts:22-69 | whoever enters with the cost of the best fixed-output route finds a fixed-input route, and every best one yields at least the target |
| AutoRouter.MoreInputYieldsNoLess | src/modules/auto-router/services/auto-router.compute.service.ts:22-69 | whoever enters with more finds a fixed-input route whenever one with less does, and every best one yields at least as much |
| AutoRouter.LessOutputCostsNoMore | src/modules/auto-router/services/auto-router.compute.service.ts:22-69 | whoever wants less finds a fixed-output route whenever one who wants more does, and every best one costs at most as much |
| MarketChoice.QuoteSellsBestIff | src/modules/auto-router/services/auto-router.compute.service.ts:71-130 | with liquid pairs, no choice of pairs on any simple path and for any amount sells better than the quote if and only if in every market the first pair pays at least as much as every other for every amount |
| MarketChoice.BestSaleOverChoices | src/modules/auto-router/services/auto-router.compute.service.ts:22-130 | then the best route is best over all simple routes and all choices of pairs for their hops |
| MarketChoice.QuoteCostsLeastIff | src/modules/auto-router/services/auto-router.compute.service.ts:71-167 | the same for a fixed output: the quote is cheapest over all choices if and only if every market's first pair is, for every amount |
| MarketChoice.BestCostOverChoices | src/modules/auto-router/services/auto-router.compute.service.ts:22-167 | then the best fixed-output route is cheapest over all simple routes and all choices of pairs |
| MarketChoice.NoWorseIsEnough | src/modules/auto-router/services/auto-router.compute.service.ts:71-88 | a condition on the pairs alone: where every first pair has the largest reserve to pay out and the best price after fees, no choice of pairs beats a quote, for a fixed input or a fixed output |
| MarketChoice.LaterPairIgnored | src/modules/auto-router/services/auto-router.compute.service.ts:71-88 | with two pairs in one market only the first is priced, even when the second pays ten times as much |
| AutoRouter.GetPairsRoute | src/modules/auto-router/services/auto-router.service.ts:434-447 | the first pair with each address, addresses without a pair dropped |
| AutoRouter.FirstAtAddress | src/modules/auto-router/services/auto-router.service.ts:434-447 | a pair is found by its address if no pair before it in the list has that address |
| AutoRouter.AddressesRoundTrip | src/modules/auto-router/services/auto-router.service.ts:434-447 | with distinct addresses the pairs found again are the very ones that priced the route |
| AutoRouter.RouteAligned | src/modules/auto-router/services/auto-router.service.ts:403-447 | one amount per token and one pair per hop; the pair at i joins tokens i and i + 1; fees are shown in the entering token's decimals; the price impact uses the reserve paid out of |
| AutoRouter.RefusesRoute | src/modules/auto-router/services/auto-router.service.ts:241-251 | a route of several hops is refused exactly when one of its pairs hands out locked tokens |
| AutoRouter.MultiSwap | src/modules/auto-router/services/auto-router.service.ts:200-297 | the answer reports a best route with its amounts and pairs; it fails exactly when there is nothing to gain or the best route is refused; no answer with two or more pairs shows an address that hands out locked tokens |
| AutoRouter.ToleranceOnlyAdds | src/modules/auto-router/services/auto-router.service.ts:328-333 | the amount times 1 + tolerance, rounded; a tolerance never lowers an amount, and no tolerance leaves it alone |
| AutoRouter.ShownAmountSuffices | src/modules/auto-router/services/auto-router.transactions.service.ts:48-69 | the amount attached to the transaction is the amount shown; sold through the route at the quoted reserves it would yield at least the amount out shown |
| AutoRouterTransactions.MultiPairFixedInputSwaps | src/modules/auto-router/services/auto-router.transactions.service.ts:81-114 | one swap per hop, its minimum the quoted amount less (n - i)/n of the tolerance, rounded, for every tolerance |
| AutoRouterTransactions.MultiPairFixedOutputSwaps | src/modules/auto-router/services/auto-router.transactions.service.ts:116-196 | one swap per hop, asking for the quoted amount plus (n - i - 1)/n of the tolerance, rounded |
| AutoRouterTransactions.MinimumBounds | src/modules/auto-router/services/auto-router.transactions.service.ts:89-102 | the minimum between two bounds in the inputs alone, for a tolerance up to 1 |
| AutoRouterTransactions.RequestBounds | src/modules/auto-router/services/auto-router.transactions.service.ts:124-139 | the request between two bounds in the inputs alone |
| AutoRouterTransactions.MinimumBelowQuote | src/modules/auto-router/services/auto-router.transactions.service.ts:92-102 | a minimum is never above the quote, whatever the tolerance, and not negative for a tolerance up to 1 |
| AutoRouterTransactions.RequestAboveQuote | src/modules/auto-router/services/auto-router.transactions.service.ts:127-139 | a request is never below the quote, and is the quote on the last hop and without a tolerance |
| AutoRouterTransactions.FixedInputCompletes | src/modules/auto-router/services/auto-router.transactions.service.ts:81-114 | for every tolerance a fixed-input transaction completes at the quoted reserves with the quoted output; up to a tolerance of 1 no minimum is negative (above 1 one can be, which the unsigned argument of line 106 does not carry) |
| AutoRouterTransactions.SlippageProtected | src/modules/auto-router/services/auto-router.transactions.service.ts:81-114 | at whatever reserves a fixed-input transaction is carried out, if it completes it hands out at least the quoted output less tolerance/n for n hops, up to the rounding |
| AutoRouterTransactions.FixedOutputCompletesIff | src/modules/auto-router/services/auto-router.transactions.service.ts:116-196 | a fixed-output transaction completes at the quoted reserves, handing out exactly the target, if and only if every hop but the last can pay for its request from the request before it (the first from the attached amount) |
| AutoRouterTransactions.AffordableIff | src/modules/auto-router/services/auto-router.transactions.service.ts:116-147 | a hop can pay if and only if the request is below its reserve and `getAmountIn` of it is at most the funds |
| AutoRouterTransactions.ZeroToleranceCompletes | src/modules/auto-router/services/auto-router.transactions.service.ts:116-196 | without a tolerance, and on a single hop with any, a fixed-output transaction completes |
| AutoRouterTransactions.ToleranceCanBeTooMuch | src/modules/auto-router/services/auto-router.transactions.service.ts:116-147 | two concrete pairs, the router's best route over them for a target of 1, and a tolerance of 5% with which its transaction fails at the quoted reserves |
| AutoRouterTransactions.SinglePairCompletes | src/modules/pair/services/pair.transactions.service.ts:313-318 | the minimum of a single-pair fixed-input transaction never fails it at the quoted reserves |
| AutoRouterTransactions.SinglePairRounds | src/modules/pair/services/pair.transactions.service.ts:313-318 | the minimum of a single-pair transaction is the share 1/(1 + tolerance), to 20 decimals, of the output shown, both rounded |
| AutoRouterTransactions.SentSwapsOutcome | src/modules/auto-router/services/auto-router.service.ts:450-491 | from search to transaction, sent to the pair for a single hop and to the router otherwise: a fixed-input answer is carried out with the output shown; a fixed-output answer if and only if every hop but the last can pay, and so always for a single hop |
| AutoRouterTransactions.SentSaleProtected | src/modules/auto-router/services/auto-router.service.ts:450-491 | the protection of the transaction an answer is sent as, through one pair or several, whatever the reserves have become |
| AutoRouter.OnePairPerHop | src/modules/auto-router/services/auto-router.service.ts:434-447 | an answer shows one pair per hop, so a single pair shown means a single hop, even where addresses repeat |
| EnergyCompute.ComputePenaltyPercentageFullUnlock | src/modules/energy/services/energy.compute.service.ts:60-104 | the scan with its break computes the curve, with the exceptions of the source |
| EnergyCompute.SegmentCovers | src/modules/energy/services/energy.compute.service.ts:80-92 | whatever the options, for every period between the first and the last of them the scan finds a segment |
| EnergyCompute.CurveIsLinear | src/modules/energy/services/energy.compute.service.ts:60-145 | between two options that follow each other (or no lock and the first) the percentage is the weighted mean of their penalties, rounded down, with the arithmetic written out |
| EnergyCompute.CurveIsChord | src/modules/energy/services/energy.compute.service.ts:60-145 | on every segment that contains the period the result is the same; neighbouring segments agree where they meet |
| EnergyCompute.NoLengthNoNumber | src/modules/energy/services/energy.compute.service.ts:140-144 | a first option without a lock period leaves no number at zero |
| EnergyCompute.CurveDomain | src/modules/energy/services/energy.compute.service.ts:60-145 | with valid options the computation succeeds exactly from 0 to the longest option, and which exception is thrown outside |
| EnergyCompute.CurveAtBreakpoint | src/modules/energy/services/energy.compute.service.ts:60-145 | at each option the penalty is the option's own, at zero it is zero |
| EnergyCompute.CurveMonotone | src/modules/energy/services/energy.compute.service.ts:60-145 | longer remaining locks never cost less, across segments and despite truncation, and never more than the last option's penalty |
| EnergyCompute.ComputePenaltyPercentagePartialUnlock | src/modules/energy/services/energy.compute.service.ts:106-125 | the partial percentage, with the exception of the new period first |
| EnergyCompute.PartialIsQuotient | src/modules/energy/services/energy.compute.service.ts:120-124 | for all periods on the curve, growing locks included: the partial percentage between two bounds in the two full penalties alone, truncated towards zero |
| EnergyCompute.PartialIsFloor | src/modules/energy/services/energy.compute.service.ts:120-124 | for a shrinking lock the partial penalty is the exact quotient rounded down |
| EnergyCompute.PartialBelowFull | src/modules/energy/services/energy.compute.service.ts:120-124 | a partial unlock never costs more than a full one |
| EnergyCompute.PartialFallsWithKept | src/modules/energy/services/energy.compute.service.ts:106-125 | keeping a longer lock never costs more |
| EnergyCompute.StepAgreesWithDirect | src/modules/energy/services/energy.compute.service.ts:106-125 | reducing the lock and unlocking later keeps at least what unlocking at once keeps, and exceeds it by less than M - full(new) |
| EnergyCompute.ChainAgreesWithDirect | src/modules/energy/services/energy.compute.service.ts:106-125 | for any chain of shrinking periods the kept fractions multiply to at least the direct one, and k steps gain at most k points of M |
| Energy.AlignNewLockPeriod | src/modules/energy/services/energy.service.ts:69-87 | the requested period must be an option; its unlock epoch is moved back to the start of the month |
| Energy.GetPenaltyAmount | src/modules/energy/services/energy.service.ts:60-113 | the checks and the month alignment in the order of the source, and then the penalty of the adjusted request |
| Energy.AdjustedToMonth | src/modules/energy/services/energy.service.ts:80-86 | the new unlock epoch is the last month start not after the requested one |
| Energy.PartialStaysPartial | src/modules/energy/services/energy.service.ts:80-86 | a partial request stays partial exactly when its unlock epoch lies fewer days into the month than the period is long; on equality it becomes a full unlock |
| Energy.ShortOptionUnlocksFully | src/modules/energy/services/energy.service.ts:69-113 | a concrete option shorter than a month whose partial request costs the full penalty |
| Energy.UnitsExact | src/modules/energy/services/energy.compute.service.ts:55-57 | the penalty amount is the exact percentage of the tokens, unrounded, and never exceeds them |
| Energy.PenaltyWellBehaved | src/modules/energy/services/energy.service.ts:60-118 | with valid options, whatever their length: which requests are refused and how, when a partial request becomes a full one, and otherwise the exact penalty, between 0 and the amount |
| PendingExecution.PendingExecutor.Execute | src/utils/pending.executor.ts:8-16 | a call up to its first await: it joins the pending promise of its key or enters the executor |
| PendingExecution.PendingExecutor.ExecutorReturns | src/utils/pending.executor.ts:16-17 | the promise of the executor is registered under the key and awaited |
| PendingExecution.PendingExecutor.ExecutorThrows | src/utils/pending.executor.ts:16 | an executor that throws at once ends the call and leaves the dictionary alone |
| PendingExecution.PendingExecutor.Resume | src/utils/pending.executor.ts:19-23 | an awaiting call returns the settlement of its promise; an owner removes its key |
| PendingExecution.CoalescesIffNotReentrant | src/utils/pending.executor.ts:8-24 | over every run there is at most one executor run per key at each moment, if and only if no executor asks for its own key before returning its promise |
| PendingExecution.EveryRequestIsACall | src/utils/pending.executor.ts:8-16 | every request is exactly one more call, with its key, and the calls before it stay |
| PendingExecution.CallsAreRequests | src/utils/pending.executor.ts:8-24 | over every run there are as many calls as requests: none is dropped |
| PendingExecution.RequestJoinsOwner | src/utils/pending.executor.ts:11-20 | a request whose key some call owns becomes a joiner of that call's promise, and whenever both have come back their settlements are equal; a request whose key nobody owns enters the executor |
| PendingExecution.ReturnsWhatSettled | src/utils/pending.executor.ts:12-20 | a call comes back with exactly what its promise settled with |
| PendingExecution.InnermostLeaves | src/utils/pending.executor.ts:16-17 | an executor that throws ends the innermost call for good with its reason and registers nothing; one that returns makes that call the owner of a new promise |
| PendingExecution.EveryCallCanFinish | src/utils/pending.executor.ts:8-24 | no call is ever stuck: from every moment of every run all calls can come back once executors return and promises settle |
| PendingExecution.ReentryHappens | src/utils/pending.executor.ts:11-17 | the run in which an executor asks for its own key at once: two runs of one key are in flight |
| PendingExecution.DictionaryTracksOwners | src/utils/pending.executor.ts:11-23 | a key is in the dictionary exactly while its owner has not finished, and an owner deletes its own entry, never a later one |
| PendingExecution.JoinersShareResult | src/utils/pending.executor.ts:12-20 | all calls that waited for one executor run return the same settlement, whenever they return |
| PendingExecution.NothingLeftBehind | src/utils/pending.executor.ts:21-23 | once no call is under way the dictionary is empty and every promise has settled |
| GuestCaching.GuestCachingMiddleware.Use | src/utils/guestCaching.middleware.ts:39-57 | a request up to its first await: one more hit in its counter, which starts over after a batch |
| GuestCaching.GuestCachingMiddleware.Publish | src/utils/guestCaching.middleware.ts:59 | after the await the counter is published as it is by then |
| GuestCaching.GuestCachingMiddleware.Fail | src/utils/guestCaching.middleware.ts:58 | a request whose await throws ends without publishing |
| GuestCaching.GuestCachingMiddleware.Finish | src/utils/guestCaching.middleware.ts:76-79 | the counters of the minute before are deleted |
| GuestCaching.HitsAccountedFor | src/utils/guestCaching.middleware.ts:39-79 | over every run: published, waiting in full batches, unfilled and lost hits add up to all hits, where hits are lost by publishing a counter that has moved on, by failing and by deletion |
| GuestCaching.HitsAreArrivals | src/utils/guestCaching.middleware.ts:39-53 | the hits accounted for are the requests that came, one for each |
| GuestCaching.ScoreNeverExceedsHits | src/utils/guestCaching.middleware.ts:39-79 | for any positive batch size and any interleaving, failures and deletions included, a score never exceeds the hits |
| GuestCaching.ExactIffOnlyRestMissing | src/utils/guestCaching.middleware.ts:39-79 | once nobody waits, the score is batch * floor(hits / batch) if and only if lost and unfilled hits are hits mod batch |
| GuestCaching.ExactIffPublishesFull | src/utils/guestCaching.middleware.ts:39-79 | if nothing of a query fails or comes after its minute was deleted, that is so if and only if every publishing found a full counter |
| GuestCaching.QuietScoreIsExact | src/utils/guestCaching.middleware.ts:39-63 | in particular when no request for the query comes while one waits to publish it |
| GuestCaching.OverlapLosesHits | src/utils/guestCaching.middleware.ts:50-59 | a concrete run in which an overlapping request makes a batch publish less |
| LogsProcessor.LogsProcessorService.GetBurnedFee | src/services/crons/logs.processor.service.ts:271-285 | the sum of the MEX burned, other tokens ignored |
| LogsProcessor.OneEventAdds | src/services/crons/logs.processor.service.ts:271-285 | wherever an event stands in the list, it adds its amount if it is a burn of MEX, and nothing otherwise |
| LogsProcessor.OtherTokensIgnored | src/services/crons/logs.processor.service.ts:271-316 | deleting every burn of another token from the logs leaves the map as it is |
| LogsProcessor.LogsProcessorService.ProcessSwapEvents | src/services/crons/logs.processor.service.ts:287-316 | one more log keeps the map exact: each timestamp with its nonzero burns, once |
| LogsProcessor.LogsProcessorService.GetSwapLogs | src/services/crons/logs.processor.service.ts:136-152 | so does a whole scan |
| LogsProcessor.LogsProcessorService.WriteRecords | src/services/crons/logs.processor.service.ts:218-250 | every entry is written once, in order, in batches of 100 with a shorter last one; the total is 0 when nothing is written to, the number of entries when every push succeeds, and not a number otherwise |
| LogsProcessor.LogsProcessorService.GetFeeBurned | src/services/crons/logs.processor.service.ts:112-134 | both scans from an empty map, then written; the map is the one of the logs without the burns of other tokens, and counts every transaction once exactly where those in both scans burn nothing |
| LogsProcessor.WrittenIsBurned | src/services/crons/logs.processor.service.ts:112-316 | the written values add up to all MEX burned, each timestamp at most once with exactly its burns; the total is the map size when every push succeeds |
| LogsProcessor.CountedOnceIff | src/services/crons/logs.processor.service.ts:112-152 | for scans without repeats, the map holds at a timestamp the burns of the distinct transactions if and only if every transaction at it that both scans return burns no MEX |
| LogsProcessor.SharedTransactionCountsTwice | src/services/crons/logs.processor.service.ts:112-126 | a concrete transaction with both kinds of swap, which both scans return, is counted twice |
| IngestData.IncludesIffInfix | src/modules/rabbitmq/rabbitmq.consumer.ts:354-357 | a name is recognised if and only if the word occurs in it, at any position |
| IngestData.AdditiveIffSpelled | src/modules/rabbitmq/rabbitmq.consumer.ts:354-357 | a measure is accumulated if and only if "volume" or "fees" stands at some position of its name, letter by letter in either case |
| IngestData.RabbitMqConsumer.UpdateIngestData | src/modules/rabbitmq/rabbitmq.consumer.ts:348-368 | every series and measure of the event is merged: volumes and fees added, others replaced, the rest untouched |
| IngestData.RabbitMqConsumer.ConsumeEvents | src/modules/rabbitmq/rabbitmq.consumer.ts:113-158 | a batch starts empty and merges its events in order |
| IngestData.BatchValues | src/modules/rabbitmq/rabbitmq.consumer.ts:348-368 | after a batch each volume or fees measure is its sum and every other measure its last value, present exactly when some event has it |
| IngestData.OneMoreEvent | src/modules/rabbitmq/rabbitmq.consumer.ts:348-368 | what one more event does to a batch, for every measure: sum, replace or keep |
| IngestData.VolumesAndFeesAreSums | src/modules/rabbitmq/rabbitmq.consumer.ts:354-364 | measures named with "volume", "Volume" or "fees" are their sums after a batch |
| IngestData.OthersAreLatest | src/modules/rabbitmq/rabbitmq.consumer.ts:365-367 | prices, locked values and liquidity are their last values |
| IngestData.HalvesMerge | src/modules/rabbitmq/rabbitmq.consumer.ts:348-368 | merging two half batches gives the whole batch |
| IngestData.OrderDoesNotMatterForSums | src/modules/rabbitmq/rabbitmq.consumer.ts:348-368 | reordering a batch leaves every volume and fee as it was |

## Left out

- The path cache of ten minutes and the freshness of `GraphService.getInstance`, which rebuilds only when the number of pairs changes: routes are stated for a graph of the pairs that price them.
- AutoRouter.MultiSwap: USD prices, price deviation, exchange rates and the EGLD alias are not part of the answer modelled; a tolerance is an exact fraction, not a floating-point number.
- PairUtils.AmountOutBounds: the fee is a whole number of base points; the floating-point product of a fee percentage and the base points is not modelled.
- AutoRouterCompute.GetBestAmountAndIndex: `indexOf` finds a list by reference in the source; the model keeps the position, which is the same because every list is a new array.
- AutoRouterTransactions.SentSwapsOutcome: the pair contracts are not part of this model; a pair is taken to charge what the service's own formulas say, a negative minimum (a tolerance above 1) is kept as a number, a token is not swapped for itself, and the refusal of an answer whose prices deviate too much is left out.
- `singleSwap` and the choice of the swap type: they apply one formula to one pair.
- EnergyCompute.ComputePenaltyPercentageFullUnlock: lock options are a parameter, and percentages and epochs are integers, on which the source's floating-point arithmetic is exact below 2^53.
- Energy.GetPenaltyAmount: the variant that asks the contract (`vmQuery`) and the decoding of token attributes.
- `depleteUserEnergy`: it lowers the amount without moving the last update epoch, so repeating it does not compose.
- PendingExecution.PendingExecutor.Execute: the hash of the request is its key; two requests with one hash are one key, as in the source.
- GuestCaching.GuestCachingMiddleware.Use: the response cache, metrics and expiry of keys; requests with an authorization or no-cache header do not reach the counter.
- LogsProcessor.CountedOnceIff: a log is taken to be the same in both scans when its identifier, timestamp and events are.
- LogsProcessor.LogsProcessorService.GetFeeBurned: the timer, its `isProcessing` guard and the processing interval; exit-farm penalties use the same map and writer.
- IngestData.RabbitMqConsumer.ConsumeEvents: the handlers that turn raw events into measures, and two batches overlapping at an await, which share the `data` field; lower-casing is for ASCII letters.
- Pagination windows, GraphQL wiring, guards, caches and their warmers, contract and database access.
