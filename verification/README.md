# Drift account risk and LP settlement, verified

A Dafny model of the part of Drift's SDK that decides what an account is worth, what it may trade and when
it is liquidated, with proofs about it. `dafny verify dfyconfig.toml` checks everything.

The SDK computes on big integers whose division truncates toward zero, so signed amounts, sub-step remainders
and price quotients are all rounded. Most results here say what that rounding cannot break: base and quote are
conserved, an update is of the type it was given, a search ends, a liquidation price is the last safe tick, a
buffer never helps the account.

## Files

| file | what it models |
|---|---|
| `Bn.dfy` | signed integers with truncating division, safe numbers, errors |
| `LpSettlement.dfy`, `LpSettlementTheorems.dfy` | LP settlement stage by stage, and what each settlement keeps |
| `PerpPosition.dfy` | the mutable position and settlement by assignment to a clone, equal to the stages above |
| `SettlementCharges.dfy` | the funding and dust a settlement books, in terms of rates, base and price |
| `LpRebase.dfy`, `LpRepeat.dfy`, `LpOpenOrders.dfy` | changing the per-LP exponent, settling twice, LP bids and asks |
| `ProgramSettlement.dfy` | the on-chain program's own settlement, and where the SDK's simulation agrees with it |
| `SwapSearch.dfy`, `TradeSize.dfy` | the bisection for the largest swap and the 99/100 loop for the largest trade |
| `StartingTrade.dfy` | how good the size is that the 99/100 loop starts from |
| `PerpMargin.dfy`, `SpotValue.dfy` | margin ratios, weights and values those rest on |
| `MarginValues.dfy`, `WorstCase.dfy` | what these values are as products and quotients, and that the worst outcome of open orders is the worst |
| `SpotAccount.dfy`, `SpotMarketSums.dfy` | the spot valuation loop, its decomposition, and market-by-market calls |
| `AccountMargin.dfy`, `LiquidationHysteresis.dfy` | margin requirement, collateral, liquidation, health |
| `LiquidationPrice.dfy`, `LiquidationMargin.dfy`, `SpotLegMargin.dfy` | the liquidation price, and the margin state recomputed at it, without and with a spot balance priced by the same oracle |
| `Leverage.dfy` | leverage around a spot trade |
| `OrderBook.dfy`, `UserRegister.dfy`, `IdAllocator.dfy` | the raw order-book scan, the slot-guarded register, record ids |

Functions say what a computation is; methods with loops or field updates are proved equal to them or to a stated
property; lemmas are the results. The accrued deltas of a settlement have a closed form (`BaseDelta`, `QuoteDelta`),
and `CanSettle` says when a settlement succeeds at all.

## Where the code differs from what one would expect

Each of these is a lemma that gives the exact condition, or a concrete input.

- `sdk/README.md:75` says division floors; it truncates toward zero. A liquidation price is therefore one tick too
  generous for an account short of free collateral, unless the quotient is whole (`LiquidationPriceTight`); buying dear
  with no collateral is such an account (`ShortAccountOvershoots`).
- A position whose per-LP exponent is 16 or more from the market's cannot be settled: `new BN(10 ** 16)` is above
  2^53 and throws. The throw for unequal exponents after the rebase is unreachable (`SettleSucceedsIff`).
- The SDK carries a remainder only above one step, the program from one step on (`SdkPredictsProgram`). The program's
  read-only simulation fixes the base before the carry (`SimulationMissesCarry`).
- The SDK splits the quote between entry and pnl on the carried base, the program on base and remainder together. The
  base amounts on which they cannot differ are exactly those in `SplitsCoincide` (`SplitsCoincideIff`); a settlement on
  which they do is `EntryWithRemainderDiffers`. Without a base delta the SDK, whose sign counts zero as positive, books
  the quote of a long as entry (`NoBaseMoveDependsOnSide`); the program always books it as pnl.
- An update that leaves no base can leave a quote entry: an open below the step books one, and so does a flip by less
  than a step (`SettledEmptyKeepsNoEntryIff`, and two settlements in `EmptyBaseWithEntry`).
- A remainder folded into an empty base starts at a funding rate of zero and owes all funding since
  (`AlignedSettlementOwesNoFunding`, and a settlement in `FoldedRemainderOwesFunding`).
- A settled position keeps its shares and last per-LP amounts, so settling it again takes in the whole delta again
  (`EveryTimeTheDelta`).
- A swap search that runs out of iterations before it has closed its bracket returns the next midpoint with the out
  amount of the point tried before it. Every search returns a swap exactly when 2^(limit + 1) is at least the first
  bracket (`PairIsSwapIff`), which at the default limit of 1000 no real amount exceeds; a limit of zero and a bracket of
  8 is a search that does not (`ShortSearchMispairs`).
- The per-market spot calls do not add up to the unfiltered one when there are open orders. With orders included every
  call charges the margin of all of them; without, the quote market's call counts them anyway
  (`CallsRepeatOrderMargin`, `CallsAddUpIff`, and one position in `CallsDoNotAddUpForOrder`).
- A liquidation buffer lowers the margin of a liability that is negative in quote, as a prediction market's short is
  when its oracle reads above the maximum price (`LiabilityRisesIff`). An account of that kind can be liquidated until
  its liquidation begins (`HysteresisFails`); at prices in range none can (`InRangeHysteresis`).
- The second leverage function compares the direction by object identity, so an equal object that is not one of the two
  shared ones is charged on both sides (`GetAccountLeverageAfterSpotTrade`).
- The minimum scan of the order book starts over at a leaf of price zero (`FindMinExactIff`).
- A strict valuation can credit a sale in progress with more than either outcome of it: it weighs the tokens at the
  lower and the proceeds at the higher of oracle and twap to pick the worse outcome, and then credits the proceeds alone
  (`StrictSaleIsOvercredited`). With one price, or without tokens held and offered, it does not (`CreditWithinOutcomes`).
- The size the search for a trade starts from adds what closes an opposite position but not the margin closing frees, so
  a trade against a position can be larger than what is returned (`FlipStartIsAffordable`, and 700 instead of 600 in
  `FlipStartFallsShort`); one along the position cannot, but for rounding (`NoLargerTrade`). A sale in a prediction
  market is started at the oracle price though its margin is on the rest of one (`PredictionStartFallsShort`).
- `liquidationPrice` takes the entry's effect at maintenance margin whatever category it was asked for
  (`GetLiquidationPrice`).

## Model

| member | source | states |
|---|---|---|
| LpSettlementTheorems.SettleSucceedsIff | sdk/src/user.ts:478-522 | an LP settlement succeeds exactly when the market's exponent is in -9..9 and within 15 of the position's, step and pool size are nonzero, and step and combined remainder are safe numbers; the throw for unequal exponents never fires |
| LpSettlementTheorems.BaseUnitIsPowerOfTen | sdk/src/user.ts:503-522 | the base unit is 10^(9 + exponent) for every exponent in -9..9 and the calculation is refused for every other |
| LpSettlementTheorems.RebaseSucceedsIff | sdk/src/user.ts:478-496 | the rebase restates both last per-LP amounts by the power of ten between the exponents and changes nothing else, or throws when they are more than fifteen apart |
| LpSettlementTheorems.PlanInClosedForm | sdk/src/user.ts:478-531 | which error comes first, and that the deltas otherwise are the closed form over the original position |
| LpSettlementTheorems.StandardizeTruncates | sdk/src/user.ts:537-541 | standardizing leaves a multiple of the step, drops less than a step and never crosses zero |
| LpSettlementTheorems.StandardizeIsNearest | sdk/src/user.ts:537-541 | no multiple of the step lies between the standardized amount and the amount |
| LpSettlementTheorems.CarryConserves | sdk/src/user.ts:543-561 | carrying a remainder keeps base plus remainder, leaves at most one step and keeps an aligned base aligned |
| LpSettlementTheorems.SettleConservesBase | sdk/src/user.ts:524-561 | for every combination of flags base plus remainder grows by exactly the LP delta; the remainder is at most one step; an aligned base stays aligned until the remainder is folded in |
| LpSettlementTheorems.UpdateTypeAgrees | sdk/src/user.ts:574-606 | the type picked from the unrounded delta describes the rounded move of an aligned base; a flip ends at zero exactly when it overshoots by less than a step |
| LpSettlementTheorems.SettleMovesAsTyped | sdk/src/user.ts:533-606 | the same of the whole settlement, before the remainder is folded in, and a close leaves no quote entry |
| LpSettlementTheorems.EntryConserved | sdk/src/user.ts:587-605 | new entry plus pnl is old entry plus quote delta for all five types; reducing never grows the entry or flips its sign, a flip's entry is part of the quote delta |
| LpSettlementTheorems.SettleConservesQuote | sdk/src/user.ts:587-614 | the same of the whole settlement, bounds by update type included, and quote and break-even amounts move together by delta, funding and dust |
| SettlementCharges.UnsettledFundingFits | sdk/src/math/position.ts:199-222 | longs pay and shorts are paid when the rate of their side rises: the exact amount of base times rate move, cut once to whole units toward zero |
| SettlementCharges.DustValueFits | sdk/src/user.ts:563-572 | burning charges the remainder's value at the price rounded up to the next whole unit, and nothing without burning or remainder |
| SettlementCharges.SettleBooksFundingAndDust | sdk/src/user.ts:501-614 | quote and break-even amounts both move by the quote delta, that funding and less that dust |
| LpSettlementTheorems.SettledOwesNoFunding | sdk/src/user.ts:632-649 | with the remainder folded in or not, a settled position owes no funding exactly when the rates of its base before and after folding, over the base, differ by less than one unit of quote |
| LpSettlementTheorems.AlignedSettlementOwesNoFunding | sdk/src/user.ts:632-649 | for an aligned base: exactly when nothing is folded in, or into a base that is not empty, or too little to be charged a unit at the whole rate of its side |
| LpSettlementTheorems.FundingIsZeroIff | sdk/src/math/position.ts:199-222 | a position has no unsettled funding exactly when the rate it missed, over its base, is below one unit of quote |
| LpSettlementTheorems.SettledFundingIsZero | sdk/src/math/position.ts:199-222 | a position paid up to the market's rate for its side has no unsettled funding |
| LpSettlementTheorems.FoldedRemainderOwesFunding | sdk/src/user.ts:632-649 | a settlement that folds a remainder of 5 into an empty base and then owes 5 of funding |
| LpSettlementTheorems.EmptyBaseKeepsNoEntryIff | sdk/src/user.ts:587-606 | an update that leaves an aligned base empty leaves no quote entry exactly if it closes, or opens with nothing to book, or flips without quote |
| LpSettlementTheorems.SettledEmptyKeepsNoEntryIff | sdk/src/user.ts:574-606 | the same of the whole settlement, for every combination of flags |
| LpSettlementTheorems.EmptyBaseWithEntry | sdk/src/user.ts:587-606 | two settlements that end with an empty base and a quote entry: an open below the step and a flip by less than one |
| LpSettlementTheorems.NoBaseMoveDependsOnSide | sdk/src/user.ts:533-604 | without a base delta the quote delta becomes entry on a base that is not negative and pnl on a negative one |
| LpSettlement.MarketOpenBidAsk | sdk/src/math/amm.ts:330-360 | each side is open over its whole reserve distance, asks counted negative, if that is at least twice the step, and closed otherwise |
| PerpPositionObject.PerpPosition.Clone | sdk/src/user.ts:315-318 | a clone has the fields of the original |
| PerpPositionObject.PerpPosition.RebaseTo | sdk/src/user.ts:478-496 | the position is rebased in place or the error is reported |
| PerpPositionObject.PerpPosition.AddRemainder | sdk/src/user.ts:548-561 | the remainder is added and whole steps of it moved into the base, or the error is reported |
| PerpPositionObject.PerpPosition.SplitQuote | sdk/src/user.ts:587-604 | the entry and pnl of the update type, which together are the old entry and the quote delta |
| PerpPositionObject.PerpPosition.ApplyPlan | sdk/src/user.ts:478-604 | the position is rebased and carried as planned, and the deltas and quote split are the plan's |
| PerpPositionObject.PerpPosition.AddLpOrders | sdk/src/user.ts:616-630 | the LP's truncated share of the market's bids and asks is added to the position's |
| PerpPositionObject.PerpPosition.MarkFundingSettled | sdk/src/user.ts:632-640 | the position takes the funding rate of its side, or zero |
| PerpPositionObject.PerpPosition.Take | sdk/src/user.ts:605-640 | the position takes in the standardized delta, the quote move, the LP's open orders and the funding rate of its new side |
| PerpPositionObject.GetPerpPositionWithLpSettle | sdk/src/user.ts:460-652 | the assignments end in the settlement the theorems are about, on a fresh object unless there are no shares; the caller's position is unchanged |
| LpRebase.RebaseInvariance | sdk/src/user.ts:478-531 | raising the market's exponent by k and its accumulators by 10^k changes nothing a settlement computes except the stored exponent and last per-LP amounts; it is refused exactly when the exponents come to lie more than fifteen apart |
| LpRebase.DeltasInvariant | sdk/src/user.ts:524-531 | both deltas are the same numbers after such a restatement |
| LpRebase.RebaseDownError | sdk/src/user.ts:488-531 | rebasing a position down moves each delta less than lpShares / baseUnit + 1 from the exact rational share |
| LpRepeat.DeltasRemain | sdk/src/user.ts:475-531 | the settled position would accrue the same deltas again |
| LpRepeat.EveryTimeTheDelta | sdk/src/user.ts:475-652 | after n settlements of the result before, base plus remainder has grown by n deltas |
| LpOpenOrders.SettledOpenOrdersMatch | sdk/src/user.ts:414-452 | settling leaves exactly the open bids and asks reported without settling, shares or none |
| LpOpenOrders.BidAsksAreShares | sdk/src/user.ts:431-452 | the reported bids and asks are one holding's truncated share of either side, the position's own without an argument |
| LpOpenOrders.SharesBelowWhole | sdk/src/user.ts:448-449 | the truncated parts of any list of holdings sum to at most the truncated part of their sum |
| LpOpenOrders.OpenOrdersNeverOversubscribed | sdk/src/user.ts:441-449 | holdings that sum to at most the pool never claim more bids or asks than the market has open |
| ProgramSettlement.SdkPredictsProgram | programs/drift/src/controller/lp.rs:156-194 | where both settle, base plus remainder and the quote amount agree exactly; base and remainder agree one by one exactly unless the combined remainder is one step, or nothing accrued on a remainder above a step |
| ProgramSettlement.SplitsCoincideIff | programs/drift/src/controller/position.rs:117-184 | on given base amounts SDK and program split every entry and quote alike exactly if the carried base is base plus remainder, or both grow; without a delta exactly on a negative base |
| ProgramSettlement.SdkPredictsEntry | programs/drift/src/controller/position.rs:95-184 | where both settle, with or without a remainder, entry and pnl agree exactly when the two splits do, and always on such base amounts; without a remainder, unless quote but no base accrued on a base that is not short |
| ProgramSettlement.EntryWithRemainderDiffers | programs/drift/src/controller/position.rs:129-157 | a settlement by both, of a position with a remainder, that ends in a pnl of -10 and of 10 |
| ProgramSettlement.UpdateFields | programs/drift/src/math/position.rs:209-266 | what a program update leaves in quote amount, base and remainder |
| ProgramSettlement.UpdateEntry | programs/drift/src/controller/position.rs:117-184 | the program's split of the quote for every base, remainder and delta: the SDK's on base plus remainder, a flip from nothing where they cancel, all pnl without a delta; the break-even amount is split alike |
| ProgramSettlement.UpdateSettlesIff | programs/drift/src/controller/position.rs:95-399 | an update settles exactly when it takes in nothing, or the position is paid up and aligned and its new remainder fits; a division by zero cannot occur |
| ProgramSettlement.ProgramSettlesIff | programs/drift/src/controller/lp.rs:156-194 | the same of the program's whole LP settlement |
| ProgramSettlement.CarriesAgree | programs/drift/src/math/position.rs:222-250 | carrying before or after the delta is added keeps the same total, and the same base exactly away from one whole step |
| ProgramSettlement.UnitsAgree | programs/drift/src/state/perp_market.rs:1241-1249 | the program's base unit is the SDK's for every accepted exponent |
| ProgramSettlement.SimulationMissesCarry | programs/drift/src/state/user.rs:1019-1088 | the program's simulation reports the settled base exactly when the combined remainder stays below a step |
| SwapSearch.Bisect | sdk/src/user.ts:2970-3024 | the loop ends where the specified search does: the bracket, the meaning of the returned pair, the width after n narrowings, the number of bodies on either exit, a swap on every exit once 2^(limit + 1) covers the first bracket, and convergence within k bodies for every k up to limit + 2 with 2^k at least the first bracket, if free collateral falls by at most error + 1 a unit |
| SwapSearch.SearchMeans | sdk/src/user.ts:2970-3024 | the same of the specified search |
| SwapSearch.PairIsSwapIff | sdk/src/user.ts:3011-3022 | every search ends with a swap exactly when 2^(limit + 1) is at least the first bracket |
| SwapSearch.ShortSearchMispairs | sdk/src/user.ts:3011-3022 | a search with a limit of zero that pairs 5 with the out amount of 6 |
| SwapSearch.BodyKeepsState | sdk/src/user.ts:2980-3023 | one body keeps the bracket, its width bound and the meaning of the pair |
| SwapSearch.ConvergesInTime | sdk/src/user.ts:2978-3023 | a search that spends all its bodies on such a fall would have run out of bracket |
| SwapSearch.NarrowedByMeansCeil | sdk/src/user.ts:3011-3017 | the width bound is the ceiling of the first width over 2^n |
| SwapSearch.BracketStaysOpen | sdk/src/user.ts:3011-3017 | under such a fall the two ends are at least two units apart |
| SwapSearch.SteeperFallStepsOver | sdk/src/user.ts:2980-3023 | a fall of error + 2 can step over the tolerance so that no search converges |
| SwapSearch.GetMaxSwapAmount | sdk/src/user.ts:2887-3024 | nothing or a whole deposit below a cent of free collateral; otherwise the search with a ten-thousandth as tolerance, over the given swap or the one at oracle prices, in the least bracket that reaches ten times the position and past a hundred times the free collateral's worth; an error exactly for too many decimals, a zero in price, or a zero out price that the default swap divides by |
| SwapSearch.InitialMaxIsLeast | sdk/src/user.ts:2971-2974 | the first bracket is that least one |
| SwapSearch.OracleSwapKeepsValue | sdk/src/user.ts:2930-2938 | the default swap gives the most out tokens worth no more than the in tokens |
| SwapSearch.DefaultSwapKeepsValue | sdk/src/user.ts:2887-2938 | so does the swap a query without one of its own is searched over, each token in its market's decimals |
| TradeSize.NoTradeNoEffect | sdk/src/user.ts:2358-2443 | a trade of size zero has exactly no effect on free collateral |
| TradeSize.ShrinkToAffordable | sdk/src/user.ts:2744-2764 | the loop ends, at the first member of the 99/100 sequence whose added margin free collateral covers |
| TradeSize.GetMaxTradeSizeUsdcForPerp | sdk/src/user.ts:2622-2767 | the loop from a size that each of the four starting cases gives as a product bound on collateral, ratio and position, and the part of it that closes; an error exactly for a zero margin ratio or price |
| TradeSize.StartingSizeMeans | sdk/src/user.ts:2655-2720 | the start is the largest size whose margin the collateral covers, on top of the worth of an opposite position; without collateral it only reduces, by what closing leaves; it fails exactly for the margin ratio it divides by being zero |
| TradeSize.UnaffordableStaysSo | sdk/src/user.ts:2727-2764 | once a size is not affordable no larger one is, on either side of the account, at a price in range |
| TradeSize.ShrinkLosesOnePercent | sdk/src/user.ts:2744-2766 | the size the loop ends at is at least 99% of every affordable size up to the start |
| StartingTrade.AffordableIsBounded | sdk/src/user.ts:2722-2764 | without open orders and premium for size an affordable trade's part beyond closing has its margin in free collateral and what closing frees, but for a stated rounding |
| StartingTrade.NoLargerTrade | sdk/src/user.ts:2670-2679 | along the position no affordable trade exceeds the start by more than a stated rounding |
| StartingTrade.FlipIsAffordable | sdk/src/user.ts:2722-2764 | against the position every trade is affordable whose part beyond closing has its margin in free collateral and what closing frees |
| StartingTrade.FlipStartIsAffordable | sdk/src/user.ts:2675-2679 | so the start against a position is affordable, and so is every size up to the freed margin's worth further |
| StartingTrade.FlipStartFallsShort | sdk/src/user.ts:2675-2679 | an account whose search starts from 600 and that can afford 700 |
| StartingTrade.PredictionStartFallsShort | sdk/src/user.ts:2727-2742 | a sale in a prediction market whose search starts from 10 and that can afford 45 |
| PerpMargin.SquareRootIsFloor | sdk/src/math/utils.ts:7-23 | the recursive square root is the floor of the root |
| PerpMargin.MarginRatioMono | sdk/src/math/market.ts:129-178 | a larger position never has a lower margin ratio |
| PerpMargin.LiabilityMono | sdk/src/math/margin.ts:193-210 | at a price in range a liability is not negative and grows away from zero on each side, in prediction markets too |
| PerpMargin.PositionMarginMono | sdk/src/user.ts:2397-2427 | so does the margin a position consumes |
| MarginValues.LiabilityIsValue | sdk/src/math/margin.ts:193-210 | a liability is the base at the price it can still lose, cut to whole units |
| MarginValues.PredictionSidesAddUp | sdk/src/math/margin.ts:198-206 | the two sides of a prediction market put up one unit for each unit of base between them |
| MarginValues.MarginRatioIsLeast | sdk/src/math/market.ts:129-178 | the ratio is the least no less than the market's for the mode, four fifths of it with the premium for size, and for initial margin the user's |
| MarginValues.EntryEffectIs | sdk/src/user.ts:2358-2443 | at maintenance a trade gains or loses its base at the difference of entry and oracle price, pays the fee, and is charged the margin it adds |
| WorstCase.PerpOutcomeIsWorst | sdk/src/math/margin.ts:160-191 | the base charged is that of filling all bids or all asks, and its liability no less than either's |
| LiquidationPrice.GetLiquidationPrice | sdk/src/user.ts:2233-2356 | the price is the truncated one of the combined perp and spot deltas, or none; an error exactly for a zero step |
| LiquidationPrice.LiquidationPriceTight | sdk/src/user.ts:2345-2355 | a returned price is the last integer price with free collateral left exactly when free collateral is not negative or the quotient is whole |
| LiquidationPrice.ShortAccountOvershoots | sdk/src/user.ts:2370-2395 | an account without collateral that buys at twice the oracle price is given a price past its last safe one |
| LiquidationPrice.NoPriceMeansAlwaysSafe | sdk/src/user.ts:2341-2353 | an account that gains with the price and is not short gets no price exactly when every price down to one tick below zero is safe |
| LiquidationPrice.LargerOffsetIsSafer | sdk/src/user.ts:2254-2356 | a larger offset never moves the price the unsafe way, no price included |
| LiquidationPrice.DeltaSign | sdk/src/user.ts:2445-2512 | with open orders or without: a short never gains with the price, a long gains as far as its part that is not margin outweighs the margin of the orders, a prediction position leaves only its orders |
| MarginValues.PerpDeltaIs | sdk/src/user.ts:2445-2512 | the perp's delta is its signed size less the margin on it and on the orders beyond it, each cut to whole units; a prediction position's is its orders' side alone |
| LiquidationPrice.SpotDeltaFits | sdk/src/user.ts:2514-2546 | a deposit gains with the price by its tokens at its asset weight and a borrow loses by its tokens at its liability weight, cut to whole units |
| LiquidationPrice.SpotLegAdds | sdk/src/user.ts:2302-2339 | a spot balance with the same oracle adds its delta times the multiple to the perp's |
| LiquidationPrice.StandardizedAlike | sdk/src/math/orders.ts:124-130 | the size change is standardized as a settlement's delta is |
| LiquidationMargin.QueryOfPlain | sdk/src/user.ts:2254-2296 | for one perp position outside a prediction market the free collateral and delta the price is worked out from are the account's spare collateral and its value less margin per unit of price |
| LiquidationMargin.LinearAtAnyPrice | sdk/src/user.ts:713-724 | the margin state recomputed at any price lies within a stated slack of that linear approximation |
| LiquidationMargin.LiquidationPriceMeansMargin | sdk/src/user.ts:2254-2356 | so at the price returned the account is short by less than the slack, and one tick further has less than the slack to spare |
| SpotLegMargin.QueryWithLeg | sdk/src/user.ts:2302-2339 | with a spot balance of the same oracle the delta is the perp's and the leg's together |
| SpotLegMargin.SpotSpareMoves | sdk/src/user.ts:1064-1253 | repricing that balance moves the spot totals by the change of its weighted value, whatever else is held |
| SpotLegMargin.LinearWithLeg | sdk/src/user.ts:713-724 | the margin state recomputed with perp and balance at any price lies within a stated slack of the linear approximation |
| SpotLegMargin.LiquidationPriceWithLeg | sdk/src/user.ts:2233-2356 | so at the price returned the account is short by less than the slack, and one tick further has less than the slack to spare |
| SpotAccount.AddPosition | sdk/src/user.ts:1076-1242 | one position adds exactly its entry to the running net quote, assets and liabilities |
| SpotAccount.AddPositions | sdk/src/user.ts:1073-1242 | the loop adds the entries of all positions |
| SpotAccount.GetSpotMarketAssetAndLiabilityValue | sdk/src/user.ts:1064-1253 | the loop and the split of the net quote compute the totals the lemmas are about |
| SpotAccount.NetValueDecomposes | sdk/src/user.ts:1344-1352 | over all markets assets less liabilities is the sum of the positions' signed values less the margin for included open orders |
| SpotAccount.TotalsIgnoreOrder | sdk/src/user.ts:1076-1252 | any permutation of the positions gives the same totals, for every filter and flag |
| WorstCase.SpotOutcomeIsWorst | sdk/src/math/spotPosition.ts:31-100 | the outcome chosen is filling all bids or filling all asks, and contributes no more than either, for every position, market, price and category |
| WorstCase.OutcomeIsFill | sdk/src/math/spotPosition.ts:102-184 | an outcome's tokens, orders value and contribution as sums and products of amount, orders, prices and weight |
| WorstCase.CreditWithinOutcomes | sdk/src/user.ts:1187-1237 | a position with open orders is credited no more than filling its bids or its asks contributes, but for rounding, if it is valued at one price or does not both hold and offer tokens |
| WorstCase.TotalsWithinOutcomes | sdk/src/user.ts:1064-1253 | so the totals with orders credit no more than the account has however each market's orders are filled, less the margin for them |
| WorstCase.StrictSaleIsOvercredited | sdk/src/user.ts:1187-1223 | a sale between two prices that contributes 800 or 1000 and is credited with 2000 |
| MarginValues.OrdersQuoteIs | sdk/src/user.ts:1221-1237 | quote from orders counts in full, quote they cost at the user's ratio if that is above one |
| MarginValues.WeightedSpotValues | sdk/src/math/spotBalance.ts:674-753 | the weights an asset is credited and a liability charged at, by category, user's ratio and buffer |
| MarginValues.UnweightedSpotValues | sdk/src/math/spotBalance.ts:674-753 | without a category values carry no weight and no buffer |
| MarginValues.TokensRoundAgainst | sdk/src/math/spotBalance.ts:65-82 | a deposit's tokens are rounded down and a borrow's up |
| MarginValues.StrictValueIsNeverKinder | sdk/src/math/spotBalance.ts:110-151 | a strict value is at most the value at the oracle price and at the twap |
| MarginValues.AssetWeightIs | sdk/src/math/spotBalance.ts:153-194 | an asset's weight for its category, discounted for its size |
| MarginValues.WeightIsDiscounted | sdk/src/math/margin.ts:63-90 | the discounted weight is the lesser of the market's and eleven tenths over one plus the discount |
| MarginValues.ScaledWeightIs | sdk/src/math/spotBalance.ts:196-220 | the initial weight is scaled by the market's deposits once they are worth enough |
| MarginValues.LiabilityWeightIsLeast | sdk/src/math/spotBalance.ts:222-264 | a liability's weight is the least no less than the market's and four fifths of it with the premium for size |
| SpotMarketSums.EntryOfCall | sdk/src/user.ts:1077-1241 | what one position adds in one market's call, against the call for all markets |
| SpotMarketSums.CallsTogether | sdk/src/user.ts:1064-1253 | the per-market calls summed, in terms of the call for all markets, with and without orders |
| SpotMarketSums.CallsRepeatOrderMargin | sdk/src/user.ts:1080-1241 | with orders included they overstate liabilities by the order margin for every call but one, and assets not at all |
| SpotMarketSums.CallsAddUpIff | sdk/src/user.ts:1080-1250 | without orders they add up exactly when the orders are worth the margin charged on them and that is nothing or the net quote stays a liability |
| SpotMarketSums.CallsAddUp | sdk/src/user.ts:1064-1253 | for an account without open orders they add up on both sides |
| SpotMarketSums.CallsDoNotAddUpForOrder | sdk/src/user.ts:1080-1241 | a position with one open order for which they do not, with orders included or not |
| SpotValue.BufferRaisesLiability | sdk/src/math/spotBalance.ts:712-753 | a larger buffer never makes a spot liability smaller in magnitude, for any price and sign |
| LiquidationHysteresis.LiabilityRises | sdk/src/user.ts:1474-1514 | a larger buffer never lowers a position's margin if its quoted liability is not negative or the market is in settlement, and never raises it otherwise |
| LiquidationHysteresis.InRangeIsSound | sdk/src/math/margin.ts:160-210 | at a price in range every liability, open orders included, is not negative |
| LiquidationHysteresis.LiabilityRisesIff | sdk/src/user.ts:1474-1514 | no buffer lowers a position's margin exactly when its quoted liability is not negative or the market is in settlement |
| LiquidationHysteresis.PnlFalls | sdk/src/user.ts:861-907 | a larger buffer never raises a position's weighted pnl |
| LiquidationHysteresis.PerpSumsWorsen | sdk/src/user.ts:1564-1585 | over any perp positions a larger buffer never raises the pnl and changes no error; over ones with liabilities that are not negative it never lowers the margin |
| LiquidationHysteresis.SpotLiabilityRises | sdk/src/user.ts:1125-1250 | over all spot positions the buffer never lowers liabilities, whatever the prices |
| LiquidationHysteresis.BufferNeverHelps | sdk/src/user.ts:713-771 | a larger buffer never raises any account's total collateral, and never lowers the margin requirement of one with liabilities that are not negative |
| LiquidationHysteresis.SoundIffNeverEased | sdk/src/user.ts:729-751 | that condition is the exact one: each position that fails it makes, by itself, an account whose requirement some buffer lowers |
| LiquidationHysteresis.LiquidationHysteresis | sdk/src/user.ts:2053-2076 | an account that can be liquidated still can once its liquidation has begun and the buffer applies, if its liabilities are not negative or the buffer does not lower its requirement |
| LiquidationHysteresis.InRangeHysteresis | sdk/src/user.ts:2053-2076 | the same of every account whose markets' prices are in range |
| LiquidationHysteresis.HysteresisFails | sdk/src/user.ts:2053-2076 | an account that can be liquidated before its liquidation begins and not after |
| AccountMargin.HealthPositiveIff | sdk/src/user.ts:1400-1422 | health lies in 0..100 and is positive exactly with no requirement and collateral that is not negative, or with at least half a percent of collateral to spare |
| MarginValues.HealthIsRounded | sdk/src/user.ts:1410-1419 | health is the spare share of collateral in percent, rounded to the nearest |
| MarginValues.HealthAtTheEnds | sdk/src/user.ts:1405-1419 | health is 100 for an account that needs nothing and 0 for one that has less than it needs |
| AccountMargin.HealthyIsSafe | sdk/src/user.ts:1395-1423 | positive health means the account cannot be liquidated |
| MarginValues.LiquidationIgnoresTwaps | sdk/src/user.ts:2053-2076 | liquidation and health depend on no twap and on no ratio of a leverage mode the account is not in |
| MarginValues.WeightedLiabilityIs | sdk/src/user.ts:1474-1534 | the quoted liability at the ratio, a hundredth of quote for each order and, for an LP, the worth of a step but at least one |
| MarginValues.QuotedLiabilityIs | sdk/src/user.ts:1500-1512 | the charged liability at the quote price, and no less if strict |
| MarginValues.PnlIsValueQuoteAndFunding | sdk/src/math/position.ts:97-127 | unrealized pnl is the position's value at the oracle or expiry price, its quote and the funding it is due |
| MarginValues.StrictPnlIsNeverKinder | sdk/src/user.ts:868-885 | a strict quote counts a gain for no more and a loss for no less |
| MarginValues.WeightedPnlIs | sdk/src/user.ts:887-907 | a gain counts at its weight; a loss in full and by the buffer's share more |
| MarginValues.InactiveIsNothing | sdk/src/user.ts:773-783 | the positions left out for being inactive have no margin and no pnl |
| MarginValues.MarginPositionChargesDust | sdk/src/user.ts:853-859 | margin is computed on an LP's position settled with its dust charged |
| Leverage.SplitMoves | sdk/src/user.ts:1988-2018 | splitting the two new net values into assets and liabilities changes net value by the sum of the moves, for any signs |
| Leverage.GetMaxLeverageForSpot | sdk/src/user.ts:1947-2031 | the divisor is the account's own net asset value, so it is never zero where it divides |
| Leverage.GetAccountLeverageAfterSpotTrade | sdk/src/user.ts:3308-3403 | the trade keeps net asset value exactly when the direction is one of the shared objects or nothing is traded; otherwise it loses twice the amount |
| OrderBook.LeafNode.Serialize | programs/openbook_v2/src/account.rs:251-284 | a leaf serialises to the 88 bytes of a node |
| OrderBook.ScanReadsLeaf | programs/openbook_v2/src/account.rs:179-179 | on a serialised leaf the bytes the scan reads are the leaf's own tag and price |
| OrderBook.ScanSeesOrders | programs/openbook_v2/src/account.rs:177-179 | over serialised leaves the scans see every order's price, in order |
| OrderBook.NewOrderIsSeen | programs/openbook_v2/src/account.rs:288-318 | a new order is a leaf to the scans, with the upper half of its key as price |
| OrderBook.BytesRoundTrip | programs/openbook_v2/src/account.rs:264-265 | little-endian bytes read back as the number that was written |
| OrderBook.FindMin | programs/openbook_v2/src/account.rs:175-189 | the smallest price of the leaves after the last zero price, or none |
| OrderBook.FindMax | programs/openbook_v2/src/account.rs:192-206 | the largest leaf price, or none if there is no positive one |
| OrderBook.FindMinExactIff | programs/openbook_v2/src/account.rs:175-189 | the minimum scan is the true minimum exactly when there are leaves and none has price zero |
| OrderBook.ScansAgree | programs/openbook_v2/src/account.rs:173-207 | with positive prices both scans find something or neither does; a minimum found is never above the maximum |
| UserRegister.BasicUserAccountSubscriber.constructor | sdk/src/accounts/basicUserAccountSubscriber.ts:21-30 | the register starts with the given data and slot, both optional |
| UserRegister.BasicUserAccountSubscriber.UpdateData | sdk/src/accounts/basicUserAccountSubscriber.ts:52-58 | the register takes the update and emits both events exactly when its slot is not behind |
| UserRegister.RunHoldsNewest | sdk/src/accounts/basicUserAccountSubscriber.ts:52-58 | after any run the register holds the last update with the largest slot, or is untouched if every update was behind |
| UserRegister.UpdateAll | sdk/src/accounts/basicUserAccountSubscriber.ts:52-58 | any sequence of calls ends in the run's state and has emitted the run's events |
| UserRegister.EmitsAccepted | sdk/src/accounts/basicUserAccountSubscriber.ts:53-57 | the events of a run are its accepted updates, in order, two events each |
| UserRegister.AcceptedSlotsAscend | sdk/src/accounts/basicUserAccountSubscriber.ts:52-58 | the updates a run accepts, and so emits, never go back to an earlier slot |
| UserRegister.RunIgnoresOrder | sdk/src/accounts/basicUserAccountSubscriber.ts:52-58 | permuted runs end in the same state if the updates of the largest slot agree, as when slots are distinct |
| UserRegister.TiesKeepTheLater | sdk/src/accounts/basicUserAccountSubscriber.ts:53-54 | of two updates for one slot the later stays, so order shows otherwise |
| IdAllocator.Counter.GetThenUpdateId | programs/drift/src/macros.rs:11-17 | the current id is returned and the counter moves to the next, wrapping to one |
| IdAllocator.IssuedClosedForm | programs/drift/src/macros.rs:13-15 | the n-th id from start s is ((s - 1 + n) mod MAX) + 1, for every integer width |
| IdAllocator.IdsInRange | programs/drift/src/macros.rs:13-15 | from a start of at least one no id is zero or beyond the type |
| IdAllocator.ZeroIssuedOnce | programs/drift/src/macros.rs:13-15 | a counter started at zero issues zero exactly once, first |
| IdAllocator.IdsDistinct | programs/drift/src/macros.rs:13-15 | among MAX consecutive ids none repeats, and the one after them is the first again |

## Left out

- Fetching, subscribing, RPC, transactions, event emitters beyond the two events of the register, and the command line.
- The leverage that `getMaxSwapAmount` returns, and the swap and free collateral functions it bisects: they are arbitrary functions of the amounts.
- `getMaxTradeSizeUSDCForSpot`, the spot liquidation price, the perp branch of `accountLeverageRatioAfterTrade` and fuel: variations on what is here.
- Live oracle twaps, the quote oracle's prices and the multiple between oracle sources: they are inputs.
- The initial weight of positive pnl, which depends on the market's net pnl: it is an arbitrary function of the pnl.
- The 2^53 limit on margin ratios and fee numbers converted to JavaScript numbers, outside LP settlement.
- HealthPositiveIff: health is computed on exact rationals, without floating-point rounding.
- HealthyIsSafe: likewise on exact rationals.
- Looking a market's position up again while settling it: positions are taken to be one per market, as the program keeps them.
- The program's integer widths and its market-side totals: results about it speak of settlements that no overflow and no market validation stops.
- LiquidationPriceMeansMargin: one perp position without LP shares or open bids and asks, outside prediction markets, with the quote token at one; for other accounts the linear reading of the price stands (`LiquidationPriceTight`).
- LiquidationPriceWithLeg: likewise, with a spot balance without open orders from the same oracle source; for other sources the leg's delta is given by `SpotDeltaFits` and `SpotLegAdds`.
- NoLargerTrade: accounts without open orders in markets without premium for size and outside prediction markets, where the start is not the largest (`PredictionStartFallsShort`); with a premium the ratio at the start is not the one after the trade.
- CreditWithinOutcomes: with a margin category; without one, credit is unweighted and the outcome is still picked by weight.
- RunIgnoresOrder: needs agreement on the newest slot, because the register is otherwise order-dependent (`TiesKeepTheLater`).
- Zero denominators of fee tiers and of oracle multiples, which no account holds: they are excluded.
- The signed 64-bit fields of an order are given by the unsigned integers that encode them; order expiry is not modelled.
- Slots of the register are integers; the user object it holds is taken to exist, as its constructor sets it.
