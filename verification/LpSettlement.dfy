/** What settling an LP's share of the AMM does to a perp position, stage by stage. */
module LpSettlement {
  import opened Bn

  const AMM_RESERVE_PRECISION := 1_000_000_000
  const AMM_RESERVE_PRECISION_EXP := 9
  const FUNDING_RATE_BUFFER_PRECISION := 1_000

  /** The fields of a perp market's AMM that settlement reads. */
  datatype Amm = Amm(
    baseAssetReserve: int,
    minBaseAssetReserve: int,
    maxBaseAssetReserve: int,
    orderStepSize: nat,
    sqrtK: nat,
    cumulativeFundingRateLong: int,
    cumulativeFundingRateShort: int,
    baseAssetAmountPerLp: int,
    quoteAssetAmountPerLp: int,
    perLpBase: int
  )

  datatype Position = Position(
    marketIndex: nat,
    baseAssetAmount: int,
    remainderBaseAssetAmount: SafeInt,
    lastCumulativeFundingRate: int,
    quoteAssetAmount: int,
    quoteEntryAmount: int,
    quoteBreakEvenAmount: int,
    openOrders: nat,
    openBids: int,
    openAsks: int,
    settledPnl: int,
    lpShares: nat,
    lastBaseAssetAmountPerLp: int,
    lastQuoteAssetAmountPerLp: int,
    perLpBase: int
  )

  datatype UpdateType = Open | Increase | Reduce | Close | Flip

  /** Everything settlement works out before it writes the position back. */
  datatype Plan = Plan(
    rebased: Position,
    baseUnit: nat,
    deltaBaa: int,
    deltaQaa: int,
    carriedBase: int,
    carriedRemainder: SafeInt,
    updateType: UpdateType,
    newQuoteEntry: int,
    pnl: int
  )

  datatype Settlement = Settlement(position: Position, remainder: int, pnl: int)

  // ----- stages -----

  /** `new BN(10 ** n)`, refused above 2^53. */
  function PowerOfTen(n: nat): Result<nat> {
    if IsSafe(Pow10(n)) then Success(Pow10(n)) else Failure(UnsafeNumber)
  }

  /** The position with its last per-LP amounts restated in the market's exponent. */
  function Rebase(amm: Amm, p: Position): Result<Position> {
    if amm.perLpBase == p.perLpBase then
      Success(p)
    else
      var expoDiff := amm.perLpBase - p.perLpBase;
      var scalar :- PowerOfTen(Abs(expoDiff));
      Pow10Positive(Abs(expoDiff));
      if expoDiff > 0 then
        Success(p.(lastBaseAssetAmountPerLp := p.lastBaseAssetAmountPerLp * scalar,
                   lastQuoteAssetAmountPerLp := p.lastQuoteAssetAmountPerLp * scalar,
                   perLpBase := p.perLpBase + expoDiff))
      else
        Success(p.(lastBaseAssetAmountPerLp := Div(p.lastBaseAssetAmountPerLp, scalar),
                   lastQuoteAssetAmountPerLp := Div(p.lastQuoteAssetAmountPerLp, scalar),
                   perLpBase := p.perLpBase + expoDiff))
  }

  /** Reserve units per LP share unit, for the exponents of the market and the rebased position. */
  function BaseUnit(marketBase: int, positionBase: int): Result<nat> {
    if marketBase == positionBase then
      if 0 <= positionBase <= AMM_RESERVE_PRECISION_EXP then
        var scalar :- PowerOfTen(marketBase);
        Success(AMM_RESERVE_PRECISION * scalar)
      else if -AMM_RESERVE_PRECISION_EXP <= positionBase < 0 then
        var scalar :- PowerOfTen(Abs(marketBase));
        Success(Quot(AMM_RESERVE_PRECISION, scalar))
      else
        Failure(CannotCalc)
    else
      Failure(BaseMismatch)
  }

  /** An LP's truncated share of what the AMM accrued per LP unit since the last settlement. */
  function LpShare(perLp: int, lastPerLp: int, nShares: nat, baseUnit: nat): int
    requires 0 < baseUnit
  {
    Div((perLp - lastPerLp) * nShares, baseUnit)
  }

  function StepRemainder(amount: int, step: nat): int
    requires 0 < step
  {
    if Sign(amount) < 0 then 0 - Rem(Abs(amount), step) else Rem(Abs(amount), step)
  }

  function Standardize(amount: int, step: nat): int
    requires 0 < step
  {
    amount - StepRemainder(amount, step)
  }

  /** Fold the delta's remainder into the position's, and whole steps of it into the base. */
  function CarryRemainder(base: int, remainder: SafeInt, remainderBaa: int, step: nat): Result<(int, SafeInt)>
    requires 0 < step
  {
    var added :- ToNumber(remainderBaa);
    var limit :- ToNumber(step);
    if Abs(remainder + added) > limit then
      var total :- ToNumber(remainder + added);
      var left :- ToNumber(StepRemainder(total, step));
      Success((base + Standardize(total, step), left))
    else
      Success((base, remainder + added))
  }

  function GetUpdateType(base: int, delta: int): UpdateType {
    if base == 0 then Open
    else if Sign(base) == Sign(delta) then Increase
    else if Abs(base) > Abs(delta) then Reduce
    else if Abs(base) == Abs(delta) then Close
    else Flip
  }

  /** The new quote entry and the pnl realised, by kind of update. */
  function EntryAndPnl(base: int, delta: int, quoteEntry: int, deltaQaa: int): (int, int) {
    var updateType := GetUpdateType(base, delta);
    if updateType == Open || updateType == Increase then
      (quoteEntry + deltaQaa, 0)
    else if updateType == Reduce || updateType == Close then
      var newQuoteEntry := quoteEntry - Div(quoteEntry * Abs(delta), Abs(base));
      (newQuoteEntry, quoteEntry - newQuoteEntry + deltaQaa)
    else
      var newQuoteEntry := deltaQaa - Div(deltaQaa * Abs(base), Abs(delta));
      (newQuoteEntry, quoteEntry + (deltaQaa - newQuoteEntry))
  }

  /** The plan for given deltas: carry the remainder, pick the update type, split the quote. */
  function PlanDeltas(step: nat, p: Position, rebased: Position, baseUnit: nat, deltaBaa: int, deltaQaa: int)
    : Result<Plan>
    requires step != 0
  {
    var (carriedBase, carriedRemainder) :-
      CarryRemainder(p.baseAssetAmount, p.remainderBaseAssetAmount, StepRemainder(deltaBaa, step), step);
    var (newQuoteEntry, pnl) := EntryAndPnl(carriedBase, deltaBaa, p.quoteEntryAmount, deltaQaa);
    Success(Plan(rebased, baseUnit, deltaBaa, deltaQaa, carriedBase, carriedRemainder,
                 GetUpdateType(carriedBase, deltaBaa), newQuoteEntry, pnl))
  }

  function PlanSettlement(amm: Amm, p: Position): Result<Plan> {
    var rebased :- Rebase(amm, p);
    var baseUnit :- BaseUnit(amm.perLpBase, rebased.perLpBase);
    if baseUnit == 0 || amm.orderStepSize == 0 then
      Failure(DivisionByZero)
    else
      var deltaBaa := LpShare(amm.baseAssetAmountPerLp, rebased.lastBaseAssetAmountPerLp, p.lpShares, baseUnit);
      var deltaQaa := LpShare(amm.quoteAssetAmountPerLp, rebased.lastQuoteAssetAmountPerLp, p.lpShares, baseUnit);
      PlanDeltas(amm.orderStepSize, p, rebased, baseUnit, deltaBaa, deltaQaa)
  }

  function UnsettledFundingPnl(amm: Amm, p: Position): int {
    if p.baseAssetAmount == 0 then 0
    else
      var rate := if p.baseAssetAmount > 0 then amm.cumulativeFundingRateLong else amm.cumulativeFundingRateShort;
      -Div(Div((rate - p.lastCumulativeFundingRate) * p.baseAssetAmount, AMM_RESERVE_PRECISION),
           FUNDING_RATE_BUFFER_PRECISION)
  }

  /** The position has been paid all funding up to the market's current rate. */
  predicate FundingSettled(amm: Amm, p: Position) {
    && (p.baseAssetAmount > 0 ==> p.lastCumulativeFundingRate == amm.cumulativeFundingRateLong)
    && (p.baseAssetAmount < 0 ==> p.lastCumulativeFundingRate == amm.cumulativeFundingRateShort)
  }

  /** What burning the shares charges for the base amount left below the step size. */
  function DustValue(burnLpShares: bool, remainder: int, oraclePrice: int): int {
    if burnLpShares && remainder != 0
    then Div(Abs(remainder) * oraclePrice, AMM_RESERVE_PRECISION) + 1
    else 0
  }

  /** What a side has open over its reserve distance: all of it, from twice the step on. */
  function OpenSide(distance: int, step: nat): nat {
    if distance > 0 && distance >= 2 * step then distance else 0
  }

  /** The bids and the asks, counted negative, that the AMM still has open. */
  function MarketOpenBidAsk(amm: Amm): (r: (nat, int))
    ensures r.0 == OpenSide(amm.maxBaseAssetReserve - amm.baseAssetReserve, amm.orderStepSize)
    ensures r.1 == 0 - OpenSide(amm.baseAssetReserve - amm.minBaseAssetReserve, amm.orderStepSize)
  {
    var openAsks := if amm.minBaseAssetReserve < amm.baseAssetReserve
                    then (amm.baseAssetReserve - amm.minBaseAssetReserve) * -1 else 0;
    var openBids := if amm.maxBaseAssetReserve > amm.baseAssetReserve
                    then amm.maxBaseAssetReserve - amm.baseAssetReserve else 0;
    (if openBids / 2 < amm.orderStepSize then 0 else openBids,
     if Abs(openAsks) / 2 < amm.orderStepSize then 0 else openAsks)
  }

  function FundingRateFor(amm: Amm, base: int): int {
    if base > 0 then amm.cumulativeFundingRateLong
    else if base < 0 then amm.cumulativeFundingRateShort
    else 0
  }

  /** The position after taking in a standardized delta, its quote and the LP's open orders. */
  function TakeDelta(amm: Amm, p: Position, standardizedBaa: int, newQuoteEntry: int, quoteMove: int): Position
    requires amm.sqrtK != 0
  {
    var (openBids, openAsks) := MarketOpenBidAsk(amm);
    var base := p.baseAssetAmount + standardizedBaa;
    p.(baseAssetAmount := base,
       quoteEntryAmount := newQuoteEntry,
       quoteAssetAmount := p.quoteAssetAmount + quoteMove,
       quoteBreakEvenAmount := p.quoteBreakEvenAmount + quoteMove,
       openBids := Div(openBids * p.lpShares, amm.sqrtK) + p.openBids,
       openAsks := Div(openAsks * p.lpShares, amm.sqrtK) + p.openAsks,
       lastCumulativeFundingRate := FundingRateFor(amm, base))
  }

  function FoldRemainder(p: Position, includeRemainder: bool): Position {
    if includeRemainder
    then p.(baseAssetAmount := p.baseAssetAmount + p.remainderBaseAssetAmount, remainderBaseAssetAmount := 0)
    else p
  }

  /** Write a plan back: the settled position, the remainder it was left with, the pnl realised. */
  function Finish(amm: Amm, oraclePrice: int, p: Position, plan: Plan, burnLpShares: bool, includeRemainder: bool)
    : Settlement
    requires amm.orderStepSize != 0 && amm.sqrtK != 0
  {
    var dust := DustValue(burnLpShares, plan.carriedRemainder, oraclePrice);
    var quoteMove := plan.deltaQaa + UnsettledFundingPnl(amm, p) - dust;
    var carried := plan.rebased.(baseAssetAmount := plan.carriedBase,
                                 remainderBaseAssetAmount := plan.carriedRemainder);
    var taken := TakeDelta(amm, carried, Standardize(plan.deltaBaa, amm.orderStepSize), plan.newQuoteEntry, quoteMove);
    Settlement(FoldRemainder(taken, includeRemainder), plan.carriedRemainder, plan.pnl)
  }

  function Settle(amm: Amm, oraclePrice: int, p: Position, burnLpShares: bool, includeRemainder: bool)
    : Result<Settlement>
  {
    if p.lpShares == 0 then
      Success(Settlement(p, 0, 0))
    else
      var plan :- PlanSettlement(amm, p);
      if amm.orderStepSize == 0 || amm.sqrtK == 0 then
        Failure(DivisionByZero)
      else
        Success(Finish(amm, oraclePrice, p, plan, burnLpShares, includeRemainder))
  }

  lemma Pow10Positive(n: nat)
    ensures Pow10(n) > 0
  {
  }
}
