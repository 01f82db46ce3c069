/** Total collateral, margin requirement, liquidation and health of an account. */
module AccountMargin {
  import opened Bn
  import opened LpSettlement
  import opened PerpMargin
  import SV = SpotValue
  import opened SpotAccount

  /** A perp position with its market and prices; `initialPnlWeight` is the market's weight of
      positive pnl for initial margin. */
  datatype PerpHolding = PerpHolding(position: Position, market: PerpMarket, oraclePrice: int,
                                     liabilityQuotePrice: int, pnlQuotePrice: int, quoteTwap5Min: int,
                                     initialPnlWeight: int -> int)

  datatype Account = Account(u: Margining, beingLiquidated: bool, perps: seq<PerpHolding>, spots: seq<Holding>,
                             liquidationMarginBufferRatio: nat)

  /** How margin is asked for. */
  datatype Terms = Terms(category: MarginCategory, liquidationBuffer: Option<nat>, includeOpenOrders: bool,
                         strict: bool, enteringHighLeverage: bool)

  predicate IsActive(p: Position) {
    p.baseAssetAmount != 0 || p.quoteAssetAmount != 0 || p.openOrders != 0 || p.lpShares != 0
  }

  /** The position margin is computed on: settled, as if its shares were burned, if it has any. */
  function MarginPosition(h: PerpHolding): Result<Position> {
    if h.position.lpShares == 0 then Success(h.position)
    else
      var s :- Settle(h.market.amm, h.oraclePrice, h.position, true, false);
      Success(s.position)
  }

  function ValuationPrice(h: PerpHolding): int {
    if h.market.inSettlement then h.market.expiryPrice else h.oraclePrice
  }

  // ----- perp liability -----

  /** The liability a position is charged margin on, in quote. */
  function QuotedLiability(h: PerpHolding, p: Position, t: Terms): int {
    var liability := ChargedBase(p, ValuationPrice(h), h.market.isPrediction, t.includeOpenOrders).1;
    var quotePrice := if t.strict then Max(h.liabilityQuotePrice, h.quoteTwap5Min) else h.liabilityQuotePrice;
    Div(liability * quotePrice, PRICE_PRECISION)
  }

  function AppliedMarginRatio(u: Margining, h: PerpHolding, p: Position, t: Terms): nat {
    var base := ChargedBase(p, ValuationPrice(h), h.market.isPrediction, t.includeOpenOrders).0;
    if h.market.inSettlement then 0
    else MarketMarginRatio(h.market, base, t.category, u.maxMarginRatio, u.highLeverageMode || t.enteringHighLeverage)
         + SV.Buffer(t.liquidationBuffer)
  }

  /** Margin for the position's open orders and, for an LP, for one step of base. */
  function OrdersAndLpMargin(h: PerpHolding, p: Position, t: Terms): int {
    if !t.includeOpenOrders then 0
    else
      OpenOrderMargin(p.openOrders)
      + (if p.lpShares > 0
         then Max(QUOTE_PRECISION,
                  Div(Div(ValuationPrice(h) * h.market.amm.orderStepSize * QUOTE_PRECISION, AMM_RESERVE_PRECISION),
                      PRICE_PRECISION))
         else 0)
  }

  function WeightedLiability(u: Margining, h: PerpHolding, p: Position, t: Terms): int {
    Div(QuotedLiability(h, p, t) * AppliedMarginRatio(u, h, p, t), MARGIN_PRECISION) + OrdersAndLpMargin(h, p, t)
  }

  function WeightedPerpPositionLiability(u: Margining, h: PerpHolding, t: Terms): Result<int> {
    var p :- MarginPosition(h);
    Success(WeightedLiability(u, h, p, t))
  }

  // ----- unrealized pnl -----

  function PositionPnl(h: PerpHolding, p: Position): int {
    if p.baseAssetAmount == 0 then p.quoteAssetAmount
    else
      var value := Div(Abs(p.baseAssetAmount) * ValuationPrice(h), AMM_RESERVE_PRECISION);
      (if p.baseAssetAmount < 0 then -value else value) + p.quoteAssetAmount + UnsettledFundingPnl(h.market.amm, p)
  }

  /** Pnl in quote; strictly, a gain at the lower and a loss at the higher quote price. */
  function QuotedPnl(h: PerpHolding, p: Position, strict: bool): int {
    var pnl := PositionPnl(h, p);
    var quotePrice := if strict && pnl > 0 then Min(h.pnlQuotePrice, h.quoteTwap5Min)
                      else if strict && pnl < 0 then Max(h.pnlQuotePrice, h.quoteTwap5Min)
                      else h.pnlQuotePrice;
    Div(pnl * quotePrice, PRICE_PRECISION)
  }

  /** A gain counts at its weight; a loss counts in full, and more under a liquidation buffer. */
  function WeightedPnl(h: PerpHolding, p: Position, t: Terms): int {
    var quoted := QuotedPnl(h, p, t.strict);
    var weight := if t.category == Initial then h.initialPnlWeight(quoted)
                  else h.market.unrealizedPnlMaintenanceAssetWeight;
    var weighted := if quoted > 0 then Div(quoted * weight, SV.SPOT_MARKET_WEIGHT_PRECISION) else quoted;
    BufferedPnl(weighted, t.liquidationBuffer)
  }

  function BufferedPnl(pnl: int, liquidationBuffer: Option<nat>): int {
    if liquidationBuffer.Some? && pnl < 0 then pnl + Div(pnl * liquidationBuffer.value, MARGIN_PRECISION) else pnl
  }

  function UnrealizedPnl(h: PerpHolding, t: Terms): Result<int> {
    var p :- MarginPosition(h);
    Success(WeightedPnl(h, p, t))
  }

  // ----- account totals -----

  /** Over the first `n` perp positions, their liabilities and their pnl. */
  function PerpSums(u: Margining, perps: seq<PerpHolding>, t: Terms, n: nat): Result<(int, int)>
    requires n <= |perps|
  {
    if n == 0 then Success((0, 0))
    else
      var (liabilities, pnl) :- PerpSums(u, perps, t, n - 1);
      if !IsActive(perps[n - 1].position) then Success((liabilities, pnl))
      else
        var liability :- WeightedPerpPositionLiability(u, perps[n - 1], t);
        var gain :- UnrealizedPnl(perps[n - 1], t);
        Success((liabilities + liability, pnl + gain))
  }

  function SpotTerms(u: Margining, t: Terms, liquidationBuffer: Option<nat>): Valuation {
    Valuation(None, Some(t.category), liquidationBuffer, t.includeOpenOrders, t.strict, u.maxMarginRatio)
  }

  datatype MarginState = MarginState(totalCollateral: int, marginRequirement: int) {
    predicate Liquidatable() {
      totalCollateral < marginRequirement
    }
  }

  /** Spot assets are valued without the buffer; losses, perp margin and spot liabilities with it. */
  function MarginStateOf(a: Account, t: Terms): Result<MarginState> {
    var (liabilities, pnl) :- PerpSums(a.u, a.perps, t, |a.perps|);
    Success(MarginState(Totals(SpotTerms(a.u, t, None), a.spots).0 + pnl,
                        liabilities + Totals(SpotTerms(a.u, t, t.liquidationBuffer), a.spots).1))
  }

  function Maintain(liquidationBuffer: Option<nat>): Terms {
    Terms(Maintenance, liquidationBuffer, true, false, false)
  }

  function LiquidationBuffer(a: Account): Option<nat> {
    if a.beingLiquidated then Some(a.liquidationMarginBufferRatio) else None
  }

  function LiquidationState(a: Account): Result<MarginState> {
    MarginStateOf(a, MaintenanceTerms(a))
  }

  function MaintenanceTerms(a: Account): Terms {
    Maintain(LiquidationBuffer(a))
  }

  function CanBeLiquidated(a: Account): Result<bool> {
    var state :- LiquidationState(a);
    Success(state.Liquidatable())
  }

  // ----- health -----

  /** Round half up. */
  function Round(x: real): int {
    (x + 0.5).Floor
  }

  function HealthOf(s: MarginState): int {
    if s.marginRequirement == 0 && s.totalCollateral >= 0 then 100
    else if s.totalCollateral <= 0 then 0
    else
      var percent := (1.0 - s.marginRequirement as real / s.totalCollateral as real) * 100.0;
      Round(if percent < 0.0 then 0.0 else if percent > 100.0 then 100.0 else percent)
  }

  function GetHealth(a: Account): Result<int> {
    if a.beingLiquidated then Success(0)
    else
      var state :- MarginStateOf(a, Maintain(None));
      Success(HealthOf(state))
  }

  lemma HealthPositiveIff(s: MarginState)
    ensures 0 <= HealthOf(s) <= 100
    ensures HealthOf(s) > 0 <==>
            (s.marginRequirement == 0 && s.totalCollateral >= 0)
            || (s.totalCollateral > 0 && 200 * (s.totalCollateral - s.marginRequirement) >= s.totalCollateral)
  {
    if s.totalCollateral > 0 {
      HalfPercent(s.totalCollateral, s.marginRequirement);
    }
  }

  lemma HalfPercent(collateral: int, requirement: int)
    requires collateral > 0
    ensures (1.0 - requirement as real / collateral as real) * 100.0 >= 0.5
            <==> 200 * (collateral - requirement) >= collateral
  {
    var c, m := collateral as real, requirement as real;
    assert m / c * c == m;
    HalfOfShare(m / c, c, m);
    assert 200.0 * (c - m) >= c <==> 200 * (collateral - requirement) >= collateral;
  }

  lemma HalfOfShare(share: real, c: real, m: real)
    requires c > 0.0 && share * c == m
    ensures (1.0 - share) * 100.0 >= 0.5 <==> 200.0 * (c - m) >= c
  {
    PercentTimes(share, c, m);
    RealOrderFromProducts(0.5, (1.0 - share) * 100.0, c);
  }

  lemma PercentTimes(share: real, c: real, m: real)
    requires share * c == m
    ensures (1.0 - share) * 100.0 * c == 100.0 * c - 100.0 * m
  {
    assert (100.0 - 100.0 * share) * c == 100.0 * c - 100.0 * (share * c);
  }

  lemma RealOrderFromProducts(x: real, y: real, k: real)
    requires 0.0 < k
    ensures x <= y <==> x * k <= y * k
  {
  }

  /** Positive health means the account cannot be liquidated. */
  lemma HealthyIsSafe(a: Account)
    ensures GetHealth(a).Success? && GetHealth(a).value > 0 ==> CanBeLiquidated(a) == Success(false)
  {
    hide MarginStateOf, HealthOf;
    var state := MarginStateOf(a, Maintain(None));
    if state.Success? {
      HealthPositiveIff(state.value);
    }
  }
}
