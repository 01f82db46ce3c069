/** What the values that margin rests on are, in terms of amounts, prices and ratios: each is an exact
    product or quotient cut to whole units, and a strict valuation is never kinder. */
module MarginValues {
  import opened Bn
  import opened LpSettlement
  import opened LpSettlementTheorems
  import opened LpRepeat
  import opened SettlementCharges
  import opened PerpMargin
  import opened TradeSize
  import LP = LiquidationPrice
  import SV = SpotValue
  import opened SpotAccount
  import opened AccountMargin

  // ----- perp liability and margin ratio -----

  /** The price a unit of a position's base can still lose: in a prediction market a short can lose what is
      left up to one. */
  function UnitAtRisk(base: int, price: int, isPrediction: bool): int {
    if isPrediction && base <= 0 then MAX_PREDICTION_PRICE - price else price
  }

  lemma LiabilityIsValue(base: int, price: int, isPrediction: bool)
    ensures Truncates(PerpLiabilityValue(base, price, isPrediction), Abs(base) * UnitAtRisk(base, price, isPrediction),
                      BASE_PRECISION)
  {
    DivTruncates(Abs(base) * UnitAtRisk(base, price, isPrediction), BASE_PRECISION);
    hide Div;
  }

  /** The two sides of a prediction market put up one unit of quote for each unit of base between them. */
  lemma PredictionSidesAddUp(base: nat, price: int)
    requires 0 < base && 0 <= price <= MAX_PREDICTION_PRICE
    ensures var both := PerpLiabilityValue(base, price, true) + PerpLiabilityValue(0 - base, price, true);
            both * BASE_PRECISION <= base * MAX_PREDICTION_PRICE < (both + 2) * BASE_PRECISION
  {
    hide PerpLiabilityValue;
    LiabilityIsValue(base, price, true);
    LiabilityIsValue(0 - base, price, true);
    MulMono(0, price, base);
    MulMono(0, MAX_PREDICTION_PRICE - price, base);
    assert base * (MAX_PREDICTION_PRICE - price) == base * MAX_PREDICTION_PRICE - base * price;
  }

  /** The market's ratio for the category, the high leverage one if the user asks and the market has it. */
  function BaseRatio(m: PerpMarket, category: MarginCategory, highLeverage: bool): nat {
    var high := highLeverage && m.highLeverageMarginRatioInitial > 0 && m.highLeverageMarginRatioMaintenance > 0;
    match category
    case Initial => if high then m.highLeverageMarginRatioInitial else m.marginRatioInitial
    case Maintenance => if high then m.highLeverageMarginRatioMaintenance else m.marginRatioMaintenance
  }

  /** The margin ratio is the least that is no less than the market's own, than four fifths of it with the
      premium for size, which grows with the root of ten times the size, and for initial margin than the
      user's. */
  predicate LeastRatio(ratio: nat, base: nat, size: int, imfFactor: nat, custom: nat, premium: int, root: nat) {
    && root * root <= Abs(size) * 10 + 1 < (root + 1) * (root + 1)
    && Truncates(premium, root * imfFactor, IMF_DENOMINATOR)
    && ratio >= base && ratio >= custom
    && (imfFactor != 0 ==> ratio >= base - base / 5 + premium)
    && (ratio == base || ratio == custom || (imfFactor != 0 && ratio == base - base / 5 + premium))
  }

  lemma MarginRatioIsLeast(m: PerpMarket, size: int, category: MarginCategory, custom: nat, highLeverage: bool)
    ensures LeastRatio(MarketMarginRatio(m, size, category, custom, highLeverage), BaseRatio(m, category, highLeverage),
                       size, m.imfFactor, if category == Initial then custom else 0,
                       SizePremium(size, m.imfFactor), SquareRoot(Abs(size) * 10 + 1))
  {
    SquareRootIsFloor(Abs(size) * 10 + 1);
    hide SquareRoot, Quot, Rem;
    DivTruncates(SquareRoot(Abs(size) * 10 + 1) * m.imfFactor, IMF_DENOMINATOR);
    hide Div;
  }

  // ----- one perp position's liability and pnl in quote -----

  /** The weighted liability is the quoted one at the ratio, with a hundredth of quote for each open order
      and, for an LP, the worth of a step but at least one unit of quote. */
  lemma WeightedLiabilityIs(u: Margining, h: PerpHolding, p: Position, t: Terms)
    ensures var extra := OrdersAndLpMargin(h, p, t);
            && Truncates(WeightedLiability(u, h, p, t) - extra,
                         QuotedLiability(h, p, t) * AppliedMarginRatio(u, h, p, t), MARGIN_PRECISION)
            && (!t.includeOpenOrders ==> extra == 0)
            && (t.includeOpenOrders && p.lpShares == 0 ==> extra == 10_000 * p.openOrders)
            && (t.includeOpenOrders && p.lpShares != 0 ==>
                  var step := extra - 10_000 * p.openOrders;
                  && step >= QUOTE_PRECISION
                  && (step == QUOTE_PRECISION
                      || Truncates(step, ValuationPrice(h) * h.market.amm.orderStepSize, AMM_RESERVE_PRECISION)))
  {
    hide QuotedLiability, AppliedMarginRatio, Quot, Rem;
    DivTruncates(QuotedLiability(h, p, t) * AppliedMarginRatio(u, h, p, t), MARGIN_PRECISION);
    StepWorth(ValuationPrice(h) * h.market.amm.orderStepSize);
    hide Div;
  }

  /** Multiplying by the quote precision and dividing by it again changes nothing. */
  lemma StepWorth(n: int)
    ensures Truncates(Div(Div(n * QUOTE_PRECISION, AMM_RESERVE_PRECISION), PRICE_PRECISION), n, AMM_RESERVE_PRECISION)
  {
    DivBounds(n * QUOTE_PRECISION, AMM_RESERVE_PRECISION);
    DivBounds(Div(n * QUOTE_PRECISION, AMM_RESERVE_PRECISION), PRICE_PRECISION);
    hide Div;
  }

  /** The quoted liability is the charged one at the quote price; a strict one is never less. */
  lemma QuotedLiabilityIs(h: PerpHolding, p: Position, t: Terms)
    ensures var liability := ChargedBase(p, ValuationPrice(h), h.market.isPrediction, t.includeOpenOrders).1;
            && (!t.strict ==> Truncates(QuotedLiability(h, p, t), liability * h.liabilityQuotePrice, PRICE_PRECISION))
            && (liability >= 0 ==>
                  QuotedLiability(h, p, t.(strict := false)) <= QuotedLiability(h, p, t.(strict := true)))
  {
    hide ChargedBase, Quot, Rem;
    var liability := ChargedBase(p, ValuationPrice(h), h.market.isPrediction, t.includeOpenOrders).1;
    var price, higher := h.liabilityQuotePrice, Max(h.liabilityQuotePrice, h.quoteTwap5Min);
    DivTruncates(liability * price, PRICE_PRECISION);
    if liability >= 0 {
      MulMono(price, higher, liability);
      DivMono(liability * price, liability * higher, PRICE_PRECISION);
    }
    hide Div;
  }

  /** The ratio applied: nothing in settlement, and otherwise the market's with the buffer added. */
  lemma AppliedRatioIs(u: Margining, h: PerpHolding, p: Position, t: Terms)
    ensures h.market.inSettlement ==> AppliedMarginRatio(u, h, p, t) == 0
    ensures !h.market.inSettlement ==>
              AppliedMarginRatio(u, h, p, t) == AppliedMarginRatio(u, h, p, t.(liquidationBuffer := None))
                                                + SV.Buffer(t.liquidationBuffer)
  {
    hide MarketMarginRatio, ChargedBase;
  }

  /** Unrealized pnl is the position's value, at the expiry price once in settlement, its quote and the funding
      it is due, and just the quote for an
      empty base. */
  lemma PnlIsValueQuoteAndFunding(h: PerpHolding, p: Position) returns (funding: int)
    ensures FundingFits(RateMove(h.market.amm, p), p.baseAssetAmount, funding)
    ensures var price := if h.market.inSettlement then h.market.expiryPrice else h.oraclePrice;
            Truncates(PositionPnl(h, p) - p.quoteAssetAmount - funding, p.baseAssetAmount * price,
                      AMM_RESERVE_PRECISION)
  {
    hide UnsettledFundingPnl, Quot, Rem;
    var base, price := p.baseAssetAmount, ValuationPrice(h);
    UnsettledFundingFits(h.market.amm, p);
    funding := UnsettledFundingPnl(h.market.amm, p);
    DivTruncates(Abs(base) * price, AMM_RESERVE_PRECISION);
    assert base < 0 ==> base * price == -(Abs(base) * price);
    hide Div;
    if base == 0 {
      FundingIsUnique(0, 0, funding, 0);
      assert 0 * price == 0;
    } else if base < 0 {
      NegatedTruncation(Div(Abs(base) * price, AMM_RESERVE_PRECISION), Abs(base) * price, AMM_RESERVE_PRECISION);
    }
  }

  lemma NegatedTruncation(q: int, n: int, d: int)
    requires Truncates(q, n, d)
    ensures Truncates(-q, -n, d)
  {
    assert (-q + 1) * d == -((q - 1) * d) && (-q - 1) * d == -((q + 1) * d) && -q * d == -(q * d);
  }

  /** A strict quote counts a gain for no more and a loss for no less. */
  lemma StrictPnlIsNeverKinder(h: PerpHolding, p: Position)
    ensures Truncates(QuotedPnl(h, p, false), PositionPnl(h, p) * h.pnlQuotePrice, PRICE_PRECISION)
    ensures QuotedPnl(h, p, true) <= QuotedPnl(h, p, false)
    ensures PositionPnl(h, p) != 0 ==>
              QuotedPnl(h, p, true) <= Div(PositionPnl(h, p) * h.quoteTwap5Min, PRICE_PRECISION)
  {
    hide PositionPnl, Quot, Rem;
    var pnl := PositionPnl(h, p);
    DivTruncates(pnl * h.pnlQuotePrice, PRICE_PRECISION);
    var used := if pnl > 0 then Min(h.pnlQuotePrice, h.quoteTwap5Min)
                else if pnl < 0 then Max(h.pnlQuotePrice, h.quoteTwap5Min) else h.pnlQuotePrice;
    ScaledOrder(pnl, used, h.pnlQuotePrice);
    if pnl != 0 {
      ScaledOrder(pnl, used, h.quoteTwap5Min);
    }
    hide Div;
  }

  lemma ScaledOrder(pnl: int, used: int, other: int)
    requires pnl > 0 ==> used <= other
    requires pnl < 0 ==> used >= other
    ensures Div(pnl * used, PRICE_PRECISION) <= Div(pnl * other, PRICE_PRECISION)
  {
    if pnl > 0 {
      MulMono(used, other, pnl);
    } else if pnl < 0 {
      MulMono(other, used, -pnl);
      assert other * -pnl == -(pnl * other) && used * -pnl == -(pnl * used);
    }
    DivMono(pnl * used, pnl * other, PRICE_PRECISION);
  }

  /** A gain counts at the category's weight, whatever the buffer; a loss counts in full and by the buffer's
      share more. */
  lemma WeightedPnlIs(h: PerpHolding, p: Position, t: Terms)
    ensures var quoted := QuotedPnl(h, p, t.strict);
            var weight := if t.category == Initial then h.initialPnlWeight(quoted)
                          else h.market.unrealizedPnlMaintenanceAssetWeight;
            && (quoted > 0 && weight >= 0 ==>
                  Truncates(WeightedPnl(h, p, t), quoted * weight, SV.SPOT_MARKET_WEIGHT_PRECISION))
            && (quoted <= 0 ==> Truncates(WeightedPnl(h, p, t) - quoted, quoted * SV.Buffer(t.liquidationBuffer),
                                          MARGIN_PRECISION))
  {
    hide QuotedPnl, Quot, Rem;
    var quoted := QuotedPnl(h, p, t.strict);
    var weight := if t.category == Initial then h.initialPnlWeight(quoted)
                  else h.market.unrealizedPnlMaintenanceAssetWeight;
    DivTruncates(quoted * weight, SV.SPOT_MARKET_WEIGHT_PRECISION);
    DivTruncates(quoted * SV.Buffer(t.liquidationBuffer), MARGIN_PRECISION);
    assert quoted * 0 == 0 && 0 * SV.Buffer(t.liquidationBuffer) == 0;
    if quoted > 0 && weight >= 0 {
      MulMono(0, weight, quoted);
      DivBounds(quoted * weight, SV.SPOT_MARKET_WEIGHT_PRECISION);
    }
    hide Div;
  }

  /** The positions left out for being inactive have nothing to add. */
  lemma InactiveIsNothing(u: Margining, h: PerpHolding, t: Terms)
    requires !IsActive(h.position) && h.position.openBids == h.position.openAsks == 0
    ensures MarginPosition(h) == Success(h.position)
    ensures WeightedLiability(u, h, h.position, t) == 0 && WeightedPnl(h, h.position, t) == 0
  {
    hide MarketMarginRatio, Quot, Rem;
    DivMultiple(0, BASE_PRECISION);
    DivMultiple(0, PRICE_PRECISION);
    DivMultiple(0, MARGIN_PRECISION);
    hide Div;
  }

  /** Margin is computed on an LP's position settled as if its shares were burned: dust included. */
  lemma MarginPositionChargesDust(h: PerpHolding) returns (funding: int, dust: int)
    requires h.position.lpShares != 0 && CanSettle(h.market.amm, h.position)
    ensures MarginPosition(h).Success?
    ensures FundingFits(RateMove(h.market.amm, h.position), h.position.baseAssetAmount, funding)
    ensures DustFits(true, MarginPosition(h).value.remainderBaseAssetAmount, h.oraclePrice, dust)
    ensures MarginPosition(h).value.quoteAssetAmount
            == h.position.quoteAssetAmount + QuoteDelta(h.market.amm, h.position) + funding - dust
    ensures WithRemainder(MarginPosition(h).value) == WithRemainder(h.position) + BaseDelta(h.market.amm, h.position)
  {
    hide Settle, CanSettle, QuoteDelta, BaseDelta;
    funding, dust := SettleBooksFundingAndDust(h.market.amm, h.oraclePrice, h.position, true, false);
    SettleConservesBase(h.market.amm, h.oraclePrice, h.position, true, false);
  }

  // ----- what liquidation looks at -----

  /** The same holding but for the quote's twap and, unless the user is in high leverage mode, for the ratios
      of that mode. */
  ghost predicate Alike(u: Margining, h: PerpHolding, h': PerpHolding) {
    h' == h.(
      quoteTwap5Min := h'.quoteTwap5Min,
      market := if u.highLeverageMode then h.market
                else h.market.(highLeverageMarginRatioInitial := h'.market.highLeverageMarginRatioInitial,
                               highLeverageMarginRatioMaintenance := h'.market.highLeverageMarginRatioMaintenance))
  }

  lemma AlikePerps(u: Margining, h: PerpHolding, h': PerpHolding, t: Terms)
    requires Alike(u, h, h') && !t.strict && !t.enteringHighLeverage
    ensures MarginPosition(h') == MarginPosition(h)
    ensures forall p :: WeightedLiability(u, h', p, t) == WeightedLiability(u, h, p, t)
    ensures forall p :: WeightedPnl(h', p, t) == WeightedPnl(h, p, t)
  {
    hide Settle, Div, SizePremiumLiabilityWeight, PerpLiabilityValue, UnsettledFundingPnl, WorstCasePerpLiability;
  }

  lemma {:induction false} AlikeSums(u: Margining, perps: seq<PerpHolding>, perps': seq<PerpHolding>, t: Terms, n: nat)
    requires |perps| == |perps'| && n <= |perps| && !t.strict && !t.enteringHighLeverage
    requires forall i :: 0 <= i < |perps| ==> Alike(u, perps[i], perps'[i])
    ensures PerpSums(u, perps', t, n) == PerpSums(u, perps, t, n)
  {
    hide WeightedLiability, WeightedPnl, MarginPosition;
    if n != 0 {
      AlikeSums(u, perps, perps', t, n - 1);
      AlikePerps(u, perps[n - 1], perps'[n - 1], t);
    }
  }

  lemma AlikeAppraisals(v: Valuation, spots: seq<Holding>, spots': seq<Holding>)
    requires |spots| == |spots'| && !v.strict
    requires forall i :: 0 <= i < |spots| ==> spots'[i] == spots[i].(liveTwap := spots'[i].liveTwap)
    ensures Totals(v, spots') == Totals(v, spots)
  {
    hide TotalsOf;
    forall i | 0 <= i < |spots|
      ensures Appraise(v, spots'[i]) == Appraise(v, spots[i])
    {
      AlikeAppraisal(v, spots[i], spots'[i].liveTwap);
    }
    hide Appraise;
    assert Appraisals(v, spots') == Appraisals(v, spots);
  }

  lemma AlikeAppraisal(v: Valuation, h: Holding, twap: int)
    requires !v.strict
    ensures Appraise(v, h.(liveTwap := twap)) == Appraise(v, h)
  {
    hide SV.WorstCaseTokenAmounts, SV.SpotAssetValue, SV.SpotLiabilityValue, SV.PositionTokens, OrdersQuote;
  }

  /** Whether an account can be liquidated, and its health, depend on no twap, and on no ratio for a leverage
      mode it is not in. */
  lemma LiquidationIgnoresTwaps(a: Account, a': Account)
    requires a' == a.(perps := a'.perps, spots := a'.spots)
    requires |a'.perps| == |a.perps| && |a'.spots| == |a.spots|
    requires forall i :: 0 <= i < |a.perps| ==> Alike(a.u, a.perps[i], a'.perps[i])
    requires forall i :: 0 <= i < |a.spots| ==> a'.spots[i] == a.spots[i].(liveTwap := a'.spots[i].liveTwap)
    ensures CanBeLiquidated(a') == CanBeLiquidated(a)
    ensures GetHealth(a') == GetHealth(a)
  {
    hide Totals, PerpSums, Alike, HealthOf;
    AlikeState(a, a', Maintain(None));
    AlikeState(a, a', MaintenanceTerms(a));
    hide MarginStateOf;
  }

  lemma AlikeState(a: Account, a': Account, t: Terms)
    requires a' == a.(perps := a'.perps, spots := a'.spots) && !t.strict && !t.enteringHighLeverage
    requires |a'.perps| == |a.perps| && |a'.spots| == |a.spots|
    requires forall i :: 0 <= i < |a.perps| ==> Alike(a.u, a.perps[i], a'.perps[i])
    requires forall i :: 0 <= i < |a.spots| ==> a'.spots[i] == a.spots[i].(liveTwap := a'.spots[i].liveTwap)
    ensures MarginStateOf(a', t) == MarginStateOf(a, t)
  {
    hide Totals, PerpSums, Alike;
    AlikeSums(a.u, a.perps, a'.perps, t, |a.perps|);
    AlikeAppraisals(SpotTerms(a.u, t, None), a.spots, a'.spots);
    AlikeAppraisals(SpotTerms(a.u, t, t.liquidationBuffer), a.spots, a'.spots);
  }

  // ----- the effect of a trade's entry -----

  /** At maintenance a trade entered at a price gains or loses its base at the difference to the oracle, pays
      the fee on what it is entered for, and is charged the margin it adds. */
  lemma EntryEffectIs(u: Margining, fees: FeeTier, m: PerpMarket, oraclePrice: int, p: Position, sizeChange: int,
                      entryPrice: int, withOrders: bool, highLeverage: bool, category: MarginCategory)
    returns (atOracle: int, atEntry: int, fee: int)
    requires fees.denominator != 0
    ensures Truncates(atOracle, oraclePrice * Abs(sizeChange), BASE_PRECISION)
    ensures Truncates(atEntry, entryPrice * Abs(sizeChange), BASE_PRECISION)
    ensures Truncates(fee, atEntry * fees.numerator, fees.denominator)
    ensures var after := p.(baseAssetAmount := p.baseAssetAmount + sizeChange);
            var added := PositionMargin(u, m, oraclePrice, after, withOrders, category, highLeverage)
                         - PositionMargin(u, m, oraclePrice, p, withOrders, category, highLeverage);
            EntriesEffect(u, fees, m, oraclePrice, p, sizeChange, entryPrice, withOrders, highLeverage, category)
            == (if category == Initial || entryPrice == 0 then 0
                else if sizeChange > 0 then atOracle - atEntry - fee
                else if sizeChange < 0 then atEntry - atOracle - fee else 0) - added
  {
    hide PositionMargin, Quot, Rem;
    atOracle := Div(oraclePrice * Abs(sizeChange), BASE_PRECISION);
    atEntry := Div(entryPrice * Abs(sizeChange), BASE_PRECISION);
    fee := Div(atEntry * fees.numerator, fees.denominator);
    DivTruncates(oraclePrice * Abs(sizeChange), BASE_PRECISION);
    DivTruncates(entryPrice * Abs(sizeChange), BASE_PRECISION);
    DivTruncates(atEntry * fees.numerator, fees.denominator);
    hide Div;
  }

  // ----- the perp's delta, orders included -----

  /** Outside prediction markets free collateral moves with the price by the position's signed size, less
      the margin on it and on the orders beyond it; in one, by the orders' side alone. */
  lemma PerpDeltaIs(q: LP.Query, sizeChange: int) returns (held: int, charged: int)
    requires LP.ChargedSize(q) + sizeChange != 0
    ensures LP.CollateralDeltaForPerp(q, sizeChange).Some?
    ensures var delta := LP.CollateralDeltaForPerp(q, sizeChange).value;
            var base, orders := LP.ChargedSize(q) + sizeChange, LP.ChargedSize(q) - q.p.baseAssetAmount;
            var ratio := 100 * LP.ProposedRatio(q, sizeChange);
            && Truncates(held, (if base > 0 then QUOTE_PRECISION - ratio else -QUOTE_PRECISION - ratio) * Abs(base),
                         BASE_PRECISION)
            && Truncates(charged, ratio * Abs(orders), BASE_PRECISION)
            && (!q.m.isPrediction ==> delta == held - charged)
            && (q.m.isPrediction ==> delta == if orders > 0 then 0 - ratio else if orders < 0 then ratio else 0)
  {
    hide MarketMarginRatio, WorstCasePerpLiability, Quot, Rem;
    var base, orders := LP.ChargedSize(q) + sizeChange, LP.ChargedSize(q) - q.p.baseAssetAmount;
    var ratio := LP.ProposedRatio(q, sizeChange);
    DivMultiple(ratio * 100, MARGIN_PRECISION);
    assert ratio * QUOTE_PRECISION == ratio * 100 * MARGIN_PRECISION;
    var share := if base > 0 then QUOTE_PRECISION - 100 * ratio else -QUOTE_PRECISION - 100 * ratio;
    held, charged := Div(share * Abs(base), BASE_PRECISION), Div(100 * ratio * Abs(orders), BASE_PRECISION);
    DivTruncates(share * Abs(base), BASE_PRECISION);
    DivTruncates(100 * ratio * Abs(orders), BASE_PRECISION);
    DivMultiple(0, BASE_PRECISION);
    assert orders == 0 ==> 100 * ratio * Abs(orders) == 0;
    hide Div;
  }

  // ----- health -----

  /** Between no requirement and all of the collateral, health is the spare share of collateral in percent,
      rounded to the nearest, up in the middle. */
  lemma HealthIsRounded(s: MarginState)
    requires 0 < s.marginRequirement <= s.totalCollateral
    ensures var spare := 100 * (s.totalCollateral - s.marginRequirement);
            -s.totalCollateral <= 2 * (spare - HealthOf(s) * s.totalCollateral) < s.totalCollateral
  {
    var c, m := s.totalCollateral as real, s.marginRequirement as real;
    var share := m / c;
    assert share * c == m;
    ShareBounds(share, c, m);
    var percent := (1.0 - share) * 100.0;
    PercentTimes(share, c, m);
    RoundedPercent(percent, c, 100.0 * c - 100.0 * m, Round(percent));
    assert HealthOf(s) == Round(percent);
    RoundedIntegers(s.totalCollateral, 100 * (s.totalCollateral - s.marginRequirement), Round(percent));
  }

  /** Beyond that health is full for an account that needs nothing, and none for one that has less than it
      needs. */
  lemma HealthAtTheEnds(s: MarginState)
    ensures s.marginRequirement == 0 && s.totalCollateral >= 0 ==> HealthOf(s) == 100
    ensures s.marginRequirement < 0 < s.totalCollateral ==> HealthOf(s) == 100
    ensures s.marginRequirement != 0 && s.totalCollateral <= 0 ==> HealthOf(s) == 0
    ensures s.marginRequirement == 0 && s.totalCollateral < 0 ==> HealthOf(s) == 0
    ensures 0 < s.totalCollateral < s.marginRequirement ==> HealthOf(s) == 0
  {
    if s.totalCollateral > 0 {
      var c, m := s.totalCollateral as real, s.marginRequirement as real;
      var share := m / c;
      assert share * c == m && 1.0 * c == c && 0.0 * c == 0.0;
      RealOrderFromProducts(share, 1.0, c);
      RealOrderFromProducts(share, 0.0, c);
      RealOrderFromProducts(1.0, share, c);
    }
  }

  lemma ShareBounds(share: real, c: real, m: real)
    requires 0.0 < m <= c && share * c == m
    ensures 0.0 < share <= 1.0
  {
    assert 1.0 * c == c && 0.0 * c == 0.0;
    RealOrderFromProducts(share, 1.0, c);
    RealOrderFromProducts(share, 0.0, c);
  }

  lemma RoundedPercent(x: real, c: real, n: real, r: int)
    requires 0.0 < c && x * c == n && r == Round(x)
    ensures (r as real - 0.5) * c <= n < (r as real + 0.5) * c
  {
    var low, high := r as real - 0.5, r as real + 0.5;
    assert low <= x < high;
    RealOrderFromProducts(low, x, c);
    RealOrderFromProducts(high, x, c);
    assert low * c <= n && !(high * c <= n);
  }

  lemma RoundedIntegers(c: int, n: int, r: int)
    requires (r as real - 0.5) * c as real <= n as real < (r as real + 0.5) * c as real
    ensures -c <= 2 * (n - r * c) < c
  {
    assert (r as real - 0.5) * c as real == (r * c) as real - 0.5 * c as real by { ProductAsReal(r, c); }
    assert (r as real + 0.5) * c as real == (r * c) as real + 0.5 * c as real by { ProductAsReal(r, c); }
  }

  lemma ProductAsReal(x: int, y: int)
    ensures (x * y) as real == x as real * y as real
  {
  }

  // ----- spot -----

  /** A deposit's tokens are rounded down, a borrow's up. */
  lemma TokensRoundAgainst(balance: nat, m: SV.SpotMarket)
    ensures Truncates(SV.TokenAmount(balance, m, SV.Deposit), balance * m.cumulativeDepositInterest,
                      Pow10(SV.INTEREST_DECIMALS - m.decimals))
    ensures var unit := Pow10(SV.INTEREST_DECIMALS - m.decimals);
            var owed := SV.TokenAmount(balance, m, SV.Borrow);
            0 <= owed && (owed - 1) * unit < balance * m.cumulativeBorrowInterest <= owed * unit
  {
    var unit := Pow10(SV.INTEREST_DECIMALS - m.decimals);
    MulMono(0, balance, m.cumulativeDepositInterest);
    MulMono(0, balance, m.cumulativeBorrowInterest);
    DivTruncates(balance * m.cumulativeDepositInterest, unit);
    DivTruncates(balance * m.cumulativeBorrowInterest, unit);
    DivMod(balance * m.cumulativeBorrowInterest, unit);
    QuotRem(Abs(balance * m.cumulativeBorrowInterest), unit);
    hide Div, Quot, Rem;
    var q := Div(balance * m.cumulativeBorrowInterest, unit);
    assert (q + 1) * unit == q * unit + unit && (q - 1) * unit == q * unit - unit;
  }

  /** A strict value is at most the value at the oracle price and at the twap. */
  lemma StrictValueIsNeverKinder(amount: int, decimals: SV.Decimals, price: SV.StrictOraclePrice)
    ensures SV.StrictTokenValue(amount, decimals, price) <= SV.TokenValue(amount, decimals, price.current)
    ensures price.twap.Some? ==>
              SV.StrictTokenValue(amount, decimals, price) <= SV.TokenValue(amount, decimals, price.twap.value)
    ensures Truncates(SV.TokenValue(amount, decimals, price.current), amount * price.current, Pow10(decimals))
    ensures price.twap == None ==>
              SV.StrictTokenValue(amount, decimals, price) == SV.TokenValue(amount, decimals, price.current)
  {
    var used := if amount >= 0 then price.Lowest() else price.Highest();
    DivTruncates(amount * price.current, Pow10(decimals));
    assert 0 * price.current == 0;
    ValueOrder(amount, used, price.current, Pow10(decimals));
    if price.twap.Some? {
      ValueOrder(amount, used, price.twap.value, Pow10(decimals));
    }
    hide Div;
  }

  lemma ValueOrder(amount: int, used: int, other: int, unit: nat)
    requires unit != 0
    requires amount >= 0 ==> used <= other
    requires amount < 0 ==> used >= other
    ensures Div(amount * used, unit) <= Div(amount * other, unit)
  {
    if amount >= 0 {
      MulMono(used, other, amount);
    } else {
      MulMono(other, used, -amount);
      assert other * -amount == -(amount * other) && used * -amount == -(amount * used);
    }
    DivMono(amount * used, amount * other, unit);
  }

  /** A valuation prices a holding at the oracle, and a strict one at the twap as well. */
  lemma PricedAtOracle(v: Valuation, h: Holding)
    ensures PriceOf(v, h).current == h.oraclePrice
    ensures PriceOf(v, h).Lowest() == if v.strict then Min(h.oraclePrice, h.liveTwap) else h.oraclePrice
    ensures PriceOf(v, h).Highest() == if v.strict then Max(h.oraclePrice, h.liveTwap) else h.oraclePrice
  {
  }

  /** The size an asset's weight is discounted, and a liability's raised, for: the amount in the precision of
      the reserves. */
  lemma SizeIsAmount(amount: int, decimals: SV.Decimals)
    ensures if decimals > 9 then Truncates(SV.SizeInReservePrecision(amount, decimals), amount, Pow10(decimals - 9))
            else Truncates(SV.SizeInReservePrecision(amount, decimals), amount * SV.AMM_RESERVE_PRECISION,
                           Pow10(decimals))
  {
    if decimals > 9 {
      DivTruncates(amount, Pow10(decimals - 9));
    } else {
      DivTruncates(amount * SV.AMM_RESERVE_PRECISION, Pow10(decimals));
    }
    hide Div;
  }

  /** A large deposit's weight is at most the market's, and at most eleven tenths over one plus the discount
      for size; it is one of the two. */
  predicate DiscountedWeight(weight: int, market: int, size: int, imfFactor: nat, discount: int, root: nat,
                             capped: int)
  {
    if imfFactor == 0 then weight == market
    else
      && root * root <= Abs(size) * 10 + 1 < (root + 1) * (root + 1)
      && Truncates(discount, root * imfFactor, 100_000)
      && Truncates(capped, 11_000_000_000, SPOT_MARKET_IMF_PRECISION + discount)
      && weight <= market && weight <= capped && (weight == market || weight == capped)
  }

  lemma WeightIsDiscounted(size: int, imfFactor: nat, market: int) returns (discount: int, root: nat, capped: int)
    ensures DiscountedWeight(SV.SizeDiscountAssetWeight(size, imfFactor, market), market, size, imfFactor,
                             discount, root, capped)
  {
    root := SquareRoot(Abs(size) * 10 + 1);
    SquareRootIsFloor(Abs(size) * 10 + 1);
    hide SquareRoot, Quot, Rem;
    SV.NonNegativeQuotient(root, imfFactor, 100_000);
    discount := Div(root * imfFactor, 100_000);
    DivTruncates(root * imfFactor, 100_000);
    capped := Div(11_000_000_000, SPOT_MARKET_IMF_PRECISION + discount);
    DivTruncates(11_000_000_000, SPOT_MARKET_IMF_PRECISION + discount);
    hide Div;
  }

  /** An asset's weight for its category, discounted for its size: the scaled initial or the maintenance one. */
  lemma AssetWeightIs(amount: int, oraclePrice: int, m: SV.SpotMarket, category: MarginCategory)
    returns (discount: int, root: nat, capped: int)
    ensures var market := if category == Initial then SV.ScaledInitialAssetWeight(m, oraclePrice)
                          else m.maintenanceAssetWeight;
            DiscountedWeight(SV.AssetWeight(amount, oraclePrice, m, Some(category)), market,
                             SV.SizeInReservePrecision(amount, m.decimals), m.imfFactor, discount, root, capped)
  {
    hide SV.SizeDiscountAssetWeight, SV.SizeInReservePrecision, SV.ScaledInitialAssetWeight, DiscountedWeight;
    var market := if category == Initial then SV.ScaledInitialAssetWeight(m, oraclePrice) else m.maintenanceAssetWeight;
    discount, root, capped := WeightIsDiscounted(SV.SizeInReservePrecision(amount, m.decimals), m.imfFactor, market);
  }

  /** Without a category values carry no weight, and no buffer. */
  lemma UnweightedSpotValues(v: Valuation, h: Holding, amount: int)
    requires v.category == None
    ensures AssetValue(v, h, amount) == SV.StrictTokenValue(amount, h.market.decimals, PriceOf(v, h))
    ensures LiabilityValue(v, h, amount) == Abs(SV.StrictTokenValue(amount, h.market.decimals, PriceOf(v, h)))
  {
    hide SV.StrictTokenValue;
  }

  /** The initial weight is scaled down, once the market's deposits are worth enough, by what they are worth
      beyond it. */
  lemma ScaledWeightIs(m: SV.SpotMarket, oraclePrice: int)
    ensures var deposits := SV.TokenValue(SV.TokenAmount(m.depositBalance, m, SV.Deposit), m.decimals, oraclePrice);
            var start := m.scaleInitialAssetWeightStart;
            var weight := SV.ScaledInitialAssetWeight(m, oraclePrice);
            && (start == 0 || deposits < start ==> weight == m.initialAssetWeight)
            && (start != 0 && deposits >= start ==>
                  weight * deposits <= m.initialAssetWeight * start < (weight + 1) * deposits)
  {
    hide Quot, Rem, SV.TokenAmount, SV.TokenValue;
    var deposits := SV.TokenValue(SV.TokenAmount(m.depositBalance, m, SV.Deposit), m.decimals, oraclePrice);
    MulMono(0, m.initialAssetWeight, m.scaleInitialAssetWeightStart);
    if m.scaleInitialAssetWeightStart != 0 && deposits >= m.scaleInitialAssetWeightStart {
      DivTruncates(m.initialAssetWeight * m.scaleInitialAssetWeightStart, deposits);
    }
    hide Div;
  }

  /** A liability's weight for its category: the least that is no less than the market's and than four fifths
      of it with the premium for size. */
  lemma LiabilityWeightIsLeast(amount: int, m: SV.SpotMarket, category: MarginCategory)
    ensures var size := SV.SizeInReservePrecision(amount, m.decimals);
            var market := if category == Initial then m.initialLiabilityWeight else m.maintenanceLiabilityWeight;
            LeastRatio(SV.LiabilityWeight(amount, m, Some(category)), market, size, m.imfFactor, 0,
                       SizePremium(size, m.imfFactor), SquareRoot(Abs(size) * 10 + 1))
  {
    var size := SV.SizeInReservePrecision(amount, m.decimals);
    SquareRootIsFloor(Abs(size) * 10 + 1);
    hide SquareRoot, SV.SizeInReservePrecision, Quot, Rem;
    DivTruncates(SquareRoot(Abs(size) * 10 + 1) * m.imfFactor, IMF_DENOMINATOR);
    hide Div;
  }

  /** The weight an asset is credited at, and a liability charged at, by category: outside the quote market
      initial margin is also bound by the user's ratio, and a liability's weight carries the buffer. */
  lemma WeightedSpotValues(v: Valuation, h: Holding, amount: int) returns (asset: int, liability: nat)
    requires v.category.Some?
    ensures var value := SV.StrictTokenValue(amount, h.market.decimals, PriceOf(v, h));
            && Truncates(AssetValue(v, h, amount), value * asset, SV.SPOT_MARKET_WEIGHT_PRECISION)
            && (value >= 0 ==>
                  Truncates(LiabilityValue(v, h, amount), value * liability, SV.SPOT_MARKET_WEIGHT_PRECISION))
            && (value <= 0 ==>
                  Truncates(0 - LiabilityValue(v, h, amount), value * liability, SV.SPOT_MARKET_WEIGHT_PRECISION))
    ensures var market := SV.AssetWeight(amount, h.oraclePrice, h.market, v.category);
            var own := Max(0, SV.SPOT_MARKET_WEIGHT_PRECISION - v.maxMarginRatio);
            if v.category == Some(Initial) && h.market.marketIndex != SV.QUOTE_SPOT_MARKET_INDEX
            then asset <= market && asset <= own && (asset == market || asset == own) else asset == market
    ensures var market := SV.LiabilityWeight(amount, h.market, v.category);
            var own := SV.SPOT_MARKET_WEIGHT_PRECISION + v.maxMarginRatio;
            var weight := liability - SV.Buffer(v.liquidationBuffer);
            if v.category == Some(Initial) && h.market.marketIndex != SV.QUOTE_SPOT_MARKET_INDEX
            then weight >= market && weight >= own && (weight == market || weight == own) else weight == market
  {
    hide SV.StrictTokenValue, SV.AssetWeight, SV.LiabilityWeight, Quot, Rem;
    var value := SV.StrictTokenValue(amount, h.market.decimals, PriceOf(v, h));
    var initial := v.category == Some(Initial) && h.market.marketIndex != SV.QUOTE_SPOT_MARKET_INDEX;
    asset := SV.AssetWeight(amount, h.oraclePrice, h.market, v.category);
    if initial {
      asset := Min(asset, Max(0, SV.SPOT_MARKET_WEIGHT_PRECISION - v.maxMarginRatio));
    }
    liability := SV.AppliedLiabilityWeight(amount, h.market, v.maxMarginRatio, v.category)
                 + SV.Buffer(v.liquidationBuffer);
    DivTruncates(value * asset, SV.SPOT_MARKET_WEIGHT_PRECISION);
    DivTruncates(value * liability, SV.SPOT_MARKET_WEIGHT_PRECISION);
    if value >= 0 {
      MulMono(0, value, liability);
    } else {
      MulMono(value, 0, liability);
    }
    hide Div;
  }

  /** Quote from orders counts in full; quote they cost counts at the user's ratio if that is above one. */
  lemma OrdersQuoteIs(v: Valuation, ordersValue: int)
    ensures ordersValue >= 0 ==> OrdersQuote(v, ordersValue) == ordersValue
    ensures ordersValue < 0 ==>
              Truncates(OrdersQuote(v, ordersValue),
                        ordersValue * (if v.category == Some(Initial)
                                       then Max(SV.SPOT_MARKET_WEIGHT_PRECISION, v.maxMarginRatio)
                                       else SV.SPOT_MARKET_WEIGHT_PRECISION),
                        SV.SPOT_MARKET_WEIGHT_PRECISION)
  {
    var weight := if v.category == Some(Initial) then Max(SV.SPOT_MARKET_WEIGHT_PRECISION, v.maxMarginRatio)
                  else SV.SPOT_MARKET_WEIGHT_PRECISION;
    DivTruncates(Abs(ordersValue) * weight, SV.SPOT_MARKET_WEIGHT_PRECISION);
    NegMul(Abs(ordersValue), weight);
    hide Div;
    if ordersValue < 0 {
      NegatedTruncation(0 - OrdersQuote(v, ordersValue), Abs(ordersValue) * weight, SV.SPOT_MARKET_WEIGHT_PRECISION);
    }
  }
}
