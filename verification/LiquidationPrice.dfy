/** The oracle price at which a perp position's account runs out of free collateral. */
module LiquidationPrice {
  import opened Bn
  import opened LpSettlement
  import opened PerpMargin
  import opened TradeSize

  const SPOT_MARKET_WEIGHT_PRECISION := 10_000
  const NO_PRICE := -1

  /** A spot balance priced by the same oracle, and the multiple between the two oracle sources. */
  datatype SpotLeg = SpotLeg(signedTokenAmount: int, assetWeight: nat, liabilityWeight: nat, decimals: nat,
                             numerator: nat, denominator: nat)

  datatype Query = Query(
    u: Margining,
    fees: FeeTier,
    m: PerpMarket,
    oraclePrice: int,
    p: Position,               // the settled position
    totalCollateral: int,
    marginRequirement: int,
    spot: Option<SpotLeg>,
    sizeChange: int,
    entryPrice: int,
    category: MarginCategory,
    includeOpenOrders: bool,
    offsetCollateral: int,
    enteringHighLeverage: bool
  )

  predicate WellFormed(q: Query) {
    q.fees.denominator != 0 && (q.spot.Some? ==> q.spot.value.denominator != 0)
  }

  function StandardizeBase(amount: int, step: nat): int
    requires step != 0
  {
    amount - Mod(amount, step)
  }

  /** The size change is standardized as settlement standardizes its deltas. */
  lemma StandardizedAlike(amount: int, step: nat)
    requires step != 0
    ensures StandardizeBase(amount, step) == Standardize(amount, step)
  {
  }

  // ----- how free collateral moves with the price -----

  /** Free collateral gained per unit of price; nothing for a position that ends up empty. */
  function CollateralDeltaForPerp(q: Query, sizeChange: int): Option<int> {
    var base := if q.includeOpenOrders then WorstCasePerpLiability(q.p, q.oraclePrice, q.m.isPrediction).0
                else q.p.baseAssetAmount;
    var orderBase := base - q.p.baseAssetAmount;
    var proposed := base + sizeChange;
    var ratio := MarketMarginRatio(q.m, proposed, q.category, q.u.maxMarginRatio,
                                   q.u.highLeverageMode || q.enteringHighLeverage);
    var ratioQuote := Div(ratio * QUOTE_PRECISION, MARGIN_PRECISION);
    if proposed == 0 then
      None
    else if q.m.isPrediction then
      Some(if orderBase > 0 then -ratioQuote else if orderBase < 0 then ratioQuote else 0)
    else
      var held := if proposed > 0 then Div((QUOTE_PRECISION - ratioQuote) * proposed, BASE_PRECISION)
                  else Div((-QUOTE_PRECISION - ratioQuote) * Abs(proposed), BASE_PRECISION);
      Some(if orderBase != 0 then held - Div(ratioQuote * Abs(orderBase), BASE_PRECISION) else held)
  }

  function CollateralDeltaForSpot(s: SpotLeg): int {
    Pow10Positive(s.decimals);
    var perToken := if s.signedTokenAmount > 0
                    then Div(QUOTE_PRECISION * s.assetWeight, SPOT_MARKET_WEIGHT_PRECISION)
                    else Div(-QUOTE_PRECISION * s.liabilityWeight, SPOT_MARKET_WEIGHT_PRECISION);
    Div(perToken * Abs(s.signedTokenAmount), Pow10(s.decimals))
  }

  function CollateralDelta(q: Query, sizeChange: int): Option<int>
    requires WellFormed(q)
  {
    match CollateralDeltaForPerp(q, sizeChange)
    case None => None
    case Some(perp) =>
      if q.spot.None? then Some(perp)
      else Some(perp + Div(CollateralDeltaForSpot(q.spot.value) * q.spot.value.numerator, q.spot.value.denominator))
  }

  /** Free collateral once the size change and the offset are in. The effect of the new entry is
      taken for maintenance margin whatever the category asked for. */
  function FreeCollateral(q: Query, sizeChange: int): int
    requires WellFormed(q)
  {
    Max(0, q.totalCollateral - q.marginRequirement) + q.offsetCollateral
    + EntriesEffect(q.u, q.fees, q.m, q.oraclePrice, q.p, sizeChange, q.entryPrice, q.includeOpenOrders,
                    q.enteringHighLeverage, Maintenance)
  }

  function PriceFrom(freeCollateral: int, delta: Option<int>, oraclePrice: int): int {
    if delta.None? || delta.value == 0 then NO_PRICE
    else
      var price := oraclePrice - Div(freeCollateral * QUOTE_PRECISION, delta.value);
      if price < 0 then NO_PRICE else price
  }

  method GetLiquidationPrice(q: Query) returns (error: Option<Error>, price: int)
    requires WellFormed(q)
    ensures error == if q.m.amm.orderStepSize == 0 then Some(DivisionByZero) else None
    ensures error == None ==>
              && q.m.amm.orderStepSize != 0
              && var change := StandardizeBase(q.sizeChange, q.m.amm.orderStepSize);
                 price == PriceFrom(FreeCollateral(q, change), CollateralDelta(q, change), q.oraclePrice)
  {
    var freeCollateral := Max(0, q.totalCollateral - q.marginRequirement) + q.offsetCollateral;
    if q.m.amm.orderStepSize == 0 {
      return Some(DivisionByZero), NO_PRICE;
    }
    var sizeChange := StandardizeBase(q.sizeChange, q.m.amm.orderStepSize);
    var fromNewPosition := EntriesEffect(q.u, q.fees, q.m, q.oraclePrice, q.p, sizeChange, q.entryPrice,
                                         q.includeOpenOrders, q.enteringHighLeverage, Maintenance);
    freeCollateral := freeCollateral + fromNewPosition;
    var perpDelta := CollateralDeltaForPerp(q, sizeChange);
    if perpDelta.None? {
      return None, NO_PRICE;
    }
    var delta := perpDelta.value;
    if q.spot.Some? {
      var spotDelta := CollateralDeltaForSpot(q.spot.value);
      spotDelta := Div(spotDelta * q.spot.value.numerator, q.spot.value.denominator);
      delta := delta + spotDelta;
    }
    if delta == 0 {
      return None, NO_PRICE;
    }
    var liqPriceDelta := Div(freeCollateral * QUOTE_PRECISION, delta);
    var liqPrice := q.oraclePrice - liqPriceDelta;
    if liqPrice < 0 {
      return None, NO_PRICE;
    }
    return None, liqPrice;
  }

  // ----- what the price means -----

  /** Free collateral at `price`, to first order and times the price precision. */
  function CollateralAt(freeCollateral: int, delta: int, oraclePrice: int, price: int): int {
    freeCollateral * QUOTE_PRECISION + (price - oraclePrice) * delta
  }

  /** The last integer price at which the account still has free collateral: one tick further in the
      adverse direction it has none. */
  predicate LastSafePrice(freeCollateral: int, delta: int, oraclePrice: int, price: int) {
    && CollateralAt(freeCollateral, delta, oraclePrice, price) >= 0
    && CollateralAt(freeCollateral, delta, oraclePrice, price - Sign(delta)) < 0
  }

  lemma ScaledQuotient(n: int, delta: int)
    requires delta != 0
    ensures Div(n, delta) * delta == Div(n, Abs(delta)) * Abs(delta)
    ensures Div(n, Abs(delta)) == if delta > 0 then Div(n, delta) else -Div(n, delta)
  {
    if delta < 0 {
      DivNegDivisor(n, -delta);
      NegMul(Div(n, delta), -delta);
      NegMul(Div(n, delta), delta);
    }
  }

  lemma CollateralAtQuotient(freeCollateral: int, delta: int, oraclePrice: int)
    requires delta != 0
    ensures var n := freeCollateral * QUOTE_PRECISION;
            var price := oraclePrice - Div(n, delta);
            && CollateralAt(freeCollateral, delta, oraclePrice, price) == n - Div(n, Abs(delta)) * Abs(delta)
            && CollateralAt(freeCollateral, delta, oraclePrice, price - Sign(delta))
               == n - Div(n, Abs(delta)) * Abs(delta) - Abs(delta)
  {
    var n := freeCollateral * QUOTE_PRECISION;
    ScaledQuotient(n, delta);
    NegMul(Div(n, delta), delta);
    assert (-Div(n, delta) - Sign(delta)) * delta == (-Div(n, delta)) * delta - Sign(delta) * delta;
  }

  /** A returned price is the last safe one exactly when free collateral is non-negative or the
      quotient comes out whole: truncation toward zero overshoots an account already short. */
  lemma LiquidationPriceTight(freeCollateral: int, delta: int, oraclePrice: int)
    requires delta != 0
    requires PriceFrom(freeCollateral, Some(delta), oraclePrice) != NO_PRICE
    ensures LastSafePrice(freeCollateral, delta, oraclePrice, PriceFrom(freeCollateral, Some(delta), oraclePrice))
            <==> freeCollateral >= 0 || Mod(freeCollateral * QUOTE_PRECISION, Abs(delta)) == 0
  {
    var n := freeCollateral * QUOTE_PRECISION;
    CollateralAtQuotient(freeCollateral, delta, oraclePrice);
    DivBounds(n, Abs(delta));
    DivMod(n, Abs(delta));
  }

  /** Buying one unit at 2 with the oracle at 1, and no collateral. */
  predicate BoughtDear(q: Query) {
    && q.u == Margining(0, false)
    && q.fees == FeeTier(0, 1)
    && !q.m.isPrediction && q.m.imfFactor == 0 && q.m.marginRatioMaintenance == 500
    && q.oraclePrice == 1_000_000
    && q.p.baseAssetAmount == 0
    && q.totalCollateral == q.marginRequirement == q.offsetCollateral == 0
    && q.spot == None
    && q.entryPrice == 2_000_000
    && q.category == Maintenance
    && !q.includeOpenOrders && !q.enteringHighLeverage
  }

  lemma BoughtDearValues(q: Query)
    requires BoughtDear(q)
    ensures FreeCollateral(q, 1_000_000_000) == -1_050_000
    ensures CollateralDelta(q, 1_000_000_000) == Some(950_000)
  {
    DivMultiple(1_000_000, BASE_PRECISION);
    DivMultiple(2_000_000, BASE_PRECISION);
    DivMultiple(0, 1);
    DivMultiple(0, BASE_PRECISION);
    DivMultiple(0, MARGIN_PRECISION);
    DivMultiple(50_000, MARGIN_PRECISION);
    DivMultiple(950_000, BASE_PRECISION);
    hide Div;
  }

  /** The entry leaves the account short, and the price it gets is past the last safe one. */
  lemma ShortAccountOvershoots(q: Query)
    requires BoughtDear(q)
    ensures WellFormed(q)
    ensures var freeCollateral := FreeCollateral(q, 1_000_000_000);
            var delta := CollateralDelta(q, 1_000_000_000);
            && delta.Some? && delta.value != 0
            && PriceFrom(freeCollateral, delta, q.oraclePrice) == 2_105_263
            && !LastSafePrice(freeCollateral, delta.value, q.oraclePrice, 2_105_263)
  {
    hide FreeCollateral, CollateralDelta;
    BoughtDearValues(q);
    DivUnique(-1_050_000 * QUOTE_PRECISION, 950_000, -1_105_263);
  }

  /** No price is returned to an account gaining with the price and not short of collateral exactly
      when even one tick below zero would be safe. */
  lemma NoPriceMeansAlwaysSafe(freeCollateral: nat, delta: int, oraclePrice: int)
    requires delta > 0
    ensures PriceFrom(freeCollateral, Some(delta), oraclePrice) == NO_PRICE
            <==> forall price :: -1 <= price ==> CollateralAt(freeCollateral, delta, oraclePrice, price) >= 0
  {
    var n := freeCollateral * QUOTE_PRECISION;
    var exact := oraclePrice - Div(n, delta);
    CollateralAtQuotient(freeCollateral, delta, oraclePrice);
    DivBounds(n, delta);
    if exact < 0 {
      forall price | -1 <= price
        ensures CollateralAt(freeCollateral, delta, oraclePrice, price) >= 0
      {
        MulMono(exact - oraclePrice, price - oraclePrice, delta);
      }
    } else {
      assert CollateralAt(freeCollateral, delta, oraclePrice, exact - 1) < 0;
    }
  }

  /** More collateral never moves the price the unsafe way: down for an account that gains with the
      price, up for one that loses, counting "no price" as one tick below zero. */
  lemma LargerOffsetIsSafer(q: Query, offset: int, sizeChange: int)
    requires WellFormed(q) && q.offsetCollateral <= offset
    ensures var q' := q.(offsetCollateral := offset);
            var delta := CollateralDelta(q, sizeChange);
            var price := PriceFrom(FreeCollateral(q, sizeChange), delta, q.oraclePrice);
            var price' := PriceFrom(FreeCollateral(q', sizeChange), CollateralDelta(q', sizeChange), q'.oraclePrice);
            && CollateralDelta(q', sizeChange) == delta
            && (delta.Some? && delta.value > 0 ==> price' <= price)
            && (delta.Some? && delta.value < 0 ==> price <= price')
            && (delta.None? || delta.value == 0 ==> price == price' == NO_PRICE)
  {
    hide Div, EntriesEffect, CollateralDeltaForSpot, MarketMarginRatio, WorstCasePerpLiability;
    var q' := q.(offsetCollateral := offset);
    var delta := CollateralDelta(q, sizeChange);
    assert CollateralDeltaForPerp(q', sizeChange) == CollateralDeltaForPerp(q, sizeChange);
    assert FreeCollateral(q', sizeChange) - FreeCollateral(q, sizeChange) == offset - q.offsetCollateral;
    if delta.Some? && delta.value != 0 {
      PriceMono(FreeCollateral(q, sizeChange), FreeCollateral(q', sizeChange), delta.value, q.oraclePrice);
    }
  }

  lemma PriceMono(freeCollateral: int, freeCollateral': int, delta: int, oraclePrice: int)
    requires delta != 0 && freeCollateral <= freeCollateral'
    ensures var price := PriceFrom(freeCollateral, Some(delta), oraclePrice);
            var price' := PriceFrom(freeCollateral', Some(delta), oraclePrice);
            if delta > 0 then price' <= price else price <= price'
  {
    var n, n' := freeCollateral * QUOTE_PRECISION, freeCollateral' * QUOTE_PRECISION;
    DivMono(n, n', Abs(delta));
    ScaledQuotient(n, delta);
    ScaledQuotient(n', delta);
  }

  /** The base amount the size change is added to, open orders at their worst if they are included. */
  function ChargedSize(q: Query): int {
    if q.includeOpenOrders then WorstCasePerpLiability(q.p, q.oraclePrice, q.m.isPrediction).0 else q.p.baseAssetAmount
  }

  function ProposedRatio(q: Query, sizeChange: int): nat {
    MarketMarginRatio(q.m, ChargedSize(q) + sizeChange, q.category, q.u.maxMarginRatio,
                      q.u.highLeverageMode || q.enteringHighLeverage)
  }

  /** Which way an account moves with the price. A short always loses. A long gains as far as the part of
      it that is not margin outweighs the margin of the orders, so without orders up to a ratio of 100%.
      A prediction market position nets out and leaves only its orders. */
  lemma DeltaSign(q: Query, sizeChange: int)
    requires ChargedSize(q) + sizeChange != 0
    ensures var delta := CollateralDeltaForPerp(q, sizeChange);
            var base := ChargedSize(q) + sizeChange;
            var orders := ChargedSize(q) - q.p.baseAssetAmount;
            var ratio := ProposedRatio(q, sizeChange);
            var free, held := (MARGIN_PRECISION - ratio) * base, ratio * Abs(orders);
            && delta.Some?
            && (q.m.isPrediction && orders == 0 ==> delta.value == 0)
            && (q.m.isPrediction && orders > 0 ==> delta.value <= 0)
            && (q.m.isPrediction && orders < 0 ==> delta.value >= 0)
            && (!q.m.isPrediction && base > 0 && free >= held ==> delta.value >= 0)
            && (!q.m.isPrediction && base > 0 && free <= held ==> delta.value <= 0)
            && (!q.m.isPrediction && base < 0 ==> delta.value <= 0)
  {
    var base := ChargedSize(q) + sizeChange;
    var orders := Abs(ChargedSize(q) - q.p.baseAssetAmount);
    var ratio := ProposedRatio(q, sizeChange);
    hide MarketMarginRatio, WorstCasePerpLiability, Quot, Rem;
    DivMultiple(ratio * 100, MARGIN_PRECISION);
    assert ratio * QUOTE_PRECISION == ratio * 100 * MARGIN_PRECISION;
    SignOfScaled(-QUOTE_PRECISION - ratio * 100, Abs(base));
    SignOfScaled(ratio * 100, orders);
    DivMultiple(0, BASE_PRECISION);
    HundredTimes(QUOTE_PRECISION - ratio * 100, MARGIN_PRECISION - ratio, base);
    HundredTimes(ratio * 100, ratio, orders);
    var free, held := (QUOTE_PRECISION - ratio * 100) * base, ratio * 100 * orders;
    if free >= held {
      DivMono(held, free, BASE_PRECISION);
    }
    if free <= held {
      DivMono(free, held, BASE_PRECISION);
    }
    hide Div;
  }

  lemma HundredTimes(x: int, y: int, n: int)
    requires x == 100 * y
    ensures x * n == 100 * (y * n)
  {
  }

  /** A deposit gains with the price by its tokens at its asset weight, a borrow loses by its tokens at
      its liability weight, cut to whole units. */
  lemma SpotDeltaFits(s: SpotLeg)
    ensures Truncates(CollateralDeltaForSpot(s),
                      if s.signedTokenAmount > 0 then 100 * s.assetWeight * s.signedTokenAmount
                      else 100 * s.liabilityWeight * s.signedTokenAmount,
                      Pow10(s.decimals))
  {
    hide Quot, Rem, Pow10;
    DivMultiple(100 * s.assetWeight, SPOT_MARKET_WEIGHT_PRECISION);
    DivMultiple(-100 * s.liabilityWeight, SPOT_MARKET_WEIGHT_PRECISION);
    var n := if s.signedTokenAmount > 0 then 100 * s.assetWeight * s.signedTokenAmount
             else 100 * s.liabilityWeight * s.signedTokenAmount;
    DivTruncates(n, Pow10(s.decimals));
    assert QUOTE_PRECISION * s.assetWeight == 100 * s.assetWeight * SPOT_MARKET_WEIGHT_PRECISION;
    assert -QUOTE_PRECISION * s.liabilityWeight == -100 * s.liabilityWeight * SPOT_MARKET_WEIGHT_PRECISION;
    hide Div;
    NegMul(100 * s.liabilityWeight, Abs(s.signedTokenAmount));
    var size: int := Abs(s.signedTokenAmount);
    assert 100 * s.liabilityWeight * (0 - size) == 0 - 100 * s.liabilityWeight * size;
    assert -100 * s.liabilityWeight == -(100 * s.liabilityWeight);
  }

  /** What a spot balance with the same oracle adds to the perp's delta: its own, times the multiple. */
  lemma SpotLegAdds(q: Query, sizeChange: int)
    requires WellFormed(q) && q.spot.Some?
    requires CollateralDeltaForPerp(q, sizeChange).Some?
    ensures CollateralDelta(q, sizeChange).Some?
    ensures Truncates(CollateralDelta(q, sizeChange).value - CollateralDeltaForPerp(q, sizeChange).value,
                      CollateralDeltaForSpot(q.spot.value) * q.spot.value.numerator, q.spot.value.denominator)
  {
    hide Div, CollateralDeltaForPerp, CollateralDeltaForSpot;
    DivTruncates(CollateralDeltaForSpot(q.spot.value) * q.spot.value.numerator, q.spot.value.denominator);
  }

  lemma SignOfScaled(unit: int, size: nat)
    ensures unit >= 0 ==> Div(unit * size, BASE_PRECISION) >= 0
    ensures unit <= 0 ==> Div(unit * size, BASE_PRECISION) <= 0
  {
    if unit >= 0 {
      MulMono(0, unit, size);
    }
    if unit <= 0 {
      MulMono(unit, 0, size);
    }
    DivBounds(unit * size, BASE_PRECISION);
  }
}
