/** The liquidation price of a perp position whose account also holds the market's token in spot: the
    delta it is worked out on, against the spot totals recomputed at the new price. */
module SpotLegMargin {
  import opened Bn
  import opened LpSettlement
  import opened PerpMargin
  import opened TradeSize
  import LP = LiquidationPrice
  import SV = SpotValue
  import opened SpotAccount
  import opened AccountMargin
  import opened LiquidationMargin

  /** A balance in another market than the quote's, without open orders. */
  predicate PlainLeg(s: Holding) {
    && s.position.marketIndex != SV.QUOTE_SPOT_MARKET_INDEX
    && s.market.marketIndex == s.position.marketIndex
    && s.position.openOrders == 0 && s.position.openBids == s.position.openAsks == 0
  }

  function Priced(s: Holding, price: int): Holding {
    s.(oraclePrice := price)
  }

  function Tokens(s: Holding): int {
    SV.PositionTokens(s.position, s.market)
  }

  function AssetWeightOf(s: Holding): int {
    SV.AssetWeight(Tokens(s), s.oraclePrice, s.market, Some(Maintenance))
  }

  function LiabilityWeightOf(s: Holding): nat {
    SV.LiabilityWeight(Abs(Tokens(s)), s.market, Some(Maintenance))
  }

  // ----- the value of the leg at a price -----

  lemma TokensHaveSide(s: Holding)
    ensures if s.position.balanceType == SV.Deposit then Tokens(s) >= 0 else Tokens(s) <= 0
  {
    if s.position.balanceType == SV.Deposit {
      MulMono(0, s.position.scaledBalance, s.market.cumulativeDepositInterest);
      DivBounds(s.position.scaledBalance * s.market.cumulativeDepositInterest,
                Pow10(SV.INTEREST_DECIMALS - s.market.decimals));
    }
  }

  /** The weight at maintenance depends on the size, not on its sign or the price. */
  lemma WeightsOfLeg(s: Holding, price: int)
    ensures AssetWeightOf(Priced(s, price)) == AssetWeightOf(s) >= 0
    ensures SV.LiabilityWeight(Tokens(s), s.market, Some(Maintenance)) == LiabilityWeightOf(s)
  {
    hide SV.PositionTokens, SV.SizeInReservePrecision, SV.SizeDiscountAssetWeight, SizePremium, SquareRoot, Div;
    SizeOfNegated(Tokens(s), s.market.decimals);
    var size := SV.SizeInReservePrecision(Tokens(s), s.market.decimals);
    DiscountIsNatural(size, s.market.imfFactor, s.market.maintenanceAssetWeight);
    SameSizeSamePremium(size, s.market.imfFactor);
  }

  lemma DiscountIsNatural(size: int, imfFactor: nat, assetWeight: nat)
    ensures SV.SizeDiscountAssetWeight(size, imfFactor, assetWeight) >= 0
  {
    hide SquareRoot, Quot, Rem;
    var root := SquareRoot(Abs(size) * 10 + 1);
    SV.NonNegativeQuotient(root, imfFactor, 100_000);
    DivBounds((SPOT_MARKET_IMF_PRECISION + SPOT_MARKET_IMF_PRECISION / 10) * SV.SPOT_MARKET_WEIGHT_PRECISION,
              SPOT_MARKET_IMF_PRECISION + Div(root * imfFactor, 100_000));
    hide Div;
  }

  lemma SameSizeSamePremium(size: int, imfFactor: nat)
    ensures SizePremium(-size, imfFactor) == SizePremium(size, imfFactor)
  {
    assert Abs(-size) == Abs(size);
  }

  lemma SizeOfNegated(amount: int, decimals: SV.Decimals)
    ensures SV.SizeInReservePrecision(-amount, decimals) == -SV.SizeInReservePrecision(amount, decimals)
  {
    if decimals > 9 {
      DivNegDividend(amount, Pow10(decimals - 9));
    } else {
      DivNegDividend(amount * SV.AMM_RESERVE_PRECISION, Pow10(decimals));
      NegMul(amount, SV.AMM_RESERVE_PRECISION);
    }
  }

  /** What the leg adds at a price: a deposit's value at its weight, or minus a borrow's. */
  function LegValue(s: Holding, price: int): int {
    var value := Div(Abs(Tokens(s)) * price, Pow10(s.market.decimals));
    if Tokens(s) >= 0 then 0 - Net(0, value, AssetWeightNat(s)) else Net(0, value, LiabilityWeightOf(s))
  }

  function AssetWeightNat(s: Holding): nat {
    WeightsOfLeg(s, s.oraclePrice);
    AssetWeightOf(s)
  }

  function ValuationOf(a: Account, t: Terms): Valuation {
    SpotTerms(a.u, t, None)
  }

  lemma TokenValueOf(tokens: int, decimals: SV.Decimals, price: nat)
    ensures SV.StrictTokenValue(tokens, decimals, SV.StrictOraclePrice(price, None))
            == if tokens >= 0 then Div(Abs(tokens) * price, Pow10(decimals))
               else 0 - Div(Abs(tokens) * price, Pow10(decimals))
  {
    if tokens == 0 {
      DivMultiple(0, Pow10(decimals));
    } else if tokens < 0 {
      NegMul(tokens, price);
      DivNegDividend(tokens * price, Pow10(decimals));
    }
  }

  lemma AssetOfLeg(a: Account, s: Holding, t: Terms, price: nat)
    requires PlainLeg(s) && t == MaintenanceAt(t.includeOpenOrders, t.enteringHighLeverage) && Tokens(s) >= 0
    ensures AssetValue(ValuationOf(a, t), Priced(s, price), Tokens(s)) == LegValue(s, price)
  {
    hide Div, SV.AssetWeight, SV.PositionTokens, SV.StrictTokenValue;
    TokenValueOf(Tokens(s), s.market.decimals, price);
    WeightsOfLeg(s, price);
  }

  lemma LiabilityOfLeg(a: Account, s: Holding, t: Terms, price: nat)
    requires PlainLeg(s) && t == MaintenanceAt(t.includeOpenOrders, t.enteringHighLeverage) && Tokens(s) <= 0
    ensures 0 - LiabilityValue(ValuationOf(a, t), Priced(s, price), Tokens(s))
            == Net(0, Div(Abs(Tokens(s)) * price, Pow10(s.market.decimals)), LiabilityWeightOf(s))
  {
    hide Div, SV.LiabilityWeight, SV.PositionTokens, SV.StrictTokenValue;
    TokenValueOf(Tokens(s), s.market.decimals, price);
    WeightsOfLeg(s, price);
    Remainders(Abs(Tokens(s)), price, Pow10(s.market.decimals));
    NegatedValue(Div(Abs(Tokens(s)) * price, Pow10(s.market.decimals)), LiabilityWeightOf(s));
    NegatedValue(0, LiabilityWeightOf(s));
    if Tokens(s) == 0 {
      DivMultiple(0, Pow10(s.market.decimals));
    }
  }

  lemma NegatedValue(value: nat, weight: nat)
    ensures Abs(Div((0 - value) * weight, MARGIN_PRECISION)) == Div(value * weight, MARGIN_PRECISION)
  {
    Remainders(value, weight, MARGIN_PRECISION);
    NegMul(value, weight);
    DivNegDividend(value * weight, MARGIN_PRECISION);
    hide Div;
  }

  lemma NothingOwned(s: Holding)
    requires s.position.scaledBalance == 0
    ensures Tokens(s) == 0
  {
    var unit := Pow10(SV.INTEREST_DECIMALS - s.market.decimals);
    DivMultiple(0, unit);
    assert 0 * s.market.cumulativeDepositInterest == 0 * s.market.cumulativeBorrowInterest == 0;
    ModOfMultiple(0, unit);
    hide Div, Mod;
  }

  lemma NoValueOfNothing(s: Holding, price: int)
    requires Tokens(s) == 0
    ensures LegValue(s, price) == 0
    ensures Net(0, Div(Abs(Tokens(s)) * price, Pow10(s.market.decimals)), LiabilityWeightOf(s)) == 0
  {
    hide SV.PositionTokens, SV.AssetWeight, SV.LiabilityWeight;
    assert 0 * price == 0 && 0 * AssetWeightNat(s) == 0 && 0 * LiabilityWeightOf(s) == 0;
    DivMultiple(0, Pow10(s.market.decimals));
    DivMultiple(0, MARGIN_PRECISION);
    hide Div;
  }

  lemma AppraisalOfLeg(v: Valuation, s: Holding)
    requires PlainLeg(s)
    ensures var x := Appraise(v, s);
            && x.marketIndex != SV.QUOTE_SPOT_MARKET_INDEX
            && (x.available <==> s.position.scaledBalance == 0)
            && (x.isBorrow <==> s.position.balanceType == SV.Borrow)
            && x.balanceAssets == x.worstAssets == AssetValue(v, s, Tokens(s))
            && x.balanceLiability == x.worstLiability == LiabilityValue(v, s, Tokens(s))
            && x.worstTokens == Tokens(s) && x.ordersQuote == 0
  {
    hide AssetValue, LiabilityValue, SV.PositionTokens, SV.WeightedTokenValue, SV.StrictTokenValue;
  }

  /** The leg's contribution to net spot value. */
  lemma SignedLeg(a: Account, s: Holding, t: Terms, price: nat)
    requires PlainLeg(s) && t == MaintenanceAt(t.includeOpenOrders, t.enteringHighLeverage)
    ensures SignedValue(t.includeOpenOrders, Appraise(ValuationOf(a, t), Priced(s, price))) == LegValue(s, price)
  {
    hide Appraise, Div, AssetValue, LiabilityValue, SV.PositionTokens, LegValue, Net, LiabilityWeightOf;
    AppraisalOfLeg(ValuationOf(a, t), Priced(s, price));
    TokensHaveSide(s);
    if s.position.scaledBalance == 0 {
      NothingOwned(s);
    }
    if Tokens(s) >= 0 {
      AssetOfLeg(a, s, t, price);
    }
    if Tokens(s) <= 0 {
      LiabilityOfLeg(a, s, t, price);
    }
    if Tokens(s) == 0 {
      NoValueOfNothing(s, price);
    } else if Tokens(s) < 0 {
      LegOfBorrow(s, price);
    }
  }

  lemma LegOfBorrow(s: Holding, price: int)
    requires Tokens(s) < 0
    ensures LegValue(s, price) == Net(0, Div(Abs(Tokens(s)) * price, Pow10(s.market.decimals)), LiabilityWeightOf(s))
  {
  }

  // ----- the account with the leg repriced -----

  /** The account when the price is `price`: the leg moves with the oracle, the other spot positions do not. */
  function Repriced(a: Account, leg: nat, price: int): Account
    requires leg < |a.spots|
  {
    a.(spots := a.spots[leg := Priced(a.spots[leg], price)])
  }

  lemma {:induction false} SumSignedOfOneChanged(withOrders: bool, xs: seq<Appraisal>, ys: seq<Appraisal>,
                                                 k: nat, n: nat)
    requires |xs| == |ys| && k < |xs| && n <= |xs|
    requires forall i :: 0 <= i < |xs| && i != k ==> xs[i] == ys[i]
    requires OrderMargin(xs[k]) == OrderMargin(ys[k])
    ensures SumSigned(withOrders, ys, n) - SumSigned(withOrders, xs, n)
            == if k < n then SignedValue(withOrders, ys[k]) - SignedValue(withOrders, xs[k]) else 0
    ensures SumOrderMargin(ys, n) == SumOrderMargin(xs, n)
  {
    hide SignedValue, OrderMargin;
    if n != 0 {
      SumSignedOfOneChanged(withOrders, xs, ys, k, n - 1);
    }
  }

  /** Repricing the leg moves what the spot positions leave to spare by the change of the leg's value. */
  lemma SpotSpareMoves(a: Account, leg: nat, t: Terms, price: nat, price': nat)
    requires leg < |a.spots| && PlainLeg(a.spots[leg])
    requires t == MaintenanceAt(t.includeOpenOrders, t.enteringHighLeverage)
    ensures SpotSpare(Repriced(a, leg, price'), t) - SpotSpare(Repriced(a, leg, price), t)
            == LegValue(a.spots[leg], price') - LegValue(a.spots[leg], price)
  {
    hide Appraise, SignedValue, LegValue, Totals, PlainLeg, OrderMargin, SumSigned, SumOrderMargin;
    var v := ValuationOf(a, t);
    var xs, ys := Repriced(a, leg, price).spots, Repriced(a, leg, price').spots;
    NetValueDecomposes(v, xs);
    NetValueDecomposes(v, ys);
    SignedLeg(a, a.spots[leg], t, price);
    SignedLeg(a, a.spots[leg], t, price');
    SameOrderMargin(v, a.spots[leg], price, price');
    SumSignedOfOneChanged(t.includeOpenOrders, Appraisals(v, xs), Appraisals(v, ys), leg, |xs|);
  }

  lemma SameOrderMargin(v: Valuation, s: Holding, price: int, price': int)
    ensures OrderMargin(Appraise(v, Priced(s, price))) == OrderMargin(Appraise(v, Priced(s, price')))
  {
  }

  // ----- the linear approximation with the leg -----

  function LegShare(s: Holding): int {
    if Tokens(s) >= 0 then 100 * AssetWeightNat(s) else -100 * LiabilityWeightOf(s)
  }

  function LegDelta(s: Holding): int {
    Div(LegShare(s) * Abs(Tokens(s)), Pow10(s.market.decimals))
  }

  function LegSlack(s: Holding, moved: int): nat {
    Abs(moved) + Abs(LegShare(s)) + QUOTE_PRECISION
  }

  lemma LegIsLinear(s: Holding, price: nat, price': nat)
    ensures Abs(QUOTE_PRECISION * (LegValue(s, price') - LegValue(s, price)) - (price' - price) * LegDelta(s))
            < LegSlack(s, price' - price)
  {
    hide SV.PositionTokens, SV.AssetWeight, SV.LiabilityWeight, Div, Net;
    var n, unit := Abs(Tokens(s)), Pow10(s.market.decimals);
    if Tokens(s) >= 0 {
      var w := AssetWeightNat(s);
      LinearError(unit, n, 0, w, price, price');
      NegMul(100 * w, n);
      DivNegDividend(100 * w * n, unit);
      NegatedLinear(price' - price, Div(100 * w * n, unit));
    } else {
      LinearError(unit, n, 0, LiabilityWeightOf(s), price, price');
    }
  }

  lemma NegatedLinear(moved: int, delta: int)
    ensures moved * -delta == -(moved * delta)
  {
  }

  /** Spare collateral at `price`, recomputed for the perp position and the leg alike, is within both
      slacks of the linear approximation from the oracle price they share. */
  lemma LinearWithLeg(a: Account, leg: nat, h: PerpHolding, t: Terms, price: nat)
    requires leg < |a.spots| && PlainLeg(a.spots[leg])
    requires Plain(h) && t == MaintenanceAt(t.includeOpenOrders, t.enteringHighLeverage)
    requires 0 <= h.oraclePrice == a.spots[leg].oraclePrice
    ensures SpareAt(Repriced(a, leg, price), h, t, price).Success? && SpareAt(a, h, t, h.oraclePrice).Success?
    ensures Abs(QUOTE_PRECISION * SpareAt(Repriced(a, leg, price), h, t, price).value
                - LP.CollateralAt(SpareAt(a, h, t, h.oraclePrice).value, DeltaOf(a, h, t) + LegDelta(a.spots[leg]),
                                  h.oraclePrice, price))
            < Slack(a, h, t, price - h.oraclePrice) + LegSlack(a.spots[leg], price - h.oraclePrice)
  {
    hide SpareAt, Div, Net, SpotSpare, UnsettledFundingPnl, OrdersAndLpMargin, MarketMarginRatio, LegValue, LegShare;
    hide PlainLeg, Plain, SV.PositionTokens;
    var x := Repriced(a, leg, price);
    assert Repriced(a, leg, h.oraclePrice) == a;
    SpareInParts(x, h, t, price);
    SpareInParts(a, h, t, h.oraclePrice);
    SpotSpareMoves(a, leg, t, h.oraclePrice, price);
    LegIsLinear(a.spots[leg], h.oraclePrice, price);
    LinearError(BASE_PRECISION, Abs(h.position.baseAssetAmount), Sign(h.position.baseAssetAmount), RatioOf(a, h, t),
                h.oraclePrice, price);
    var net := Net(Sign(h.position.baseAssetAmount), ValueAt(h, price), RatioOf(a, h, t));
    var net0 := Net(Sign(h.position.baseAssetAmount), ValueAt(h, h.oraclePrice), RatioOf(a, h, t));
    var moved := LegValue(a.spots[leg], price) - LegValue(a.spots[leg], h.oraclePrice);
    assert SpareAt(x, h, t, price).value - SpareAt(a, h, t, h.oraclePrice).value == net - net0 + moved;
    hide *;
    ErrorsAdd(SpareAt(x, h, t, price).value, SpareAt(a, h, t, h.oraclePrice).value, net - net0, moved,
              price - h.oraclePrice, DeltaOf(a, h, t), LegDelta(a.spots[leg]),
              Slack(a, h, t, price - h.oraclePrice), LegSlack(a.spots[leg], price - h.oraclePrice));
    CollateralIs(SpareAt(a, h, t, h.oraclePrice).value, DeltaOf(a, h, t) + LegDelta(a.spots[leg]), h.oraclePrice,
                 price);
  }

  lemma CollateralIs(free: int, delta: int, oraclePrice: int, price: int)
    ensures LP.CollateralAt(free, delta, oraclePrice, price) == free * 1_000_000 + (price - oraclePrice) * delta
  {
  }

  lemma ErrorsAdd(spare: int, free: int, x: int, y: int, moved: int, d: int, e: int, slack: nat, slack': nat)
    requires spare - free == x + y
    requires Abs(1_000_000 * x - moved * d) < slack && Abs(1_000_000 * y - moved * e) < slack'
    ensures Abs(1_000_000 * spare - (free * 1_000_000 + moved * (d + e))) < slack + slack'
  {
    assert moved * (d + e) == moved * d + moved * e;
  }

  // ----- the liquidation price with the leg -----

  /** The query names the leg, from an oracle source like the perp's. */
  predicate AsksWithLeg(q: LP.Query, a: Account, leg: nat, h: PerpHolding, t: Terms, free: nat)
    requires leg < |a.spots|
  {
    var s := a.spots[leg];
    && Asks(q.(spot := None), a, h, t, free)
    && q.spot == Some(LegOf(s))
  }

  function LegOf(s: Holding): LP.SpotLeg {
    LP.SpotLeg(Tokens(s), AssetWeightNat(s), LiabilityWeightOf(s), s.market.decimals, 1, 1)
  }

  lemma QueryWithLeg(q: LP.Query, a: Account, leg: nat, h: PerpHolding, t: Terms, free: nat)
    requires leg < |a.spots| && Plain(h) && AsksWithLeg(q, a, leg, h, t, free)
    ensures LP.WellFormed(q)
    ensures LP.FreeCollateral(q, 0) == free
    ensures LP.CollateralDelta(q, 0) == Some(DeltaOf(a, h, t) + LegDelta(a.spots[leg]))
  {
    hide Div, DeltaOf, LP.CollateralDeltaForSpot, EntriesEffect, WorstCasePerpLiability, MarketMarginRatio;
    hide SV.PositionTokens, AssetWeightNat, LiabilityWeightOf, Plain;
    QueryOfPlain(q.(spot := None), a, h, t, free);
    var s := a.spots[leg];
    DeltaOfLeg(s);
    DivMultiple(LP.CollateralDeltaForSpot(q.spot.value), 1);
    assert LP.CollateralDeltaForSpot(q.spot.value) * 1 == LP.CollateralDeltaForSpot(q.spot.value);
  }

  lemma DeltaOfLeg(s: Holding)
    ensures LP.CollateralDeltaForSpot(LegOf(s)) == LegDelta(s)
  {
    var leg := LegOf(s);
    hide SV.PositionTokens, SV.AssetWeight, SV.LiabilityWeight, Quot, Rem;
    DivMultiple(100 * leg.assetWeight, SV.SPOT_MARKET_WEIGHT_PRECISION);
    DivMultiple(-100 * leg.liabilityWeight, SV.SPOT_MARKET_WEIGHT_PRECISION);
    DivMultiple(0, Pow10(s.market.decimals));
    assert QUOTE_PRECISION * leg.assetWeight == 100 * leg.assetWeight * SV.SPOT_MARKET_WEIGHT_PRECISION;
    assert -QUOTE_PRECISION * leg.liabilityWeight == -100 * leg.liabilityWeight * SV.SPOT_MARKET_WEIGHT_PRECISION;
    hide Div;
    assert leg.signedTokenAmount == 0 ==> -100 * leg.liabilityWeight * 0 == 100 * leg.assetWeight * 0;
  }

  /** So the price leaves the account, by the margin state recomputed with the leg at that price, short by
      less than the slacks, and one tick further with less than them to spare. */
  lemma LiquidationPriceWithLeg(a: Account, leg: nat, h: PerpHolding, t: Terms, free: nat, price: nat)
    requires leg < |a.spots| && PlainLeg(a.spots[leg])
    requires Plain(h) && t == MaintenanceAt(t.includeOpenOrders, t.enteringHighLeverage)
    requires 0 <= h.oraclePrice == a.spots[leg].oraclePrice
    ensures var delta := DeltaOf(a, h, t) + LegDelta(a.spots[leg]);
            SpareAt(a, h, t, h.oraclePrice) == Success(free) && delta != 0
            && price == LP.PriceFrom(free, Some(delta), h.oraclePrice) ==>
              && ShortBelow(Repriced(a, leg, price), h, t, price,
                            Slack(a, h, t, price - h.oraclePrice) + LegSlack(a.spots[leg], price - h.oraclePrice))
              && var next := price - Sign(delta);
                 (next >= 0 ==>
                    SpareBelow(Repriced(a, leg, next), h, t, next,
                               Slack(a, h, t, next - h.oraclePrice) + LegSlack(a.spots[leg], next - h.oraclePrice)))
  {
    hide SpareAt, Div, Plain, PlainLeg, Slack, LegSlack, DeltaOf, LegDelta, MaintenanceAt;
    var delta := DeltaOf(a, h, t) + LegDelta(a.spots[leg]);
    if SpareAt(a, h, t, h.oraclePrice) == Success(free) && delta != 0
       && price == LP.PriceFrom(free, Some(delta), h.oraclePrice) {
      LP.LiquidationPriceTight(free, delta, h.oraclePrice);
      LinearWithLeg(a, leg, h, t, price);
      if price - Sign(delta) >= 0 {
        LinearWithLeg(a, leg, h, t, price - Sign(delta));
      }
    }
  }
}
