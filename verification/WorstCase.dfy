/** The outcome of an account's open orders that its margin is computed on is the worse one, and what is
    credited for it is never more than either outcome is worth. */
module WorstCase {
  import opened Bn
  import opened LpSettlement
  import opened PerpMargin
  import SV = SpotValue
  import opened SpotAccount
  import SLM = SpotLegMargin

  // ----- perp positions -----

  /** The liability charged is that of the larger of the two outcomes, filling all bids or all asks, and
      the base is that outcome's. */
  lemma PerpOutcomeIsWorst(p: Position, price: int, isPrediction: bool)
    ensures var (base, liability) := WorstCasePerpLiability(p, price, isPrediction);
            && (base == p.baseAssetAmount + p.openBids || base == p.baseAssetAmount + p.openAsks)
            && liability == PerpLiabilityValue(base, price, isPrediction)
            && liability >= PerpLiabilityValue(p.baseAssetAmount + p.openBids, price, isPrediction)
            && liability >= PerpLiabilityValue(p.baseAssetAmount + p.openAsks, price, isPrediction)
  {
    hide PerpLiabilityValue;
  }

  // ----- spot positions -----

  /** A position after `orders` of its open orders, signed, are filled at the higher price: the tokens it
      has, the quote it pays or gets, and what the two contribute to free collateral at `weight`. */
  predicate Fill(fill: SV.FillSimulation, amount: int, value: int, orders: int, price: int, decimals: SV.Decimals,
                 weight: int)
  {
    && fill.tokenAmount == amount + orders
    && Truncates(fill.ordersValue, -orders * price, Pow10(decimals))
    && Truncates(fill.contribution - fill.ordersValue, (value - fill.ordersValue) * weight,
                 SV.SPOT_MARKET_WEIGHT_PRECISION)
  }

  /** The weight of what is left: an asset's if it is worth something, a liability's if it owes, and no
      better than the account's own margin ratio allows for initial margin outside the quote market. */
  predicate Weighs(weight: int, tokens: int, value: int, oraclePrice: int, m: SV.SpotMarket,
                   category: Option<MarginCategory>, customMarginRatio: nat)
  {
    var market := if value >= 0 then SV.AssetWeight(tokens, oraclePrice, m, category)
                  else SV.LiabilityWeight(Abs(tokens), m, category);
    var custom := category == Some(Initial) && customMarginRatio != 0 && m.marketIndex != SV.QUOTE_SPOT_MARKET_INDEX;
    if !custom then weight == market
    else if value >= 0 then
      && weight <= market
      && (weight == market || weight == SV.SPOT_MARKET_WEIGHT_PRECISION - customMarginRatio || weight == 0)
      && weight <= Max(0, SV.SPOT_MARKET_WEIGHT_PRECISION - customMarginRatio)
    else
      && weight >= market
      && weight >= SV.SPOT_MARKET_WEIGHT_PRECISION + customMarginRatio
      && (weight == market || weight == SV.SPOT_MARKET_WEIGHT_PRECISION + customMarginRatio)
  }

  lemma SimulationIsFill(amount: int, value: int, orders: int, price: SV.StrictOraclePrice, m: SV.SpotMarket,
                         category: Option<MarginCategory>, customMarginRatio: nat)
    ensures var fill := SV.SimulateOrderFill(amount, value, orders, price, m, category, customMarginRatio);
            Fill(fill, amount, value, orders, price.Highest(), m.decimals,
                 WeightOf(amount + orders, value - fill.ordersValue, price.current, m, category, customMarginRatio))
  {
    hide Div, SV.AssetWeight, SV.LiabilityWeight, WeightOf;
    var fill := SV.SimulateOrderFill(amount, value, orders, price, m, category, customMarginRatio);
    var weight := WeightOf(amount + orders, value - fill.ordersValue, price.current, m, category, customMarginRatio);
    WeightedByIt(amount + orders, value - fill.ordersValue, price.current, m, category, customMarginRatio);
    DivTruncates(-orders * price.Highest(), Pow10(m.decimals));
    DivTruncates((value - fill.ordersValue) * weight, SV.SPOT_MARKET_WEIGHT_PRECISION);
    assert 0 * price.Highest() == 0;
  }

  function WeightOf(tokens: int, value: int, oraclePrice: int, m: SV.SpotMarket, category: Option<MarginCategory>,
                    customMarginRatio: nat): (weight: int)
    ensures Weighs(weight, tokens, value, oraclePrice, m, category, customMarginRatio)
  {
    var market := if value >= 0 then SV.AssetWeight(tokens, oraclePrice, m, category)
                  else SV.LiabilityWeight(Abs(tokens), m, category);
    if category != Some(Initial) || customMarginRatio == 0 || m.marketIndex == SV.QUOTE_SPOT_MARKET_INDEX then market
    else if value >= 0 then Min(market, Max(0, SV.SPOT_MARKET_WEIGHT_PRECISION - customMarginRatio))
    else Max(market, SV.SPOT_MARKET_WEIGHT_PRECISION + customMarginRatio)
  }

  lemma WeightedByIt(tokens: int, value: int, oraclePrice: int, m: SV.SpotMarket, category: Option<MarginCategory>,
                     customMarginRatio: nat)
    ensures SV.WeightedTokenValue(tokens, value, oraclePrice, m, category, customMarginRatio)
            == Div(value * WeightOf(tokens, value, oraclePrice, m, category, customMarginRatio),
                   SV.SPOT_MARKET_WEIGHT_PRECISION)
  {
    hide Div, SV.AssetWeight, SV.LiabilityWeight;
  }

  function BalanceValue(p: SV.SpotPosition, m: SV.SpotMarket, price: SV.StrictOraclePrice): int {
    SV.StrictTokenValue(SV.PositionTokens(p, m), m.decimals, price)
  }

  function FillOf(p: SV.SpotPosition, m: SV.SpotMarket, price: SV.StrictOraclePrice, category: Option<MarginCategory>,
                  customMarginRatio: nat, orders: int): SV.FillSimulation
  {
    SV.SimulateOrderFill(SV.PositionTokens(p, m), BalanceValue(p, m, price), orders, price, m, category,
                         customMarginRatio)
  }

  /** The outcome chosen is filling all bids or filling all asks, whichever contributes less, for every
      position, market, price and category. */
  lemma SpotOutcomeIsWorst(p: SV.SpotPosition, m: SV.SpotMarket, price: SV.StrictOraclePrice,
                           category: Option<MarginCategory>, customMarginRatio: nat)
    ensures var worst := SV.WorstCaseTokenAmounts(p, m, price, category, customMarginRatio);
            var bids := FillOf(p, m, price, category, customMarginRatio, p.openBids);
            var asks := FillOf(p, m, price, category, customMarginRatio, p.openAsks);
            && (worst == bids || worst == asks)
            && worst.contribution <= bids.contribution && worst.contribution <= asks.contribution
  {
    hide Div, SV.WeightedTokenValue, SV.PositionTokens, SV.StrictTokenValue, Pow10;
  }

  // ----- what is credited for the outcome -----

  /** The prices are not negative, and the twap does not lower the price of tokens that are held and sold. */
  predicate Orderly(price: SV.StrictOraclePrice, amount: int, orders: int) {
    0 <= price.Lowest() && (amount <= 0 || orders >= 0 || price.Lowest() == price.Highest())
  }

  lemma TruncatedOrder(q: int, n: int, q': int, n': int, d: int)
    requires 0 < d && Truncates(q, n, d) && Truncates(q', n', d) && n <= n'
    ensures q <= q'
  {
    if q > q' {
      MulMono(q' + 1, q, d);
    }
  }

  /** Truncating the parts of a sum instead of the sum is off by at most one. */
  lemma TruncatedSum(x: int, nx: int, y: int, ny: int, z: int, nz: int, d: int)
    requires 0 < d && Truncates(x, nx, d) && Truncates(y, ny, d) && Truncates(z, nz, d)
    requires nz <= nx + ny
    ensures z <= x + y + 1
  {
    assert (x + y + 2) * d == x * d + y * d + 2 * d;
    assert (x + 1) * d == x * d + d && (y + 1) * d == y * d + d && (z - 1) * d == z * d - d;
    if z > x + y + 1 {
      MulMono(x + y + 2, z, d);
    }
  }

  lemma StrictValueTruncates(amount: int, decimals: SV.Decimals, price: SV.StrictOraclePrice)
    ensures Truncates(SV.StrictTokenValue(amount, decimals, price),
                      amount * (if amount >= 0 then price.Lowest() else price.Highest()), Pow10(decimals))
    ensures Truncates(0 - SV.TokenValue(-amount, decimals, price.Highest()), amount * price.Highest(), Pow10(decimals))
  {
    hide Quot, Rem;
    var used := if amount >= 0 then price.Lowest() else price.Highest();
    DivTruncates(amount * used, Pow10(decimals));
    NegMul(amount, price.Highest());
    DivNegDividend(amount * price.Highest(), Pow10(decimals));
    DivTruncates(amount * price.Highest(), Pow10(decimals));
    assert 0 * used == 0 && 0 * price.Highest() == 0;
    hide Div;
  }

  /** What is left after an orderly fill is worth at most one unit more than the balance and the orders,
      each valued by itself. */
  lemma ValueAfterFill(amount: int, orders: int, decimals: SV.Decimals, price: SV.StrictOraclePrice)
    requires Orderly(price, amount, orders)
    ensures SV.StrictTokenValue(amount + orders, decimals, price)
            <= SV.StrictTokenValue(amount, decimals, price) - SV.TokenValue(-orders, decimals, price.Highest()) + 1
  {
    hide SV.StrictTokenValue, SV.TokenValue;
    StrictValueTruncates(amount, decimals, price);
    StrictValueTruncates(orders, decimals, price);
    StrictValueTruncates(amount + orders, decimals, price);
    var low, high := price.Lowest(), price.Highest();
    var p := if amount >= 0 then low else high;
    var p' := if amount + orders >= 0 then low else high;
    SplitValue(amount, orders, low, high);
    TruncatedSum(SV.StrictTokenValue(amount, decimals, price), amount * p,
                 0 - SV.TokenValue(-orders, decimals, high), orders * high,
                 SV.StrictTokenValue(amount + orders, decimals, price), (amount + orders) * p', Pow10(decimals));
  }

  lemma SplitValue(amount: int, orders: int, low: int, high: int)
    requires low <= high && (amount <= 0 || orders >= 0 || low == high)
    ensures (amount + orders) * (if amount + orders >= 0 then low else high)
            <= amount * (if amount >= 0 then low else high) + orders * high
  {
    assert (amount + orders) * low == amount * low + orders * low;
    assert (amount + orders) * high == amount * high + orders * high;
    if amount + orders >= 0 {
      if orders >= 0 {
        MulMono(low, high, orders);
      }
      if amount < 0 {
        MulMono(low, high, amount + orders);
      }
    }
  }

  lemma StepUp(n: int, w: nat, d: int)
    requires 0 < d
    ensures Div(n + w, d) <= Div(n, d) + w / d + 1
  {
    DivTruncates(n + w, d);
    DivTruncates(n, d);
    QuotRem(w, d);
    QuotIsQuotient(w, d);
    StepUpFrom(n, w, d, Div(n, d), Div(n + w, d), w / d);
  }

  lemma StepUpFrom(n: int, w: nat, d: int, q: int, q': int, k: int)
    requires 0 < d && Truncates(q, n, d) && Truncates(q', n + w, d) && w < k * d + d
    ensures q' <= q + k + 1
  {
    assert (q + k + 2) * d == q * d + k * d + 2 * d;
    assert (q + 1) * d == q * d + d && (q' - 1) * d == q' * d - d;
    if q' > q + k + 1 {
      MulMono(q + k + 2, q', d);
    }
  }

  /** The credit for a value that is at most one unit above another, at a weight no better. */
  lemma CreditAtWeight(value: int, value': int, weight: nat, weight': nat)
    requires value' <= value + 1
    requires value' > 0 ==> weight' <= weight
    requires value' < 0 && value < 0 ==> weight <= weight'
    ensures Div(value' * weight', SV.SPOT_MARKET_WEIGHT_PRECISION)
            <= Div(value * weight, SV.SPOT_MARKET_WEIGHT_PRECISION) + weight / SV.SPOT_MARKET_WEIGHT_PRECISION + 1
  {
    hide Div;
    if value' > 0 {
      MulMono(weight', weight, value');
    } else if value' < 0 && value < 0 {
      MulMono(weight, weight', -value');
      assert weight * -value' == -(value' * weight) && weight' * -value' == -(value' * weight');
    } else if value' >= 0 {
      assert value' == 0;
      assert 0 * weight' == 0 * weight;
    } else {
      MulMono(value', 0, weight');
      MulMono(0, value + 1, weight);
    }
    MulMono(value', value + 1, weight);
    assert (value + 1) * weight == value * weight + weight;
    DivMono(value' * weight', value * weight + weight, SV.SPOT_MARKET_WEIGHT_PRECISION);
    StepUp(value * weight, weight, SV.SPOT_MARKET_WEIGHT_PRECISION);
  }

  // ----- credit for the outcome of a position -----

  lemma AssetWeightIsNatural(tokens: int, oraclePrice: int, m: SV.SpotMarket, category: MarginCategory)
    ensures SV.AssetWeight(tokens, oraclePrice, m, Some(category)) >= 0
  {
    hide SquareRoot, Quot, Rem, SV.SizeInReservePrecision, SV.TokenAmount, SV.TokenValue;
    var size := SV.SizeInReservePrecision(tokens, m.decimals);
    ScaledWeightIsNatural(m, oraclePrice);
    hide SV.ScaledInitialAssetWeight, SV.SizeDiscountAssetWeight;
    SLM.DiscountIsNatural(size, m.imfFactor, m.maintenanceAssetWeight);
    SLM.DiscountIsNatural(size, m.imfFactor, SV.ScaledInitialAssetWeight(m, oraclePrice));
  }

  lemma ScaledWeightIsNatural(m: SV.SpotMarket, oraclePrice: int)
    ensures SV.ScaledInitialAssetWeight(m, oraclePrice) >= 0
  {
    hide Quot, Rem, SV.TokenAmount;
    var value := SV.TokenValue(SV.TokenAmount(m.depositBalance, m, SV.Deposit), m.decimals, oraclePrice);
    if m.scaleInitialAssetWeightStart != 0 && value >= m.scaleInitialAssetWeightStart {
      MulMono(0, m.initialAssetWeight, m.scaleInitialAssetWeightStart);
      DivBounds(m.initialAssetWeight * m.scaleInitialAssetWeightStart, value);
    }
  }

  lemma LiabilityWeightIgnoresSign(tokens: int, m: SV.SpotMarket, category: Option<MarginCategory>)
    ensures SV.LiabilityWeight(tokens, m, category) == SV.LiabilityWeight(Abs(tokens), m, category)
  {
    hide SV.SizeInReservePrecision, SizePremium;
    SLM.SizeOfNegated(tokens, m.decimals);
    SLM.SameSizeSamePremium(SV.SizeInReservePrecision(tokens, m.decimals), m.imfFactor);
  }

  function TokenCredit(v: Valuation, h: Holding, tokens: int): int {
    if tokens > 0 then AssetValue(v, h, tokens)
    else if tokens < 0 then 0 - LiabilityValue(v, h, tokens)
    else 0
  }

  /** The tokens left are credited as an asset, or charged as a liability, at no better than `weight` and
      one unit of value. */
  lemma CreditOfTokens(v: Valuation, h: Holding, tokens: int, value: int)
    requires v.category.Some? && 0 <= PriceOf(v, h).Lowest()
    requires SV.StrictTokenValue(tokens, h.market.decimals, PriceOf(v, h)) <= value + 1
    ensures var weight := WeightOf(tokens, value, h.oraclePrice, h.market, v.category, v.maxMarginRatio);
            && 0 <= weight
            && TokenCredit(v, h, tokens)
               <= Div(value * weight, SV.SPOT_MARKET_WEIGHT_PRECISION) + weight / SV.SPOT_MARKET_WEIGHT_PRECISION + 1
  {
    hide Div, SV.AssetWeight, SV.LiabilityWeight, SV.StrictTokenValue;
    AssetWeightIsNatural(tokens, h.oraclePrice, h.market, v.category.value);
    LiabilityWeightIgnoresSign(tokens, h.market, v.category);
    ValueHasSide(tokens, h.market.decimals, PriceOf(v, h));
    var value' := SV.StrictTokenValue(tokens, h.market.decimals, PriceOf(v, h));
    var weight := WeightOf(tokens, value, h.oraclePrice, h.market, v.category, v.maxMarginRatio);
    var weight' := UsedWeight(v, h, tokens);
    CreditAtWeight(value, value', weight, weight');
    NegatedCredit(value', weight');
    assert 0 * weight' == 0;
    DivMultiple(0, SV.SPOT_MARKET_WEIGHT_PRECISION);
  }

  /** The weight a valuation uses for tokens it has decided to credit or charge. */
  function UsedWeight(v: Valuation, h: Holding, tokens: int): int {
    if tokens > 0 then
      var weight := SV.AssetWeight(tokens, h.oraclePrice, h.market, v.category);
      if v.category == Some(Initial) && h.market.marketIndex != SV.QUOTE_SPOT_MARKET_INDEX
      then Min(weight, Max(0, SV.SPOT_MARKET_WEIGHT_PRECISION - v.maxMarginRatio)) else weight
    else
      SV.AppliedLiabilityWeight(tokens, h.market, v.maxMarginRatio, v.category) + SV.Buffer(v.liquidationBuffer)
  }

  lemma ValueHasSide(tokens: int, decimals: SV.Decimals, price: SV.StrictOraclePrice)
    requires 0 <= price.Lowest()
    ensures tokens >= 0 ==> SV.StrictTokenValue(tokens, decimals, price) >= 0
    ensures tokens <= 0 ==> SV.StrictTokenValue(tokens, decimals, price) <= 0
  {
    hide SV.StrictTokenValue;
    StrictValueTruncates(tokens, decimals, price);
    if tokens >= 0 {
      MulMono(0, tokens, price.Lowest());
    } else {
      MulMono(tokens, 0, price.Highest());
    }
    assert 0 * price.Highest() == 0;
  }

  lemma NegatedCredit(value: int, weight: nat)
    ensures value <= 0 ==> 0 - Abs(Div(value * weight, SV.SPOT_MARKET_WEIGHT_PRECISION))
                           == Div(value * weight, SV.SPOT_MARKET_WEIGHT_PRECISION)
  {
    if value <= 0 {
      MulMono(value, 0, weight);
    }
    DivBounds(value * weight, SV.SPOT_MARKET_WEIGHT_PRECISION);
    hide Div;
  }

  /** Everything the outcomes of a position depend on, in a valuation. */
  function Outcome(v: Valuation, h: Holding, orders: int): SV.FillSimulation {
    FillOf(h.position, h.market, PriceOf(v, h), v.category, v.maxMarginRatio, orders)
  }

  function OutcomeWeight(v: Valuation, h: Holding, orders: int): int {
    var fill := Outcome(v, h, orders);
    WeightOf(fill.tokenAmount, BalanceValue(h.position, h.market, PriceOf(v, h)) - fill.ordersValue, h.oraclePrice,
             h.market, v.category, v.maxMarginRatio)
  }

  /** Neither side's orders are out of order. */
  predicate OrderlyOrders(v: Valuation, h: Holding) {
    var tokens := SV.PositionTokens(h.position, h.market);
    Orderly(PriceOf(v, h), tokens, h.position.openBids) && Orderly(PriceOf(v, h), tokens, h.position.openAsks)
  }

  /** The units of value that rounding may add: one, and one at the weight. */
  function RoundingOf(weight: int): int {
    weight / SV.SPOT_MARKET_WEIGHT_PRECISION + 1
  }

  /** The worst outcome's orders, its weight and what they round up by. */
  function WorstOrders(v: Valuation, h: Holding): int {
    var bids, asks := Outcome(v, h, h.position.openBids), Outcome(v, h, h.position.openAsks);
    if asks.contribution < bids.contribution then h.position.openAsks else h.position.openBids
  }

  lemma WorstOrdersAreWorst(v: Valuation, h: Holding)
    ensures SV.WorstCaseTokenAmounts(h.position, h.market, PriceOf(v, h), v.category, v.maxMarginRatio)
            == Outcome(v, h, WorstOrders(v, h))
    ensures Outcome(v, h, WorstOrders(v, h)).contribution <= Outcome(v, h, h.position.openBids).contribution
    ensures Outcome(v, h, WorstOrders(v, h)).contribution <= Outcome(v, h, h.position.openAsks).contribution
  {
    hide Div, SV.WeightedTokenValue, SV.PositionTokens, SV.StrictTokenValue, Pow10;
  }

  /** A quote's credit is never above it. */
  lemma OrdersQuoteBelow(v: Valuation, ordersValue: int)
    ensures OrdersQuote(v, ordersValue) <= ordersValue
  {
    if ordersValue < 0 {
      var weight := if v.category == Some(Initial) then Max(SPOT_WEIGHT, v.maxMarginRatio) else SPOT_WEIGHT;
      MulMono(SPOT_WEIGHT, weight, Abs(ordersValue));
      DivMono(Abs(ordersValue) * SPOT_WEIGHT, Abs(ordersValue) * weight, SPOT_WEIGHT);
      DivMultiple(Abs(ordersValue), SPOT_WEIGHT);
      hide Div;
    }
  }

  const SPOT_WEIGHT := SV.SPOT_MARKET_WEIGHT_PRECISION

  /** A position with open orders is credited, before the margin for them, at most what filling all its
      bids and what filling all its asks contributes, but for rounding. */
  lemma CreditWithinOutcomes(v: Valuation, h: Holding)
    requires v.category.Some? && OrderlyOrders(v, h)
    requires h.position.marketIndex != SV.QUOTE_SPOT_MARKET_INDEX
    ensures var credit := SignedValue(true, Appraise(v, h));
            var rounding := RoundingOf(OutcomeWeight(v, h, WorstOrders(v, h)));
            h.position.scaledBalance != 0 || h.position.openOrders != 0 ==>
              && credit <= Outcome(v, h, h.position.openBids).contribution + rounding
              && credit <= Outcome(v, h, h.position.openAsks).contribution + rounding
  {
    hide Div, SV.PositionTokens, SV.StrictTokenValue, SV.TokenValue, WeightOf, AssetValue, LiabilityValue, OrdersQuote;
    hide SV.WeightedTokenValue, WorstOrders, Orderly, TokenCredit, Appraise, SignedValue, SV.WorstCaseTokenAmounts;
    var price, decimals := PriceOf(v, h), h.market.decimals;
    var tokens, orders := SV.PositionTokens(h.position, h.market), WorstOrders(v, h);
    WorstOrdersAreWorst(v, h);
    assert orders == h.position.openBids || orders == h.position.openAsks by { WorstOrdersIsOne(v, h); }
    var fill := Outcome(v, h, orders);
    var value := SV.StrictTokenValue(tokens, decimals, price) - fill.ordersValue;
    PricesFromZero(price, tokens, orders);
    ValueAfterFill(tokens, orders, decimals, price);
    CreditOfTokens(v, h, fill.tokenAmount, value);
    WeightedByIt(fill.tokenAmount, value, h.oraclePrice, h.market, v.category, v.maxMarginRatio);
    OrdersQuoteBelow(v, fill.ordersValue);
    if h.position.scaledBalance != 0 || h.position.openOrders != 0 {
      CreditBySide(v, h);
    }
  }

  lemma WorstOrdersIsOne(v: Valuation, h: Holding)
    ensures WorstOrders(v, h) == h.position.openBids || WorstOrders(v, h) == h.position.openAsks
  {
    hide Outcome;
  }

  lemma PricesFromZero(price: SV.StrictOraclePrice, amount: int, orders: int)
    requires Orderly(price, amount, orders)
    ensures 0 <= price.Lowest()
  {
  }

  lemma CreditBySide(v: Valuation, h: Holding)
    requires h.position.marketIndex != SV.QUOTE_SPOT_MARKET_INDEX
    requires h.position.scaledBalance != 0 || h.position.openOrders != 0
    ensures var worst := SV.WorstCaseTokenAmounts(h.position, h.market, PriceOf(v, h), v.category, v.maxMarginRatio);
            SignedValue(true, Appraise(v, h))
            == TokenCredit(v, h, worst.tokenAmount) + OrdersQuote(v, worst.ordersValue)
  {
    hide Div, SV.WorstCaseTokenAmounts, AssetValue, LiabilityValue, OrdersQuote, SV.PositionTokens;
  }

  /** An outcome is its fill: of the position's tokens and their value, at the higher price. */
  lemma OutcomeIsFill(v: Valuation, h: Holding, orders: int)
    ensures Fill(Outcome(v, h, orders), SV.PositionTokens(h.position, h.market),
                 BalanceValue(h.position, h.market, PriceOf(v, h)), orders, PriceOf(v, h).Highest(), h.market.decimals,
                 OutcomeWeight(v, h, orders))
  {
    hide SV.SimulateOrderFill, WeightOf, Fill, SV.PositionTokens, SV.StrictTokenValue;
    var tokens := SV.PositionTokens(h.position, h.market);
    SimulationIsFill(tokens, BalanceValue(h.position, h.market, PriceOf(v, h)), orders, PriceOf(v, h), h.market,
                     v.category, v.maxMarginRatio);
    assert Outcome(v, h, orders).tokenAmount == tokens + orders by { FillTokens(v, h, orders); }
  }

  lemma FillTokens(v: Valuation, h: Holding, orders: int)
    ensures Outcome(v, h, orders).tokenAmount == SV.PositionTokens(h.position, h.market) + orders
  {
    hide SV.PositionTokens, SV.StrictTokenValue, SV.TokenValue, SV.WeightedTokenValue;
  }

  // ----- the whole account -----

  /** The most a position can be credited if all its bids, or all its asks, are filled. */
  function OutcomeBound(v: Valuation, h: Holding, bids: bool): int {
    if SV.IsAvailable(h.position) then 0
    else if h.position.marketIndex == SV.QUOTE_SPOT_MARKET_INDEX then SignedValue(true, Appraise(v, h))
    else
      Outcome(v, h, if bids then h.position.openBids else h.position.openAsks).contribution
      + RoundingOf(OutcomeWeight(v, h, WorstOrders(v, h)))
  }

  function SumBounds(v: Valuation, holdings: seq<Holding>, picks: seq<bool>, n: nat): int
    requires n <= |holdings| == |picks|
  {
    if n == 0 then 0 else SumBounds(v, holdings, picks, n - 1) + OutcomeBound(v, holdings[n - 1], picks[n - 1])
  }

  lemma SignedWithinBound(v: Valuation, h: Holding, bids: bool)
    requires v.category.Some?
    requires h.position.marketIndex != SV.QUOTE_SPOT_MARKET_INDEX ==> OrderlyOrders(v, h)
    ensures SignedValue(true, Appraise(v, h)) <= OutcomeBound(v, h, bids)
  {
    hide Outcome, OutcomeWeight, WorstOrders, OrderlyOrders, Appraise, RoundingOf, SignedValue;
    if h.position.marketIndex != SV.QUOTE_SPOT_MARKET_INDEX {
      CreditWithinOutcomes(v, h);
    }
    if SV.IsAvailable(h.position) {
      NothingIsCredited(v, h);
    }
  }

  lemma NothingIsCredited(v: Valuation, h: Holding)
    requires SV.IsAvailable(h.position)
    ensures SignedValue(true, Appraise(v, h)) == 0
  {
    hide SV.WorstCaseTokenAmounts, AssetValue, LiabilityValue, SV.PositionTokens;
  }

  lemma {:induction false} SumsWithinBounds(v: Valuation, holdings: seq<Holding>, picks: seq<bool>, n: nat)
    requires n <= |holdings| == |picks| && v.category.Some?
    requires forall i :: 0 <= i < |holdings| ==>
      holdings[i].position.marketIndex != SV.QUOTE_SPOT_MARKET_INDEX ==> OrderlyOrders(v, holdings[i])
    ensures SumSigned(true, Appraisals(v, holdings), n) <= SumBounds(v, holdings, picks, n)
  {
    hide Appraise, SignedValue, OutcomeBound, OrderlyOrders;
    if n != 0 {
      SumsWithinBounds(v, holdings, picks, n - 1);
      SignedWithinBound(v, holdings[n - 1], picks[n - 1]);
    }
  }

  /** However the open orders are filled, all bids or all asks in each market, the valuation with orders
      credits the account at most what it then has, but for rounding, less the margin for the orders. */
  lemma TotalsWithinOutcomes(v: Valuation, holdings: seq<Holding>, picks: seq<bool>)
    requires v.filter == None && v.includeOpenOrders && v.category.Some? && |holdings| == |picks|
    requires forall i :: 0 <= i < |holdings| ==>
      holdings[i].position.marketIndex != SV.QUOTE_SPOT_MARKET_INDEX ==> OrderlyOrders(v, holdings[i])
    ensures var (assets, liabilities) := Totals(v, holdings);
            assets - liabilities <= SumBounds(v, holdings, picks, |holdings|)
                                    - SumOrderMargin(Appraisals(v, holdings), |holdings|)
  {
    hide Totals, SumSigned, SumOrderMargin, SumBounds, OrderlyOrders;
    NetValueDecomposes(v, holdings);
    SumsWithinBounds(v, holdings, picks, |holdings|);
  }

  // ----- a sale at two prices -----

  /** Ten tokens, all offered for sale, with the oracle at 100 and its twap at 200. */
  predicate SaleAtTwoPrices(v: Valuation, h: Holding) {
    && v.strict && v.category == Some(Maintenance) && h.oraclePrice == 100 && h.liveTwap == 200
    && h.position == SV.SpotPosition(1, 10, SV.Deposit, 1, 0, -10)
    && h.market.decimals == 0 && h.market.cumulativeDepositInterest == Pow10(SV.INTEREST_DECIMALS)
    && h.market.imfFactor == 0 && h.market.maintenanceAssetWeight == 10_000
    && h.market.maintenanceLiabilityWeight == 12_000
  }

  lemma SaleTokens(h: Holding)
    requires h.position.scaledBalance == 10 && h.position.balanceType == SV.Deposit && h.market.decimals == 0
    requires h.market.cumulativeDepositInterest == Pow10(SV.INTEREST_DECIMALS)
    ensures SV.PositionTokens(h.position, h.market) == 10
  {
    DivMultiple(10, Pow10(SV.INTEREST_DECIMALS));
    hide Div, Pow10;
  }

  /** A strict valuation weighs the sale down with the low price of the tokens and the high one of the
      proceeds, picks it as the worse outcome at 800, and then credits its proceeds in full, at 2000. */
  lemma StrictSaleIsOvercredited(v: Valuation, h: Holding)
    requires SaleAtTwoPrices(v, h)
    ensures Outcome(v, h, h.position.openBids).contribution == 1_000
    ensures Outcome(v, h, h.position.openAsks).contribution == 800
    ensures SignedValue(true, Appraise(v, h)) == 2_000
    ensures !OrderlyOrders(v, h)
  {
    SaleTokens(h);
    SaleOutcomes(v, h);
    assert WorstOrders(v, h) == -10;
    WorstOrdersAreWorst(v, h);
    hide Outcome, WorstOrders, SV.PositionTokens, SV.WorstCaseTokenAmounts, AssetValue, LiabilityValue, Div;
    CreditBySide(v, h);
  }

  lemma SaleOutcomes(v: Valuation, h: Holding)
    requires SaleAtTwoPrices(v, h) && SV.PositionTokens(h.position, h.market) == 10
    ensures Outcome(v, h, 0) == SV.FillSimulation(10, 0, 1_000)
    ensures Outcome(v, h, -10) == SV.FillSimulation(0, 2_000, 800)
  {
    hide SV.PositionTokens, SV.SizeInReservePrecision, Quot, Rem;
    DivMultiple(1_000, Pow10(0));
    DivMultiple(2_000, Pow10(0));
    DivMultiple(1_000, 10_000);
    DivMultiple(-1_200, 10_000);
    hide Div;
  }
}
