/** How good the size is that the search for a trade starts from, for an account without open orders in a
    market whose margin ratio does not grow with size. */
module StartingTrade {
  import opened Bn
  import opened LpSettlement
  import opened PerpMargin
  import opened TradeSize

  /** No open orders, no LP buffer, no premium for size, a price and a ratio above zero, and no
      prediction market. */
  predicate Simple(t: Trade) {
    && t.p.openBids == t.p.openAsks == 0 && !t.isLp
    && t.m.imfFactor == 0 && !t.m.isPrediction
    && 0 < t.oraclePrice && 0 < Ratio(t)
    && t.fees.denominator != 0
  }

  function Ratio(t: Trade): nat {
    RatioFor(t, 0, t.enterHighLeverage)
  }

  /** The value of a base amount, and the margin for a value. */
  function Worth(t: Trade, base: nat): int {
    Div(base * t.oraclePrice, BASE_PRECISION)
  }

  function Margin(t: Trade, value: int): int {
    Div(value * Ratio(t), MARGIN_PRECISION)
  }

  /** The margin of the position as it is. */
  function MarginNow(t: Trade): int {
    Margin(t, Worth(t, Abs(t.p.baseAssetAmount)))
  }

  lemma SimpleMargin(t: Trade, base: int)
    requires Simple(t)
    ensures MarginAfter(t, base) == Margin(t, Worth(t, Abs(base)))
  {
    hide Div;
  }

  lemma SimpleStart(t: Trade)
    requires Simple(t)
    ensures StartingSize(t).Success?
    ensures var (size, opposite) := StartingSize(t).value;
            && opposite == (if Opposite(t) then Worth(t, Abs(t.p.baseAssetAmount)) else 0)
            && Truncates(size - opposite, t.freeCollateral * MARGIN_PRECISION, Ratio(t))
            && size >= opposite
  {
    hide Div;
    StartingSizeMeans(t);
    assert RatioFor(t, WorstCasePerpLiability(t.p, t.oraclePrice, t.m.isPrediction).0, t.enterHighLeverage) == Ratio(t);
  }

  // ----- bounds on worth and margin -----

  lemma WorthBounds(t: Trade, base: nat)
    requires 0 < t.oraclePrice
    ensures 0 <= Worth(t, base)
    ensures Worth(t, base) * BASE_PRECISION <= base * t.oraclePrice < Worth(t, base) * BASE_PRECISION + BASE_PRECISION
  {
    MulMono(0, base, t.oraclePrice);
    DivBounds(base * t.oraclePrice, BASE_PRECISION);
    hide Div;
  }

  lemma MarginBounds(t: Trade, value: nat)
    ensures 0 <= Margin(t, value)
    ensures Margin(t, value) * MARGIN_PRECISION <= value * Ratio(t)
            < Margin(t, value) * MARGIN_PRECISION + MARGIN_PRECISION
  {
    MulMono(0, value, Ratio(t));
    DivBounds(value * Ratio(t), MARGIN_PRECISION);
    hide Div;
  }

  /** The unsigned base amount of a trade of `size`. */
  function BaseOf(t: Trade, size: nat): nat
    requires 0 < t.oraclePrice
  {
    DivBounds(size * BASE_PRECISION, t.oraclePrice);
    Div(size * BASE_PRECISION, t.oraclePrice)
  }

  lemma BaseBounds(t: Trade, size: nat)
    requires 0 < t.oraclePrice
    ensures BaseOf(t, size) * t.oraclePrice <= size * BASE_PRECISION < BaseOf(t, size) * t.oraclePrice + t.oraclePrice
    ensures BaseTradeSize(t, size) == if t.side == Long then BaseOf(t, size) else 0 - BaseOf(t, size)
  {
    DivBounds(size * BASE_PRECISION, t.oraclePrice);
    hide Div;
  }

  /** The base amount held after the trade, whichever way it points. */
  function HeldAfter(t: Trade, size: nat): nat
    requires 0 < t.oraclePrice
  {
    var base := Abs(t.p.baseAssetAmount);
    if Opposite(t) then Abs(BaseOf(t, size) - base) else base + BaseOf(t, size)
  }

  lemma AffordableMeans(t: Trade, size: nat)
    requires Simple(t)
    ensures Affordable(t, size) <==> Margin(t, Worth(t, HeldAfter(t, size))) - MarginNow(t) <= t.freeCollateral
  {
    hide Effect, MarginAfter, Margin, Worth, BaseTradeSize, BaseOf, Simple, MarketMarginRatio;
    assert 0 < t.oraclePrice && t.fees.denominator != 0 by { SimplePrice(t); }
    EffectIsMarginChange(t, size);
    BaseBounds(t, size);
    var base, after := t.p.baseAssetAmount, t.p.baseAssetAmount + BaseTradeSize(t, size);
    SimpleMargin(t, base);
    SimpleMargin(t, after);
    assert Abs(after) == HeldAfter(t, size);
  }

  lemma SimplePrice(t: Trade)
    requires Simple(t)
    ensures 0 < t.oraclePrice && 0 < Ratio(t) && t.fees.denominator != 0
  {
  }

  // ----- how large an affordable trade can be -----

  /** What closing an opposite position takes out of a trade, and the margin that it frees. */
  function Closing(t: Trade): int {
    if Opposite(t) then Worth(t, Abs(t.p.baseAssetAmount)) else 0
  }

  function Freed(t: Trade): int {
    if Opposite(t) then MarginNow(t) else 0
  }

  /** The part of the trade beyond closing is worth at most one unit less than its size says, and the
      price of a unit of base. */
  lemma WorthBeyondClosing(t: Trade, size: nat)
    requires Simple(t) && Opposite(t) && BaseOf(t, size) >= Abs(t.p.baseAssetAmount)
    ensures (size - Closing(t) - 2 - Worth(t, HeldAfter(t, size))) * BASE_PRECISION < t.oraclePrice
    ensures Worth(t, HeldAfter(t, size)) <= size - Closing(t)
  {
    hide Worth, BaseOf, MarketMarginRatio;
    var base, traded := Abs(t.p.baseAssetAmount), BaseOf(t, size);
    WorthBounds(t, base);
    WorthBounds(t, traded - base);
    BaseBounds(t, size);
    assert (traded - base) * t.oraclePrice == traded * t.oraclePrice - base * t.oraclePrice;
  }

  /** In the direction of the position what is added is worth at least its size less one unit and the
      price of a unit of base. */
  lemma WorthAdded(t: Trade, size: nat)
    requires Simple(t)
    ensures (size - 1 - Worth(t, BaseOf(t, size))) * BASE_PRECISION < t.oraclePrice
    ensures Worth(t, BaseOf(t, size)) <= size
    ensures 0 <= Worth(t, Abs(t.p.baseAssetAmount) + BaseOf(t, size))
                 - Worth(t, Abs(t.p.baseAssetAmount)) - Worth(t, BaseOf(t, size)) <= 1
  {
    hide Worth, BaseOf, MarketMarginRatio;
    var base, traded := Abs(t.p.baseAssetAmount), BaseOf(t, size);
    WorthBounds(t, base);
    WorthBounds(t, traded);
    WorthBounds(t, base + traded);
    BaseBounds(t, size);
    assert (base + traded) * t.oraclePrice == base * t.oraclePrice + traded * t.oraclePrice;
  }

  lemma MarginOfSum(t: Trade, x: nat, y: nat)
    ensures 0 <= Margin(t, x + y) - Margin(t, x) - Margin(t, y) <= 1
  {
    hide Margin, RatioFor;
    MarginBounds(t, x);
    MarginBounds(t, y);
    MarginBounds(t, x + y);
    assert (x + y) * Ratio(t) == x * Ratio(t) + y * Ratio(t);
  }

  lemma MarginMono(t: Trade, x: nat, y: nat)
    requires x <= y
    ensures 0 <= Margin(t, x) <= Margin(t, y)
  {
    hide Div, RatioFor;
    MulMono(0, x, Ratio(t));
    MulMono(x, y, Ratio(t));
    DivMono(x * Ratio(t), y * Ratio(t), MARGIN_PRECISION);
    DivBounds(x * Ratio(t), MARGIN_PRECISION);
  }

  /** An affordable trade's margin beyond closing fits free collateral and what closing frees, but for
      rounding: three units of quote in size, one in margin and one base unit's price. */
  lemma AffordableIsBounded(t: Trade, size: nat)
    requires Simple(t) && Affordable(t, size)
    ensures (size - Closing(t) - 2) * Ratio(t) * BASE_PRECISION
            < t.oraclePrice * Ratio(t) + (t.freeCollateral + Freed(t) + 1) * MARGIN_PRECISION * BASE_PRECISION
  {
    hide Affordable, Worth, Margin, BaseOf, MarketMarginRatio, Simple, RatioFor;
    SimplePrice(t);
    AffordableMeans(t, size);
    var base, traded := Abs(t.p.baseAssetAmount), BaseOf(t, size);
    WorthBounds(t, base);
    MarginBounds(t, Worth(t, base));
    if !Opposite(t) {
      WorthAdded(t, size);
      WorthBounds(t, traded);
      WorthBounds(t, base + traded);
      MarginOfSum(t, Worth(t, base), Worth(t, traded));
      MarginMono(t, Worth(t, base) + Worth(t, traded), Worth(t, base + traded));
      MarginBounds(t, Worth(t, traded));
      BoundFrom(size - 2, Worth(t, traded), Ratio(t), t.oraclePrice, t.freeCollateral);
    } else if traded >= base {
      WorthBeyondClosing(t, size);
      WorthBounds(t, traded - base);
      MarginBounds(t, Worth(t, traded - base));
      BoundFrom(size - Closing(t) - 2, Worth(t, traded - base), Ratio(t), t.oraclePrice, t.freeCollateral + Freed(t));
    } else {
      SizeBelowClosing(t, size);
      BoundFrom(size - Closing(t) - 2, 0, Ratio(t), t.oraclePrice, t.freeCollateral + Freed(t));
    }
  }

  lemma SizeBelowClosing(t: Trade, size: nat)
    requires 0 < t.oraclePrice && BaseOf(t, size) < Abs(t.p.baseAssetAmount) && Opposite(t)
    ensures size - Closing(t) - 2 <= 0
  {
    hide Worth, BaseOf;
    var base, traded := Abs(t.p.baseAssetAmount), BaseOf(t, size);
    WorthBounds(t, base);
    BaseBounds(t, size);
    MulMono(traded + 1, base, t.oraclePrice);
    assert (traded + 1) * t.oraclePrice == traded * t.oraclePrice + t.oraclePrice;
  }

  lemma BoundFrom(excess: int, worth: nat, ratio: nat, price: int, room: nat)
    requires 0 < ratio && 0 < price
    requires (excess - worth) * BASE_PRECISION < price
    requires worth * ratio < (room + 1) * MARGIN_PRECISION
    ensures excess * ratio * BASE_PRECISION < price * ratio + (room + 1) * MARGIN_PRECISION * BASE_PRECISION
  {
    MulMono((excess - worth) * BASE_PRECISION, price - 1, ratio);
    assert (excess - worth) * BASE_PRECISION * ratio
        == excess * ratio * BASE_PRECISION - worth * ratio * BASE_PRECISION;
    assert (price - 1) * ratio == price * ratio - ratio;
  }

  // ----- the start against it -----

  /** Trading the way the position points, or without one, no affordable trade exceeds the start by more
      than rounding. */
  lemma NoLargerTrade(t: Trade, size: nat)
    requires Simple(t) && !Opposite(t) && Affordable(t, size)
    ensures StartingSize(t).Success?
    ensures (size - StartingSize(t).value.0 - 3) * Ratio(t) * BASE_PRECISION
            < t.oraclePrice * Ratio(t) + MARGIN_PRECISION * BASE_PRECISION
  {
    hide Affordable, StartingSize, Simple, RatioFor;
    SimpleStart(t);
    AffordableIsBounded(t, size);
    StartBound(size, StartingSize(t).value.0, Ratio(t), t.oraclePrice, t.freeCollateral);
  }

  lemma StartBound(size: int, start: int, ratio: nat, price: int, free: nat)
    requires Truncates(start, free * MARGIN_PRECISION, ratio)
    requires (size - 2) * ratio * BASE_PRECISION < price * ratio + (free + 1) * MARGIN_PRECISION * BASE_PRECISION
    ensures (size - start - 3) * ratio * BASE_PRECISION < price * ratio + MARGIN_PRECISION * BASE_PRECISION
  {
    assert (size - start - 3) * ratio == (size - 2) * ratio - (start + 1) * ratio;
  }

  /** Against the position, every trade is affordable whose part beyond closing has its margin in free
      collateral and what closing frees. */
  lemma FlipIsAffordable(t: Trade, size: nat)
    requires Simple(t) && Opposite(t)
    requires (size - Closing(t)) * Ratio(t) <= (t.freeCollateral + MarginNow(t)) * MARGIN_PRECISION
    ensures Affordable(t, size)
  {
    hide Affordable, Worth, Margin, BaseOf, MarketMarginRatio, Simple, RatioFor;
    SimplePrice(t);
    AffordableMeans(t, size);
    var base, traded := Abs(t.p.baseAssetAmount), BaseOf(t, size);
    WorthBounds(t, base);
    if traded >= base {
      WorthBeyondClosing(t, size);
      var beyond := Worth(t, traded - base);
      WorthBounds(t, traded - base);
      MarginBounds(t, beyond);
      MulMono(beyond, size - Closing(t), Ratio(t));
    } else {
      WorthMono(t, base - traded, base);
      MarginMono(t, Worth(t, base - traded), Worth(t, base));
    }
  }

  lemma WorthMono(t: Trade, x: nat, y: nat)
    requires 0 < t.oraclePrice && x <= y
    ensures 0 <= Worth(t, x) <= Worth(t, y)
  {
    hide Div;
    MulMono(0, x, t.oraclePrice);
    MulMono(x, y, t.oraclePrice);
    DivMono(x * t.oraclePrice, y * t.oraclePrice, BASE_PRECISION);
    DivBounds(x * t.oraclePrice, BASE_PRECISION);
  }

  /** So the start against a position is always affordable, and never shrunk. It leaves out the margin
      that closing frees: every size up to that much further is affordable as well. */
  lemma FlipStartIsAffordable(t: Trade, more: nat)
    requires Simple(t) && Opposite(t) && more * Ratio(t) <= MarginNow(t) * MARGIN_PRECISION
    ensures StartingSize(t).Success? && 0 <= StartingSize(t).value.0
    ensures Affordable(t, StartingSize(t).value.0 + more)
  {
    hide Affordable, StartingSize, Simple, RatioFor, Worth, Margin;
    SimplePrice(t);
    SimpleStart(t);
    WorthBounds(t, Abs(t.p.baseAssetAmount));
    var start := StartingSize(t).value.0;
    assert (start + more - Closing(t)) * Ratio(t) == (start - Closing(t)) * Ratio(t) + more * Ratio(t);
    FlipIsAffordable(t, start + more);
  }

  /** A long of one unit at 100, margined at a tenth, with 50 to spare: selling starts at 600, although 700
      leaves a short of 600 whose margin is the 60 there is. */
  lemma FlipStartFallsShort(t: Trade)
    requires Simple(t) && t.side == Short && t.p.baseAssetAmount == 1_000_000_000 && t.oraclePrice == 100_000_000
    requires Ratio(t) == 1_000 && t.freeCollateral == 50_000_000
    ensures StartingSize(t) == Success((600_000_000, 100_000_000))
    ensures Affordable(t, 700_000_000)
  {
    hide Affordable, StartingSize, Simple, RatioFor, Quot, Rem;
    SimplePrice(t);
    SimpleStart(t);
    DivMultiple(100_000_000, BASE_PRECISION);
    DivMultiple(10_000_000, MARGIN_PRECISION);
    hide Div;
    FlipStartIsAffordable(t, 100_000_000);
  }

  // ----- a prediction market -----

  /** Selling from nothing in a prediction market that trades at 0.9. */
  predicate PredictionSale(t: Trade) {
    && t.m.isPrediction && t.m.imfFactor == 0 && !t.isLp && t.side == Short
    && t.p.baseAssetAmount == t.p.openBids == t.p.openAsks == 0
    && t.oraclePrice == 900_000 && t.fees.denominator != 0
    && Ratio(t) == 1_000 && t.freeCollateral == 1_000_000
  }

  /** The start takes the sale at the oracle price, but its margin is on the rest of one: the search starts
      from 10 although 45 is affordable. */
  lemma PredictionStartFallsShort(t: Trade)
    requires PredictionSale(t)
    ensures StartingSize(t) == Success((10_000_000, 0))
    ensures Affordable(t, 45_000_000)
  {
    hide Quot, Rem, Affordable;
    PredictionMargins(t);
    DivMultiple(0, BASE_PRECISION);
    DivMultiple(10_000_000, 1_000);
    DivMultiple(50_000_000_000, 900_000);
    assert BaseTradeSize(t, 45_000_000) == -50_000_000_000;
    hide Div, MarginAfter, BaseTradeSize;
    SaleStart(t);
    EffectIsMarginChange(t, 45_000_000);
    SaleAffordable(t);
  }

  lemma SaleAffordable(t: Trade)
    requires PredictionSale(t)
    requires -Effect(t, 45_000_000) <= 500_000
    ensures Affordable(t, 45_000_000)
  {
    hide Effect;
  }

  lemma SaleStart(t: Trade)
    requires PredictionSale(t)
    ensures StartingSize(t) == Success((10_000_000, 0))
  {
    hide Quot, Rem;
    DivMultiple(0, BASE_PRECISION);
    DivMultiple(10_000_000, 1_000);
    assert 0 * (MAX_PREDICTION_PRICE - 900_000) == 0;
    hide Div;
  }

  lemma PredictionMargins(t: Trade)
    requires PredictionSale(t)
    ensures MarginAfter(t, 0) == 0
    ensures MarginAfter(t, -50_000_000_000) == 500_000
  {
    hide Quot, Rem;
    DivMultiple(0, BASE_PRECISION);
    DivMultiple(0, MARGIN_PRECISION);
    DivMultiple(5_000_000, BASE_PRECISION);
    DivMultiple(500_000, MARGIN_PRECISION);
    assert Ratio(t) == MarketMarginRatio(t.m, -50_000_000_000, Initial, t.u.maxMarginRatio,
                                         t.u.highLeverageMode || t.enterHighLeverage);
    assert 0 * Ratio(t) == 0;
    hide Div;
  }
}
