/** The largest perp trade an account can afford, shrunk by 99/100 until it fits. */
module TradeSize {
  import opened Bn
  import opened LpSettlement
  import opened PerpMargin

  datatype Side = Long | Short

  datatype FeeTier = FeeTier(numerator: nat, denominator: nat)

  /** What a trade does to free collateral: the pnl and fee of its entry price (for maintenance
      margin only) and the change in the margin its position consumes. */
  function EntriesEffect(u: Margining, fees: FeeTier, m: PerpMarket, oraclePrice: int, p: Position, sizeChange: int,
                         entryPrice: int, includeOpenOrders: bool, highLeverage: bool, category: MarginCategory): int
    requires fees.denominator != 0
  {
    var change :=
      if entryPrice != 0 && sizeChange != 0 && category == Maintenance then
        var costBasis := Div(oraclePrice * Abs(sizeChange), BASE_PRECISION);
        var newValue := Div(entryPrice * Abs(sizeChange), BASE_PRECISION);
        (if sizeChange > 0 then costBasis - newValue else newValue - costBasis)
        - Div(newValue * fees.numerator, fees.denominator)
      else 0;
    var after := p.(baseAssetAmount := p.baseAssetAmount + sizeChange);
    change - (PositionMargin(u, m, oraclePrice, after, includeOpenOrders, category, highLeverage)
              - PositionMargin(u, m, oraclePrice, p, includeOpenOrders, category, highLeverage))
  }

  /** A trade of nothing changes nothing. */
  lemma NoTradeNoEffect(u: Margining, fees: FeeTier, m: PerpMarket, oraclePrice: int, p: Position,
                        entryPrice: int, includeOpenOrders: bool, highLeverage: bool, category: MarginCategory)
    requires fees.denominator != 0
    ensures EntriesEffect(u, fees, m, oraclePrice, p, 0, entryPrice, includeOpenOrders, highLeverage, category) == 0
  {
    assert p.(baseAssetAmount := p.baseAssetAmount + 0) == p;
  }

  /** Everything the search for a trade size reads. */
  datatype Trade = Trade(u: Margining, fees: FeeTier, m: PerpMarket, oraclePrice: int, p: Position, side: Side,
                         isLp: bool, enterHighLeverage: bool, freeCollateral: nat, totalCollateral: int,
                         initialMarginRequirement: int)

  // ----- the size the search starts from -----

  function BuyingPower(t: Trade, freeCollateral: int, base: int, enterHighLeverage: bool): Result<int> {
    var ratio := MarketMarginRatio(t.m, base, Initial, t.u.maxMarginRatio, enterHighLeverage || t.u.highLeverageMode);
    if ratio == 0 then Failure(DivisionByZero) else Success(Div(freeCollateral * MARGIN_PRECISION, ratio))
  }

  function MaxPositionSize(t: Trade): Result<int> {
    var lpBuffer := if t.isLp then Div(t.oraclePrice * t.m.amm.orderStepSize, AMM_RESERVE_PRECISION) else 0;
    var worstCaseBase := WorstCasePerpLiability(t.p, t.oraclePrice, t.m.isPrediction).0;
    BuyingPower(t, t.freeCollateral - lpBuffer, worstCaseBase, t.enterHighLeverage)
  }

  /** The trade size before shrinking, and the part of it that closes an opposite position. */
  function StartingSize(t: Trade): Result<(int, int)> {
    var currentSide := if t.p.baseAssetAmount < 0 then Short else Long;
    var liability := PerpLiabilityValue(t.p.baseAssetAmount, t.oraclePrice, t.m.isPrediction);
    var opposite := if t.side == currentSide then 0 else liability;
    var maxSize :- MaxPositionSize(t);
    if maxSize >= 0 then
      Success((maxSize + opposite, opposite))
    else if t.side == currentSide then
      Success((maxSize, 0))
    else
      var freed := Div(liability * t.m.marginRatioInitial, MARGIN_PRECISION);
      var requirementAfterClosing := t.initialMarginRequirement - freed;
      if requirementAfterClosing > t.totalCollateral then
        Success((0, liability))
      else
        var buyingPower :- BuyingPower(t, t.totalCollateral - requirementAfterClosing, 0, false);
        Success((buyingPower, liability))
  }

  /** Whether the trade goes against the position. */
  predicate Opposite(t: Trade) {
    t.side != (if t.p.baseAssetAmount < 0 then Short else Long)
  }

  /** The initial margin ratio for a base amount, if high leverage is entered or not. */
  function RatioFor(t: Trade, base: int, enterHighLeverage: bool): nat {
    MarketMarginRatio(t.m, base, Initial, t.u.maxMarginRatio, enterHighLeverage || t.u.highLeverageMode)
  }

  /** The size the search starts from and the part of it that closes the position, given what the position
      is worth, what is held back for an LP and what closing would free: with collateral to use, the
      largest size whose margin it covers, on top of what closes an opposite position; without, nothing
      but reducing. */
  predicate StartsFrom(t: Trade, worth: int, lpBuffer: int, freed: int, size: int, opposite: int) {
    var ratio := RatioFor(t, WorstCasePerpLiability(t.p, t.oraclePrice, t.m.isPrediction).0, t.enterHighLeverage);
    var collateral := (t.freeCollateral - lpBuffer) * MARGIN_PRECISION;
    var unit := if t.m.isPrediction && t.p.baseAssetAmount <= 0 then MAX_PREDICTION_PRICE - t.oraclePrice
                else t.oraclePrice;
    var left := t.totalCollateral - (t.initialMarginRequirement - freed);
    && Truncates(worth, Abs(t.p.baseAssetAmount) * unit, BASE_PRECISION)
    && (if t.isLp then Truncates(lpBuffer, t.oraclePrice * t.m.amm.orderStepSize, BASE_PRECISION) else lpBuffer == 0)
    && Truncates(freed, worth * t.m.marginRatioInitial, MARGIN_PRECISION)
    && (if !Opposite(t) then opposite == 0 && Truncates(size, collateral, ratio)
        else
          && opposite == worth
          && (if 0 < collateral + ratio then Truncates(size - worth, collateral, ratio)
              else if left < 0 then size == 0
              else Truncates(size, left * MARGIN_PRECISION, RatioFor(t, 0, false))))
  }

  function PositionWorth(t: Trade): int {
    PerpLiabilityValue(t.p.baseAssetAmount, t.oraclePrice, t.m.isPrediction)
  }

  function LpBuffer(t: Trade): int {
    if t.isLp then Div(t.oraclePrice * t.m.amm.orderStepSize, AMM_RESERVE_PRECISION) else 0
  }

  function FreedByClosing(t: Trade): int {
    Div(PositionWorth(t) * t.m.marginRatioInitial, MARGIN_PRECISION)
  }

  lemma StartingSizeMeans(t: Trade)
    ensures StartingSize(t).Success? ==>
              StartsFrom(t, PositionWorth(t), LpBuffer(t), FreedByClosing(t),
                         StartingSize(t).value.0, StartingSize(t).value.1)
    ensures var worstBase := WorstCasePerpLiability(t.p, t.oraclePrice, t.m.isPrediction).0;
            var ratio := RatioFor(t, worstBase, t.enterHighLeverage);
            var collateral := (t.freeCollateral - LpBuffer(t)) * MARGIN_PRECISION;
            var left := t.totalCollateral - (t.initialMarginRequirement - FreedByClosing(t));
            StartingSize(t) == Failure(DivisionByZero)
            <==> ratio == 0 || (Opposite(t) && collateral + ratio <= 0 <= left && RatioFor(t, 0, false) == 0)
    ensures StartingSize(t).Failure? ==> StartingSize(t).error == DivisionByZero
  {
    hide MarketMarginRatio, WorstCasePerpLiability, Quot, Rem;
    var unit := if t.m.isPrediction && t.p.baseAssetAmount <= 0 then MAX_PREDICTION_PRICE - t.oraclePrice
                else t.oraclePrice;
    DivTruncates(Abs(t.p.baseAssetAmount) * unit, BASE_PRECISION);
    DivTruncates(t.oraclePrice * t.m.amm.orderStepSize, BASE_PRECISION);
    DivTruncates(PositionWorth(t) * t.m.marginRatioInitial, MARGIN_PRECISION);
    var ratio := RatioFor(t, WorstCasePerpLiability(t.p, t.oraclePrice, t.m.isPrediction).0, t.enterHighLeverage);
    var ratio' := RatioFor(t, 0, false);
    var left := t.totalCollateral - (t.initialMarginRequirement - FreedByClosing(t));
    if ratio != 0 {
      DivTruncates((t.freeCollateral - LpBuffer(t)) * MARGIN_PRECISION, ratio);
      TruncatesSign(Div((t.freeCollateral - LpBuffer(t)) * MARGIN_PRECISION, ratio),
                    (t.freeCollateral - LpBuffer(t)) * MARGIN_PRECISION, ratio);
    }
    if ratio' != 0 {
      DivTruncates(left * MARGIN_PRECISION, ratio');
    }
    hide Div, Truncates;
  }

  lemma TruncatesSign(q: int, n: int, d: int)
    requires 0 < d && Truncates(q, n, d)
    ensures q >= 0 <==> -d < n
  {
    if q < 0 {
      MulMono(q, -1, d);
    } else {
      MulMono(0, q, d);
      assert (q - 1) * d == q * d - d;
    }
  }

  // ----- shrinking it -----

  /** The signed base amount of a quote trade size. */
  function BaseTradeSize(t: Trade, tradeSize: int): int
    requires t.oraclePrice != 0
  {
    var base := Div(tradeSize * BASE_PRECISION, t.oraclePrice);
    if t.side == Long then base else -base
  }

  function Effect(t: Trade, tradeSize: int): int
    requires t.oraclePrice != 0 && t.fees.denominator != 0
  {
    EntriesEffect(t.u, t.fees, t.m, t.oraclePrice, t.p, BaseTradeSize(t, tradeSize), t.oraclePrice,
                  false, t.enterHighLeverage, Initial)
  }

  /** The margin the trade adds is covered by free collateral. */
  predicate Affordable(t: Trade, tradeSize: int)
    requires t.oraclePrice != 0 && t.fees.denominator != 0
  {
    -Effect(t, tradeSize) <= t.freeCollateral
  }

  /** The size after `n` steps of 99/100, each truncated. */
  function Shrunk(tradeSize: int, n: nat): int {
    if n == 0 then tradeSize else Div(Shrunk(tradeSize, n - 1) * 99, 100)
  }

  lemma ZeroSizeNoEffect(t: Trade)
    requires t.oraclePrice != 0 && t.fees.denominator != 0
    ensures Effect(t, 0) == 0
  {
    assert Div(0 * BASE_PRECISION, t.oraclePrice) == 0 by {
      if t.oraclePrice > 0 {
        DivUnique(0, t.oraclePrice, 0);
      } else {
        DivUnique(0, -t.oraclePrice, 0);
        DivNegDivisor(0, -t.oraclePrice);
      }
    }
    NoTradeNoEffect(t.u, t.fees, t.m, t.oraclePrice, t.p, t.oraclePrice, false, t.enterHighLeverage, Initial);
  }

  lemma ShrinkIsSmaller(tradeSize: int)
    ensures tradeSize != 0 ==> Abs(Div(tradeSize * 99, 100)) < Abs(tradeSize)
    ensures 0 <= tradeSize ==> 0 <= 99 * tradeSize - 100 * Div(tradeSize * 99, 100) < 100
  {
    DivBounds(tradeSize * 99, 100);
  }

  /** Shrink a size until what it does to free collateral is covered, and no further. It always gets
      there, since a size of zero does nothing. */
  method ShrinkToAffordable(effect: int -> int, freeCollateral: nat, start: int) returns (tradeSize: int, shrinks: nat)
    requires effect(0) == 0
    ensures tradeSize == Shrunk(start, shrinks)
    ensures -effect(tradeSize) <= freeCollateral
    ensures forall j :: 0 <= j < shrinks ==> -effect(Shrunk(start, j)) > freeCollateral
  {
    tradeSize, shrinks := start, 0;
    var change := effect(tradeSize);
    while change < 0 && Abs(change) > freeCollateral
      invariant change == effect(tradeSize)
      invariant tradeSize == Shrunk(start, shrinks)
      invariant forall j :: 0 <= j < shrinks ==> -effect(Shrunk(start, j)) > freeCollateral
      decreases Abs(tradeSize)
    {
      ShrinkIsSmaller(tradeSize);
      tradeSize := Div(tradeSize * 99, 100);
      change := effect(tradeSize);
      shrinks := shrinks + 1;
    }
  }

  method GetMaxTradeSizeUsdcForPerp(t: Trade)
    returns (error: Option<Error>, tradeSize: int, oppositeSideTradeSize: int, shrinks: nat)
    requires t.fees.denominator != 0
    ensures error == (if StartingSize(t).Failure? then Some(StartingSize(t).error)
                      else if t.oraclePrice == 0 then Some(DivisionByZero) else None)
    ensures error == None ==>
              && t.oraclePrice != 0
              && StartingSize(t).Success?
              && oppositeSideTradeSize == StartingSize(t).value.1
              && StartsFrom(t, PositionWorth(t), LpBuffer(t), FreedByClosing(t),
                            StartingSize(t).value.0, oppositeSideTradeSize)
              && tradeSize == Shrunk(StartingSize(t).value.0, shrinks)
              && Affordable(t, tradeSize)
              && forall j :: 0 <= j < shrinks ==> !Affordable(t, Shrunk(StartingSize(t).value.0, j))
  {
    hide StartsFrom, StartingSize, Effect;
    tradeSize, oppositeSideTradeSize, shrinks := 0, 0, 0;
    var start := StartingSize(t);
    if start.Failure? {
      return Some(start.error), 0, 0, 0;
    }
    if t.oraclePrice == 0 {
      return Some(DivisionByZero), 0, 0, 0;
    }
    ZeroSizeNoEffect(t);
    StartingSizeMeans(t);
    tradeSize, shrinks := ShrinkToAffordable(size => Effect(t, size), t.freeCollateral, start.value.0);
    return None, tradeSize, start.value.1, shrinks;
  }

  // ----- how much the shrinking gives away -----

  /** The margin consumed once the trade is on. */
  function MarginAfter(t: Trade, base: int): int {
    PositionMargin(t.u, t.m, t.oraclePrice, t.p.(baseAssetAmount := base), false, Initial, t.enterHighLeverage)
  }

  lemma EffectIsMarginChange(t: Trade, tradeSize: int)
    requires t.oraclePrice != 0 && t.fees.denominator != 0
    ensures -Effect(t, tradeSize)
            == MarginAfter(t, t.p.baseAssetAmount + BaseTradeSize(t, tradeSize)) - MarginAfter(t, t.p.baseAssetAmount)
  {
    assert t.p.(baseAssetAmount := t.p.baseAssetAmount) == t.p;
  }

  /** A trade adds margin only once it is past closing the old position; from there on more of it
      adds more. */
  lemma MarginPastClosing(t: Trade, base: int, after: int, after': int)
    requires PriceInRange(t.m, t.oraclePrice)
    requires base <= after <= after' || after' <= after <= base
    ensures MarginAfter(t, after) > MarginAfter(t, base) ==> MarginAfter(t, after) <= MarginAfter(t, after')
  {
    hide PositionMargin;
    var q, q', q'' := t.p.(baseAssetAmount := base), t.p.(baseAssetAmount := after), t.p.(baseAssetAmount := after');
    if (base <= after <= 0) || (0 <= after <= base) {
      PositionMarginMono(t.u, t.m, t.oraclePrice, q', q, Initial, t.enterHighLeverage);
    } else {
      PositionMarginMono(t.u, t.m, t.oraclePrice, q', q'', Initial, t.enterHighLeverage);
    }
  }

  lemma BaseTradeSizeMono(t: Trade, size: nat, size': nat)
    requires t.oraclePrice > 0 && size <= size'
    ensures if t.side == Long then 0 <= BaseTradeSize(t, size) <= BaseTradeSize(t, size')
            else BaseTradeSize(t, size') <= BaseTradeSize(t, size) <= 0
  {
    DivMono(0, size * BASE_PRECISION, t.oraclePrice);
    DivUnique(0, t.oraclePrice, 0);
    DivMono(size * BASE_PRECISION, size' * BASE_PRECISION, t.oraclePrice);
  }

  lemma UnaffordableStaysSo(t: Trade, size: nat, size': nat)
    requires t.oraclePrice > 0 && PriceInRange(t.m, t.oraclePrice) && t.fees.denominator != 0
    requires size <= size'
    ensures Affordable(t, size') ==> Affordable(t, size)
  {
    hide Effect, MarginAfter, BaseTradeSize, PriceInRange;
    var base := t.p.baseAssetAmount;
    BaseTradeSizeMono(t, size, size');
    EffectIsMarginChange(t, size);
    EffectIsMarginChange(t, size');
    MarginPastClosing(t, base, base + BaseTradeSize(t, size), base + BaseTradeSize(t, size'));
  }

  lemma {:induction false} ShrunkNonNegative(tradeSize: nat, n: nat)
    ensures Shrunk(tradeSize, n) >= 0
  {
    if n != 0 {
      ShrunkNonNegative(tradeSize, n - 1);
      ShrinkIsSmaller(Shrunk(tradeSize, n - 1));
    }
  }

  /** The size the shrink loop stops at is at least 99% of every affordable size up to the one it
      started from, whichever side the account is on, at a price in range. */
  lemma ShrinkLosesOnePercent(t: Trade, start: nat, shrinks: nat, other: nat)
    requires t.oraclePrice > 0 && PriceInRange(t.m, t.oraclePrice) && t.fees.denominator != 0
    requires forall j :: 0 <= j < shrinks ==> !Affordable(t, Shrunk(start, j))
    requires other <= start && Affordable(t, other)
    ensures 100 * Shrunk(start, shrinks) >= 99 * other
  {
    if shrinks != 0 {
      var previous := Shrunk(start, shrinks - 1);
      ShrunkNonNegative(start, shrinks - 1);
      ShrinkIsSmaller(previous);
      if previous <= other {
        UnaffordableStaysSo(t, previous, other);
      }
    }
  }
}
