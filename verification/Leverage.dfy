/** Account leverage around a spot trade at oracle value. */
module Leverage {
  import opened Bn

  const TEN_THOUSAND := 10_000

  datatype Direction = Long | Short

  /** How a caller names a direction. The second leverage function compares it by identity with the
      two shared objects, so any other object of the same shape is neither. */
  datatype DirectionRef = SharedLong | SharedShort | OtherObject(direction: Direction)

  /** The account values a spot trade starts from. */
  datatype Values = Values(
    totalAssetValue: int,
    totalLiabilityValue: int,
    spotLiabilityValue: int,
    quoteAssetValue: int,
    quoteLiabilityValue: int,
    marketAssetValue: int,
    marketLiabilityValue: int
  )

  function NetAssetValue(v: Values): int {
    v.totalAssetValue - v.spotLiabilityValue
  }

  function QuoteNet(v: Values): int {
    v.quoteAssetValue - v.quoteLiabilityValue
  }

  function MarketNet(v: Values): int {
    v.marketAssetValue - v.marketLiabilityValue
  }

  /** The liability a trade adds when it moves the net quote and the net market value by these amounts. */
  function LiabilityAdded(v: Values, quoteMove: int, marketMove: int): int {
    Max(-(QuoteNet(v) + quoteMove), 0) - v.quoteLiabilityValue
    + Max(-(MarketNet(v) + marketMove), 0) - v.marketLiabilityValue
  }

  /** Splitting two new net values into assets and liabilities changes net value by the sum of the moves. */
  method SplitMoves(v: Values, quoteMove: int, marketMove: int) returns (assetValueToAdd: int, liabilityValueToAdd: int)
    ensures liabilityValueToAdd == LiabilityAdded(v, quoteMove, marketMove)
    ensures assetValueToAdd - liabilityValueToAdd == quoteMove + marketMove
  {
    assetValueToAdd, liabilityValueToAdd := 0, 0;
    var newQuoteNetValue := QuoteNet(v) + quoteMove;
    var newQuoteAssetValue := Max(newQuoteNetValue, 0);
    var newQuoteLiabilityValue := Abs(Min(newQuoteNetValue, 0));
    assetValueToAdd := assetValueToAdd + (newQuoteAssetValue - v.quoteAssetValue);
    liabilityValueToAdd := liabilityValueToAdd + (newQuoteLiabilityValue - v.quoteLiabilityValue);
    var newMarketNetValue := MarketNet(v) + marketMove;
    var newMarketAssetValue := Max(newMarketNetValue, 0);
    var newMarketLiabilityValue := Abs(Min(newMarketNetValue, 0));
    assetValueToAdd := assetValueToAdd + (newMarketAssetValue - v.marketAssetValue);
    liabilityValueToAdd := liabilityValueToAdd + (newMarketLiabilityValue - v.marketLiabilityValue);
  }

  /** Leverage if the largest trade were made. The trade leaves net asset value as it was, so the
      divisor is the account's own, already known not to be zero. */
  method GetMaxLeverageForSpot(v: Values, tradeQuoteAmount: int, direction: Direction) returns (leverage: int)
    ensures var t := if direction == Short then tradeQuoteAmount else -tradeQuoteAmount;
            leverage == if NetAssetValue(v) == 0 then 0
                        else Div((v.totalLiabilityValue + LiabilityAdded(v, t, -t)) * TEN_THOUSAND, NetAssetValue(v))
  {
    var netAssetValue := v.totalAssetValue - v.spotLiabilityValue;
    if netAssetValue == 0 {
      return 0;
    }
    var quoteMove := if direction == Short then tradeQuoteAmount else -tradeQuoteAmount;
    var marketMove := if direction == Long then tradeQuoteAmount else -tradeQuoteAmount;
    var assetValueToAdd, liabilityValueToAdd := SplitMoves(v, quoteMove, marketMove);
    var finalTotalAssetValue := v.totalAssetValue + assetValueToAdd;
    var finalTotalSpotLiability := v.spotLiabilityValue + liabilityValueToAdd;
    var finalTotalLiabilityValue := v.totalLiabilityValue + liabilityValueToAdd;
    var finalNetAssetValue := finalTotalAssetValue - finalTotalSpotLiability;
    leverage := Div(finalTotalLiabilityValue * TEN_THOUSAND, finalNetAssetValue);
  }

  /** What a trade with this direction takes out of net asset value. */
  function ValueLost(tradeQuoteAmount: int, side: DirectionRef): int {
    if side.OtherObject? then 2 * tradeQuoteAmount else 0
  }

  /** Leverage after a given trade. Net asset value is kept exactly when the direction is one of the
      shared objects, or there is nothing to trade; any other object is charged on both sides. */
  method GetAccountLeverageAfterSpotTrade(v: Values, tradeQuoteAmount: int, side: DirectionRef) returns (leverage: int)
    ensures var q := if side == SharedShort then tradeQuoteAmount else -tradeQuoteAmount;
            var m := if side == SharedLong then tradeQuoteAmount else -tradeQuoteAmount;
            var net := NetAssetValue(v) - ValueLost(tradeQuoteAmount, side);
            leverage == if net == 0 then 0
                        else Div((v.totalLiabilityValue + LiabilityAdded(v, q, m)) * TEN_THOUSAND, net)
    ensures ValueLost(tradeQuoteAmount, side) == 0 <==> !side.OtherObject? || tradeQuoteAmount == 0
  {
    var quoteMove := if side == SharedShort then tradeQuoteAmount else -tradeQuoteAmount;
    var marketMove := if side == SharedLong then tradeQuoteAmount else -tradeQuoteAmount;
    var assetValueToAdd, liabilityValueToAdd := SplitMoves(v, quoteMove, marketMove);
    var totalAssetValueAfterTrade := v.totalAssetValue + assetValueToAdd;
    var totalSpotLiabilityValueAfterTrade := v.spotLiabilityValue + liabilityValueToAdd;
    var totalLiabilityValueAfterTrade := v.totalLiabilityValue + liabilityValueToAdd;
    var netAssetValueAfterTrade := totalAssetValueAfterTrade - totalSpotLiabilityValueAfterTrade;
    if netAssetValueAfterTrade == 0 {
      return 0;
    }
    leverage := Div(totalLiabilityValueAfterTrade * TEN_THOUSAND, netAssetValueAfterTrade);
  }
}
