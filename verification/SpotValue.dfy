/** Token amounts, weights and values of spot positions. */
module SpotValue {
  import opened Bn
  import opened PerpMargin

  const QUOTE_SPOT_MARKET_INDEX := 0
  const SPOT_MARKET_WEIGHT_PRECISION := 10_000
  const AMM_RESERVE_PRECISION := 1_000_000_000
  const INTEREST_DECIMALS := 19

  datatype BalanceType = Deposit | Borrow

  /** Token decimals; interest precision leaves room for nineteen. */
  type Decimals = d: nat | d <= INTEREST_DECIMALS

  datatype SpotMarket = SpotMarket(
    marketIndex: nat,
    decimals: Decimals,
    cumulativeDepositInterest: nat,
    cumulativeBorrowInterest: nat,
    depositBalance: nat,
    imfFactor: nat,
    initialAssetWeight: nat,
    maintenanceAssetWeight: nat,
    initialLiabilityWeight: nat,
    maintenanceLiabilityWeight: nat,
    scaleInitialAssetWeightStart: nat
  )

  datatype SpotPosition = SpotPosition(
    marketIndex: nat,
    scaledBalance: nat,
    balanceType: BalanceType,
    openOrders: nat,
    openBids: int,
    openAsks: int
  )

  /** The oracle price and, for strict valuations, the twap it is compared with. */
  datatype StrictOraclePrice = StrictOraclePrice(current: int, twap: Option<int>) {
    function Highest(): int {
      if twap.Some? then Max(twap.value, current) else current
    }

    function Lowest(): int {
      if twap.Some? then Min(twap.value, current) else current
    }
  }

  predicate IsAvailable(p: SpotPosition) {
    p.scaledBalance == 0 && p.openOrders == 0
  }

  // ----- token amounts -----

  function DivCeil(a: int, b: int): int
    requires b != 0
  {
    if Mod(a, b) > 0 then Div(a, b) + 1 else Div(a, b)
  }

  function TokenAmount(balance: nat, m: SpotMarket, balanceType: BalanceType): int {
    var precisionDecrease := Pow10(INTEREST_DECIMALS - m.decimals);
    match balanceType
    case Deposit => Div(balance * m.cumulativeDepositInterest, precisionDecrease)
    case Borrow => DivCeil(balance * m.cumulativeBorrowInterest, precisionDecrease)
  }

  function SignedTokenAmount(amount: int, balanceType: BalanceType): int {
    if balanceType == Deposit then amount else 0 - Abs(amount)
  }

  function PositionTokens(p: SpotPosition, m: SpotMarket): int {
    SignedTokenAmount(TokenAmount(p.scaledBalance, m, p.balanceType), p.balanceType)
  }

  function TokenValue(amount: int, decimals: Decimals, price: int): int {
    if amount == 0 then 0 else Div(amount * price, Pow10(decimals))
  }

  /** Deposits at the lower, borrows at the higher of price and twap. */
  function StrictTokenValue(amount: int, decimals: Decimals, price: StrictOraclePrice): int {
    TokenValue(amount, decimals, if amount >= 0 then price.Lowest() else price.Highest())
  }

  // ----- weights -----

  function SizeInReservePrecision(amount: int, decimals: Decimals): int {
    if decimals > 9 then Div(amount, Pow10(decimals - 9))
    else Div(amount * AMM_RESERVE_PRECISION, Pow10(decimals))
  }

  function SizeDiscountAssetWeight(size: int, imfFactor: nat, assetWeight: int): int {
    if imfFactor == 0 then assetWeight
    else
      var sizeSqrt := SquareRoot(Abs(size) * 10 + 1);
      var imfNumerator := SPOT_MARKET_IMF_PRECISION + SPOT_MARKET_IMF_PRECISION / 10;
      var discount := Div(sizeSqrt * imfFactor, 100_000);
      NonNegativeQuotient(sizeSqrt, imfFactor, 100_000);
      Min(assetWeight, Div(imfNumerator * SPOT_MARKET_WEIGHT_PRECISION, SPOT_MARKET_IMF_PRECISION + discount))
  }

  lemma NonNegativeQuotient(x: nat, y: nat, d: int)
    requires 0 < d
    ensures Div(x * y, d) >= 0
  {
    MulMono(0, x, y);
    DivBounds(x * y, d);
  }

  function ScaledInitialAssetWeight(m: SpotMarket, oraclePrice: int): int {
    if m.scaleInitialAssetWeightStart == 0 then m.initialAssetWeight
    else
      var depositsValue := TokenValue(TokenAmount(m.depositBalance, m, Deposit), m.decimals, oraclePrice);
      if depositsValue < m.scaleInitialAssetWeightStart then m.initialAssetWeight
      else Div(m.initialAssetWeight * m.scaleInitialAssetWeightStart, depositsValue)
  }

  function AssetWeight(amount: int, oraclePrice: int, m: SpotMarket, category: Option<MarginCategory>): int {
    var size := SizeInReservePrecision(amount, m.decimals);
    match category
    case Some(Initial) => SizeDiscountAssetWeight(size, m.imfFactor, ScaledInitialAssetWeight(m, oraclePrice))
    case Some(Maintenance) => SizeDiscountAssetWeight(size, m.imfFactor, m.maintenanceAssetWeight)
    case None => ScaledInitialAssetWeight(m, oraclePrice)
  }

  function LiabilityWeight(amount: int, m: SpotMarket, category: Option<MarginCategory>): nat {
    var size := SizeInReservePrecision(amount, m.decimals);
    match category
    case Some(Initial) => SizePremiumLiabilityWeight(size, m.imfFactor, m.initialLiabilityWeight)
    case Some(Maintenance) => SizePremiumLiabilityWeight(size, m.imfFactor, m.maintenanceLiabilityWeight)
    case None => m.initialLiabilityWeight
  }

  // ----- values -----

  function SpotAssetValue(amount: int, price: StrictOraclePrice, m: SpotMarket, maxMarginRatio: nat,
                          category: Option<MarginCategory>): int {
    var value := StrictTokenValue(amount, m.decimals, price);
    if category == None then value
    else
      var weight := AssetWeight(amount, price.current, m, category);
      var userWeight := Max(0, SPOT_MARKET_WEIGHT_PRECISION - maxMarginRatio);
      var applied := if category == Some(Initial) && m.marketIndex != QUOTE_SPOT_MARKET_INDEX
                     then Min(weight, userWeight) else weight;
      Div(value * applied, SPOT_MARKET_WEIGHT_PRECISION)
  }

  /** The weight of a liability before any liquidation buffer. */
  function AppliedLiabilityWeight(amount: int, m: SpotMarket, maxMarginRatio: nat, category: Option<MarginCategory>)
    : nat
  {
    var weight := LiabilityWeight(amount, m, category);
    if category == Some(Initial) && m.marketIndex != QUOTE_SPOT_MARKET_INDEX
    then Max(weight, SPOT_MARKET_WEIGHT_PRECISION + maxMarginRatio) else weight
  }

  function Buffer(liquidationBuffer: Option<nat>): nat {
    if liquidationBuffer.Some? then liquidationBuffer.value else 0
  }

  function SpotLiabilityValue(amount: int, price: StrictOraclePrice, m: SpotMarket, maxMarginRatio: nat,
                              category: Option<MarginCategory>, liquidationBuffer: Option<nat>): int {
    var value := StrictTokenValue(amount, m.decimals, price);
    if category == None then value
    else
      var weight := AppliedLiabilityWeight(amount, m, maxMarginRatio, category) + Buffer(liquidationBuffer);
      Div(value * weight, SPOT_MARKET_WEIGHT_PRECISION)
  }

  // ----- worst case over open orders -----

  datatype FillSimulation = FillSimulation(tokenAmount: int, ordersValue: int, contribution: int)

  function WeightedTokenValue(amount: int, value: int, oraclePrice: int, m: SpotMarket,
                              category: Option<MarginCategory>, customMarginRatio: nat): int {
    var weight := if value >= 0 then AssetWeight(amount, oraclePrice, m, category)
                  else LiabilityWeight(Abs(amount), m, category);
    var custom := category == Some(Initial) && customMarginRatio != 0 && m.marketIndex != QUOTE_SPOT_MARKET_INDEX;
    var applied :=
      if !custom then weight
      else if value >= 0 then Min(weight, Max(0, SPOT_MARKET_WEIGHT_PRECISION - customMarginRatio))
      else Max(weight, SPOT_MARKET_WEIGHT_PRECISION + customMarginRatio);
    Div(value * applied, SPOT_MARKET_WEIGHT_PRECISION)
  }

  function SimulateOrderFill(amount: int, value: int, openOrders: int, price: StrictOraclePrice, m: SpotMarket,
                             category: Option<MarginCategory>, customMarginRatio: nat): FillSimulation {
    var ordersValue := TokenValue(-openOrders, m.decimals, price.Highest());
    var amountAfter := amount + openOrders;
    var valueAfter := value - ordersValue;
    var weighted := WeightedTokenValue(amountAfter, valueAfter, price.current, m, category, customMarginRatio);
    FillSimulation(amountAfter, ordersValue, weighted + ordersValue)
  }

  /** The outcome, of filling all bids or all asks, that contributes less free collateral. */
  function WorstCaseTokenAmounts(p: SpotPosition, m: SpotMarket, price: StrictOraclePrice,
                                 category: Option<MarginCategory>, customMarginRatio: nat): FillSimulation {
    var amount := PositionTokens(p, m);
    var value := StrictTokenValue(amount, m.decimals, price);
    if p.openBids == 0 && p.openAsks == 0 then
      FillSimulation(amount, 0, WeightedTokenValue(amount, value, price.current, m, category, customMarginRatio))
    else
      var bids := SimulateOrderFill(amount, value, p.openBids, price, m, category, customMarginRatio);
      var asks := SimulateOrderFill(amount, value, p.openAsks, price, m, category, customMarginRatio);
      if asks.contribution < bids.contribution then asks else bids
  }

  // ----- the liquidation buffer -----

  /** A larger liquidation buffer never makes a liability smaller in magnitude. */
  lemma BufferRaisesLiability(amount: int, price: StrictOraclePrice, m: SpotMarket, maxMarginRatio: nat,
                              category: Option<MarginCategory>, buffer: Option<nat>, buffer': Option<nat>)
    requires Buffer(buffer) <= Buffer(buffer')
    ensures Abs(SpotLiabilityValue(amount, price, m, maxMarginRatio, category, buffer))
            <= Abs(SpotLiabilityValue(amount, price, m, maxMarginRatio, category, buffer'))
  {
    hide Div, StrictTokenValue, AppliedLiabilityWeight;
    var value := StrictTokenValue(amount, m.decimals, price);
    var weight := AppliedLiabilityWeight(amount, m, maxMarginRatio, category);
    HeavierIsLarger(value, weight + Buffer(buffer), weight + Buffer(buffer'));
  }

  lemma HeavierIsLarger(value: int, weight: nat, weight': nat)
    requires weight <= weight'
    ensures Abs(Div(value * weight, SPOT_MARKET_WEIGHT_PRECISION))
            <= Abs(Div(value * weight', SPOT_MARKET_WEIGHT_PRECISION))
  {
    if value >= 0 {
      ScaledMono(value, value, weight, weight', SPOT_MARKET_WEIGHT_PRECISION);
    } else {
      ScaledMono(-value, -value, weight, weight', SPOT_MARKET_WEIGHT_PRECISION);
      NegMul(value, weight);
      NegMul(value, weight');
      DivNegDividend(value * weight, SPOT_MARKET_WEIGHT_PRECISION);
      DivNegDividend(value * weight', SPOT_MARKET_WEIGHT_PRECISION);
    }
  }
}
