/** Perp liabilities and the margin ratio that grows with position size. */
module PerpMargin {
  import opened Bn
  import opened LpSettlement

  const BASE_PRECISION := 1_000_000_000
  const QUOTE_PRECISION := 1_000_000
  const PRICE_PRECISION := 1_000_000
  const MARGIN_PRECISION := 10_000
  const MAX_PREDICTION_PRICE := PRICE_PRECISION
  const SPOT_MARKET_IMF_PRECISION := 1_000_000

  datatype MarginCategory = Initial | Maintenance

  datatype PerpMarket = PerpMarket(
    amm: Amm,
    isPrediction: bool,
    inSettlement: bool,
    expiryPrice: int,
    marginRatioInitial: nat,
    marginRatioMaintenance: nat,
    highLeverageMarginRatioInitial: nat,
    highLeverageMarginRatioMaintenance: nat,
    imfFactor: nat,
    unrealizedPnlMaintenanceAssetWeight: nat
  )

  /** The user settings margin depends on. */
  datatype Margining = Margining(maxMarginRatio: nat, highLeverageMode: bool)

  // ----- margin ratio -----

  /** Square root by the digits of base four. */
  function SquareRoot(n: nat): nat {
    if n < 2 then n
    else
      var smallCand := SquareRoot(n / 4) * 2;
      var largeCand := smallCand + 1;
      if largeCand * largeCand > n then smallCand else largeCand
  }

  lemma {:induction false} SquareRootIsFloor(n: nat)
    ensures SquareRoot(n) * SquareRoot(n) <= n < (SquareRoot(n) + 1) * (SquareRoot(n) + 1)
  {
    if n >= 2 {
      SquareRootIsFloor(n / 4);
      DoubledRoot(SquareRoot(n / 4), n);
    }
  }

  lemma DoubledRoot(r: nat, n: nat)
    requires r * r <= n / 4 < (r + 1) * (r + 1)
    ensures (2 * r) * (2 * r) <= n < (2 * r + 2) * (2 * r + 2)
  {
    assert (2 * r) * (2 * r) == 4 * (r * r);
    assert (2 * r + 2) * (2 * r + 2) == 4 * ((r + 1) * (r + 1));
  }

  lemma SquaresOrder(a: nat, b: nat)
    requires a * a < b * b
    ensures a < b
  {
    if b <= a {
      MulMono(b, a, b);
      MulMono(b, a, a);
    }
  }

  lemma SquareRootMono(m: nat, n: nat)
    requires m <= n
    ensures SquareRoot(m) <= SquareRoot(n)
  {
    SquareRootIsFloor(m);
    SquareRootIsFloor(n);
    SquaresOrder(SquareRoot(m), SquareRoot(n) + 1);
  }

  const IMF_DENOMINATOR := 100_000 * SPOT_MARKET_IMF_PRECISION / MARGIN_PRECISION

  function SizePremium(size: int, imfFactor: nat): int {
    Div(SquareRoot(Abs(size) * 10 + 1) * imfFactor, IMF_DENOMINATOR)
  }

  function SizePremiumLiabilityWeight(size: int, imfFactor: nat, liabilityWeight: nat): nat {
    if imfFactor == 0 then liabilityWeight
    else Max(liabilityWeight, liabilityWeight - liabilityWeight / 5 + SizePremium(size, imfFactor))
  }

  function MarketMarginRatio(m: PerpMarket, size: int, category: MarginCategory, customMarginRatio: nat,
                             highLeverage: bool): nat
  {
    var high := highLeverage && m.highLeverageMarginRatioInitial > 0 && m.highLeverageMarginRatioMaintenance > 0;
    match category
    case Initial =>
      Max(SizePremiumLiabilityWeight(size, m.imfFactor,
                                     if high then m.highLeverageMarginRatioInitial else m.marginRatioInitial),
          customMarginRatio)
    case Maintenance =>
      SizePremiumLiabilityWeight(size, m.imfFactor,
                                 if high then m.highLeverageMarginRatioMaintenance else m.marginRatioMaintenance)
  }

  /** A larger position never has a lower margin ratio. */
  lemma MarginRatioMono(m: PerpMarket, size: int, size': int, category: MarginCategory, custom: nat, high: bool)
    requires Abs(size) <= Abs(size')
    ensures MarketMarginRatio(m, size, category, custom, high) <= MarketMarginRatio(m, size', category, custom, high)
  {
    SizePremiumMono(size, size', m.imfFactor);
  }

  lemma SizePremiumMono(size: int, size': int, imfFactor: nat)
    requires Abs(size) <= Abs(size')
    ensures SizePremium(size, imfFactor) <= SizePremium(size', imfFactor)
  {
    SquareRootMono(Abs(size) * 10 + 1, Abs(size') * 10 + 1);
    var a, b := SquareRoot(Abs(size) * 10 + 1), SquareRoot(Abs(size') * 10 + 1);
    MulMono(a, b, imfFactor);
    DivMono(a * imfFactor, b * imfFactor, IMF_DENOMINATOR);
  }

  // ----- liability -----

  function PerpLiabilityValue(base: int, price: int, isPrediction: bool): int {
    if isPrediction && base <= 0
    then Div(Abs(base) * (MAX_PREDICTION_PRICE - price), BASE_PRECISION)
    else Div(Abs(base) * price, BASE_PRECISION)
  }

  /** The price at which every liability of the market is non-negative. */
  predicate PriceInRange(m: PerpMarket, price: int) {
    0 <= price && (m.isPrediction ==> price <= MAX_PREDICTION_PRICE)
  }

  function WorstCasePerpLiability(p: Position, price: int, isPrediction: bool): (int, int) {
    var allBids := p.baseAssetAmount + p.openBids;
    var allAsks := p.baseAssetAmount + p.openAsks;
    var bidsValue := PerpLiabilityValue(allBids, price, isPrediction);
    var asksValue := PerpLiabilityValue(allAsks, price, isPrediction);
    if asksValue >= bidsValue then (allAsks, asksValue) else (allBids, bidsValue)
  }

  /** The base amount and liability value margin is charged on. */
  function ChargedBase(p: Position, price: int, isPrediction: bool, includeOpenOrders: bool): (int, int) {
    if includeOpenOrders then WorstCasePerpLiability(p, price, isPrediction)
    else (p.baseAssetAmount, PerpLiabilityValue(p.baseAssetAmount, price, isPrediction))
  }

  /** Moving further from zero on one side never lowers a liability, at a price in range. */
  lemma LiabilityMono(base: int, base': int, price: int, isPrediction: bool)
    requires 0 <= price && (isPrediction ==> price <= MAX_PREDICTION_PRICE)
    requires 0 <= base <= base' || base' <= base <= 0
    ensures 0 <= PerpLiabilityValue(base, price, isPrediction) <= PerpLiabilityValue(base', price, isPrediction)
  {
    var unit := if isPrediction && base' < 0 then MAX_PREDICTION_PRICE - price else price;
    MulMono(0, Abs(base), unit);
    MulMono(Abs(base), Abs(base'), unit);
    DivMono(0, Abs(base) * unit, BASE_PRECISION);
    DivMono(Abs(base) * unit, Abs(base') * unit, BASE_PRECISION);
    if base == 0 {
      assert 0 * price == 0 * (MAX_PREDICTION_PRICE - price) == 0;
    }
  }

  /** The margin a position consumes. */
  function PositionMargin(u: Margining, m: PerpMarket, price: int, p: Position, includeOpenOrders: bool,
                          category: MarginCategory, highLeverage: bool): int {
    var (base, liability) := ChargedBase(p, price, m.isPrediction, includeOpenOrders);
    var ratio := MarketMarginRatio(m, base, category, u.maxMarginRatio, u.highLeverageMode || highLeverage);
    Div(liability * ratio, MARGIN_PRECISION)
  }

  lemma PositionMarginMono(u: Margining, m: PerpMarket, price: int, p: Position, p': Position,
                           category: MarginCategory, highLeverage: bool)
    requires PriceInRange(m, price)
    requires 0 <= p.baseAssetAmount <= p'.baseAssetAmount || p'.baseAssetAmount <= p.baseAssetAmount <= 0
    ensures 0 <= PositionMargin(u, m, price, p, false, category, highLeverage)
              <= PositionMargin(u, m, price, p', false, category, highLeverage)
  {
    var b, b' := p.baseAssetAmount, p'.baseAssetAmount;
    var high := u.highLeverageMode || highLeverage;
    LiabilityMono(b, b', price, m.isPrediction);
    MarginRatioMono(m, b, b', category, u.maxMarginRatio, high);
    ScaledMono(PerpLiabilityValue(b, price, m.isPrediction), PerpLiabilityValue(b', price, m.isPrediction),
               MarketMarginRatio(m, b, category, u.maxMarginRatio, high),
               MarketMarginRatio(m, b', category, u.maxMarginRatio, high), MARGIN_PRECISION);
  }

  lemma ScaledMono(x: nat, x': nat, r: nat, r': nat, precision: int)
    requires x <= x' && r <= r' && 0 < precision
    ensures 0 <= Div(x * r, precision) <= Div(x' * r', precision)
  {
    ProductMono(x, x', r, r');
    DivMono(0, x * r, precision);
    DivMono(x * r, x' * r', precision);
  }

  lemma ProductMono(x: nat, x': nat, r: nat, r': nat)
    requires x <= x' && r <= r'
    ensures 0 <= x * r <= x' * r'
  {
    MulMono(x, x', r);
    MulMono(r, r', x');
  }
}
