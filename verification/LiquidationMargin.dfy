/** The liquidation price against the margin state recomputed at that price, for an account with one
    perp position: the price is worked out on a linear approximation, and this is how far off it is. */
module LiquidationMargin {
  import opened Bn
  import opened LpSettlement
  import opened PerpMargin
  import opened TradeSize
  import opened LiquidationPrice
  import SV = SpotValue
  import opened SpotAccount
  import opened AccountMargin

  // ----- the margin state as a function of the price -----

  function At(h: PerpHolding, price: int): PerpHolding {
    h.(oraclePrice := price)
  }

  /** An open position without LP shares or open bids and asks in a market that is neither a prediction
      market nor in settlement, with the quote token at one and gains counting in full. */
  predicate Plain(h: PerpHolding) {
    && h.position.baseAssetAmount != 0
    && h.position.lpShares == 0
    && h.position.openBids == h.position.openAsks == 0
    && !h.market.isPrediction && !h.market.inSettlement
    && h.liabilityQuotePrice == h.pnlQuotePrice == PRICE_PRECISION
    && h.market.unrealizedPnlMaintenanceAssetWeight == SV.SPOT_MARKET_WEIGHT_PRECISION
  }

  function MaintenanceAt(includeOpenOrders: bool, enteringHighLeverage: bool): Terms {
    Terms(Maintenance, None, includeOpenOrders, false, enteringHighLeverage)
  }

  /** The position's value and margin at a price. */
  function ValueAt(h: PerpHolding, price: int): int {
    Div(Abs(h.position.baseAssetAmount) * price, BASE_PRECISION)
  }

  function RatioOf(a: Account, h: PerpHolding, t: Terms): nat {
    MarketMarginRatio(h.market, h.position.baseAssetAmount, Maintenance, a.u.maxMarginRatio,
                      a.u.highLeverageMode || t.enteringHighLeverage)
  }

  lemma Whole(x: int)
    ensures Div(x * PRICE_PRECISION, PRICE_PRECISION) == x
    ensures Div(x * SV.SPOT_MARKET_WEIGHT_PRECISION, SV.SPOT_MARKET_WEIGHT_PRECISION) == x
  {
    DivMultiple(x, PRICE_PRECISION);
    DivMultiple(x, SV.SPOT_MARKET_WEIGHT_PRECISION);
  }

  lemma LiabilityAt(a: Account, h: PerpHolding, t: Terms, price: int)
    requires Plain(h) && t == MaintenanceAt(t.includeOpenOrders, t.enteringHighLeverage)
    ensures WeightedLiability(a.u, At(h, price), h.position, t)
            == Div(ValueAt(h, price) * RatioOf(a, h, t), MARGIN_PRECISION) + OrdersAndLpMargin(h, h.position, t)
  {
    Whole(ValueAt(h, price));
    hide Div, MarketMarginRatio;
    assert ChargedBase(h.position, price, false, t.includeOpenOrders)
        == (h.position.baseAssetAmount, ValueAt(h, price));
  }

  lemma PnlAt(h: PerpHolding, t: Terms, price: int)
    requires Plain(h) && t == MaintenanceAt(t.includeOpenOrders, t.enteringHighLeverage)
    ensures WeightedPnl(At(h, price), h.position, t)
            == Sign(h.position.baseAssetAmount) * ValueAt(h, price)
               + h.position.quoteAssetAmount + UnsettledFundingPnl(h.market.amm, h.position)
  {
    hide Div, UnsettledFundingPnl;
    var pnl := PositionPnl(At(h, price), h.position);
    assert pnl == Sign(h.position.baseAssetAmount) * ValueAt(h, price)
               + h.position.quoteAssetAmount + UnsettledFundingPnl(h.market.amm, h.position);
    Whole(pnl);
  }

  /** The account with this position only, at a price. */
  function AccountAt(a: Account, h: PerpHolding, price: int): Account {
    a.(perps := [At(h, price)])
  }

  /** Total collateral less the margin requirement, at a price. */
  function SpareAt(a: Account, h: PerpHolding, t: Terms, price: int): Result<int> {
    var s :- MarginStateOf(AccountAt(a, h, price), t);
    Success(s.totalCollateral - s.marginRequirement)
  }

  lemma OnePerp(u: Margining, perps: seq<PerpHolding>, t: Terms)
    requires |perps| == 1 && IsActive(perps[0].position) && perps[0].position.lpShares == 0
    ensures PerpSums(u, perps, t, 1)
            == Success((WeightedLiability(u, perps[0], perps[0].position, t),
                        WeightedPnl(perps[0], perps[0].position, t)))
  {
    hide WeightedLiability, WeightedPnl;
    assert PerpSums(u, perps, t, 0) == Success((0, 0));
  }

  /** What the account's spot positions leave to spare. */
  function SpotSpare(a: Account, t: Terms): int {
    Totals(SpotTerms(a.u, t, None), a.spots).0 - Totals(SpotTerms(a.u, t, None), a.spots).1
  }

  lemma SpareOfOne(a: Account, h: PerpHolding, t: Terms, price: int)
    requires Plain(h) && t.liquidationBuffer == None
    ensures SpareAt(a, h, t, price)
            == Success(SpotSpare(a, t) + WeightedPnl(At(h, price), h.position, t)
                       - WeightedLiability(a.u, At(h, price), h.position, t))
  {
    hide MarginStateOf, Totals, WeightedLiability, WeightedPnl;
    var x := AccountAt(a, h, price);
    assert x.perps[0] == At(h, price) && x.perps[0].position == h.position;
    assert IsActive(h.position) && h.position.lpShares == 0;
    assert x.u == a.u && SpotSpare(x, t) == SpotSpare(a, t);
    hide SpotSpare, IsActive, Plain, AccountAt, At;
    SpareOfActive(x, t);
  }

  lemma SpareOfActive(a: Account, t: Terms)
    requires |a.perps| == 1 && t.liquidationBuffer == None
    requires IsActive(a.perps[0].position) && a.perps[0].position.lpShares == 0
    ensures var s := MarginStateOf(a, t);
            && s.Success?
            && s.value.totalCollateral - s.value.marginRequirement
               == SpotSpare(a, t) + WeightedPnl(a.perps[0], a.perps[0].position, t)
                  - WeightedLiability(a.u, a.perps[0], a.perps[0].position, t)
  {
    OnePerp(a.u, a.perps, t);
    StateFrom(a, t, WeightedLiability(a.u, a.perps[0], a.perps[0].position, t),
              WeightedPnl(a.perps[0], a.perps[0].position, t));
    hide MarginStateOf, PerpSums, Totals, WeightedLiability, WeightedPnl, IsActive;
  }

  lemma StateFrom(a: Account, t: Terms, liabilities: int, pnl: int)
    requires PerpSums(a.u, a.perps, t, |a.perps|) == Success((liabilities, pnl)) && t.liquidationBuffer == None
    ensures MarginStateOf(a, t)
            == Success(MarginState(Totals(SpotTerms(a.u, t, None), a.spots).0 + pnl,
                                   liabilities + Totals(SpotTerms(a.u, t, None), a.spots).1))
  {
    hide PerpSums, Totals;
  }

  /** Everything but the position's value and margin is the same at every price. */
  lemma SpareInParts(a: Account, h: PerpHolding, t: Terms, price: int)
    requires Plain(h) && t == MaintenanceAt(t.includeOpenOrders, t.enteringHighLeverage)
    ensures SpareAt(a, h, t, price)
            == Success(Fixed(a, h, t) + Net(Sign(h.position.baseAssetAmount), ValueAt(h, price), RatioOf(a, h, t)))
  {
    hide Div, SpareAt, SpotSpare, WeightedLiability, WeightedPnl, UnsettledFundingPnl, OrdersAndLpMargin, RatioOf;
    hide ValueAt;
    LiabilityAt(a, h, t, price);
    PnlAt(h, t, price);
    SpareOfOne(a, h, t, price);
  }

  function Fixed(a: Account, h: PerpHolding, t: Terms): int {
    SpotSpare(a, t) + h.position.quoteAssetAmount + UnsettledFundingPnl(h.market.amm, h.position)
    - OrdersAndLpMargin(h, h.position, t)
  }

  // ----- the error of the linear approximation -----

  /** `w` is the signed share of a unit of value that is not margin, in quote precision. */
  lemma ErrorTerms(a: int, n: int, w: int, s: int, r: int, d: int, g: int, dP: int, dV: int, de: int, dM: int, df: int)
    requires a * dV == n * dP - de
    requires r * dV == 10_000 * dM + df
    requires w * n == a * d + g
    requires w == s * 1_000_000 - 100 * r
    ensures a * (1_000_000 * (s * dV - dM) - dP * d) == dP * g - w * de + 100 * a * df
  {
    assert 1_000_000 * (s * dV - dM) == w * dV + 100 * df by {
      assert w * dV == 1_000_000 * (s * dV) - 100 * (r * dV);
    }
    assert a * (w * dV) == w * (a * dV) == w * (n * dP) - w * de;
    assert w * (n * dP) == (w * n) * dP == (a * d) * dP + g * dP;
    assert a * (w * dV + 100 * df - dP * d) == a * (w * dV) + 100 * a * df - a * (dP * d);
    assert a * (dP * d) == (a * d) * dP;
  }

  lemma AbsProduct(x: int, y: int)
    ensures Abs(x * y) == Abs(x) * Abs(y)
  {
    NegMul(x, y);
    NegMul(y, x);
    NegMul(-x, y);
    NegMul(-y, x);
    MulSigns(Abs(x), Abs(y));
  }

  lemma MulSigns(x: nat, y: nat)
    ensures 0 <= x * y
  {
  }

  lemma SmallProduct(x: int, y: int, a: int)
    requires Abs(y) <= a
    ensures Abs(x * y) <= Abs(x) * a
  {
    AbsProduct(x, y);
    MulMono(Abs(y), a, Abs(x));
  }

  lemma ErrorBound(a: int, error: int, dP: int, g: int, w: int, de: int, df: int)
    requires 0 < a && Abs(g) < a && Abs(de) < a && Abs(df) < 10_000
    requires a * error == dP * g - w * de + 100 * a * df
    ensures Abs(error) < Abs(dP) + Abs(w) + 1_000_000
  {
    SmallProduct(dP, g, a);
    SmallProduct(w, de, a);
    SmallProduct(100 * a, df, 9_999);
    AbsProduct(a, error);
    BoundedBy(Abs(error), Abs(dP), Abs(w), a, Abs(a * error));
  }

  lemma BoundedBy(error: nat, x: nat, y: nat, a: int, product: nat)
    requires 0 < a && product == a * error
    requires product <= x * a + y * a + 999_900 * a
    ensures error < x + y + 1_000_000
  {
    assert (x + y + 999_900) * a == x * a + y * a + 999_900 * a;
    OrderFromProducts(error, x + y + 999_900, a);
  }

  /** Value less margin, for a value `v` held long (`s == 1`) or short (`s == -1`). */
  function Net(s: int, v: int, r: nat): int {
    s * v - Div(v * r, MARGIN_PRECISION)
  }

  lemma Remainders(x: nat, y: nat, d: int)
    requires 0 < d
    ensures 0 <= x * y - Div(x * y, d) * d < d
    ensures 0 <= Div(x * y, d)
  {
    MulSigns(x, y);
    DivBounds(x * y, d);
  }

  /** The change of value less margin between two prices, against the linear one; `unit` is the
      precision of the amount `n`. */
  lemma LinearError(unit: nat, n: nat, s: int, r: nat, price: nat, price': nat)
    requires unit != 0
    ensures var w := s * QUOTE_PRECISION - 100 * r;
            var v, v' := Div(n * price, unit), Div(n * price', unit);
            Abs(QUOTE_PRECISION * (Net(s, v', r) - Net(s, v, r)) - (price' - price) * Div(w * n, unit))
            < Abs(price' - price) + Abs(w) + QUOTE_PRECISION
  {
    var w := s * QUOTE_PRECISION - 100 * r;
    var v, v' := Div(n * price, unit), Div(n * price', unit);
    Remainders(n, price, unit);
    Remainders(n, price', unit);
    Remainders(v, r, MARGIN_PRECISION);
    Remainders(v', r, MARGIN_PRECISION);
    DivBounds(w * n, unit);
    LinearErrorFrom(unit, n, s, r, price, price', w, v, v', Div(v * r, MARGIN_PRECISION), Div(v' * r, MARGIN_PRECISION),
                    Div(w * n, unit));
    NetMoved(s, v, v', r);
    hide *;
  }

  lemma NetMoved(s: int, v: int, v': int, r: nat)
    ensures s * (v' - v) - (Div(v' * r, MARGIN_PRECISION) - Div(v * r, MARGIN_PRECISION))
            == Net(s, v', r) - Net(s, v, r)
  {
    hide Div;
    assert s * (v' - v) == s * v' - s * v;
  }

  lemma LinearErrorFrom(unit: int, n: int, s: int, r: int, price: int, price': int, w: int, v: int, v': int, m: int,
                        m': int, d: int)
    requires 0 < unit && w == s * QUOTE_PRECISION - 100 * r
    requires 0 <= n * price - v * unit < unit
    requires 0 <= n * price' - v' * unit < unit
    requires 0 <= v * r - m * MARGIN_PRECISION < MARGIN_PRECISION
    requires 0 <= v' * r - m' * MARGIN_PRECISION < MARGIN_PRECISION
    requires -unit < w * n - d * unit < unit
    ensures Abs(QUOTE_PRECISION * (s * (v' - v) - (m' - m)) - (price' - price) * d)
            < Abs(price' - price) + Abs(w) + QUOTE_PRECISION
  {
    var de := (n * price' - v' * unit) - (n * price - v * unit);
    var df := (v' * r - m' * MARGIN_PRECISION) - (v * r - m * MARGIN_PRECISION);
    var g := w * n - d * unit;
    assert n * (price' - price) == n * price' - n * price;
    assert r * (v' - v) == v' * r - v * r;
    ErrorTerms(unit, n, w, s, r, d, g, price' - price, v' - v, de, m' - m, df);
    ErrorBound(unit, QUOTE_PRECISION * (s * (v' - v) - (m' - m)) - (price' - price) * d,
               price' - price, g, w, de, df);
  }

  // ----- what the liquidation price comes to -----

  /** The share of a unit of value that is not margin, signed, in quote precision. */
  function FreeShare(a: Account, h: PerpHolding, t: Terms): int {
    Sign(h.position.baseAssetAmount) * QUOTE_PRECISION - 100 * RatioOf(a, h, t)
  }

  /** How far, in quote times quote precision, the linear approximation may be from the margin state:
      a unit for each unit of price moved, and two units of quote for a long at a ratio up to 100%. */
  function Slack(a: Account, h: PerpHolding, t: Terms, moved: int): nat {
    Abs(moved) + Abs(FreeShare(a, h, t)) + QUOTE_PRECISION
  }

  /** The query for the liquidation price of this account as it stands at its oracle price, with `free`
      collateral to spare. */
  predicate Asks(q: Query, a: Account, h: PerpHolding, t: Terms, free: nat) {
    && q.u == a.u && q.m == h.market && q.p == h.position && q.oraclePrice == h.oraclePrice
    && q.spot == None && q.sizeChange == 0 && q.offsetCollateral == 0
    && q.category == Maintenance
    && q.includeOpenOrders == t.includeOpenOrders && q.enteringHighLeverage == t.enteringHighLeverage
    && q.fees.denominator != 0
    && q.totalCollateral - q.marginRequirement == free
  }

  /** What the query then works with. */
  lemma QueryOfPlain(q: Query, a: Account, h: PerpHolding, t: Terms, free: nat)
    requires Plain(h) && Asks(q, a, h, t, free)
    ensures WellFormed(q)
    ensures FreeCollateral(q, 0) == free
    ensures CollateralDelta(q, 0) == Some(DeltaOf(a, h, t))
  {
    NoTradeNoEffect(q.u, q.fees, q.m, q.oraclePrice, q.p, q.entryPrice, q.includeOpenOrders, q.enteringHighLeverage,
                    Maintenance);
    hide MarketMarginRatio, EntriesEffect;
    var ratio := RatioOf(a, h, t);
    DivMultiple(ratio * 100, MARGIN_PRECISION);
    assert ratio * QUOTE_PRECISION == ratio * 100 * MARGIN_PRECISION;
    hide Div;
    assert WorstCasePerpLiability(q.p, q.oraclePrice, q.m.isPrediction).0 == q.p.baseAssetAmount;
  }

  function DeltaOf(a: Account, h: PerpHolding, t: Terms): int {
    Div(FreeShare(a, h, t) * Abs(h.position.baseAssetAmount), BASE_PRECISION)
  }

  /** Spare collateral at `price`, recomputed, is within the slack of the linear approximation from the
      oracle price. */
  lemma LinearAtAnyPrice(a: Account, h: PerpHolding, t: Terms, price: nat)
    requires Plain(h) && t == MaintenanceAt(t.includeOpenOrders, t.enteringHighLeverage)
    requires 0 <= h.oraclePrice
    ensures SpareAt(a, h, t, price).Success? && SpareAt(a, h, t, h.oraclePrice).Success?
    ensures Abs(QUOTE_PRECISION * SpareAt(a, h, t, price).value
                - CollateralAt(SpareAt(a, h, t, h.oraclePrice).value, DeltaOf(a, h, t), h.oraclePrice, price))
            < Slack(a, h, t, price - h.oraclePrice)
  {
    hide SpareAt, Div, RatioOf, Fixed, Net;
    SpareInParts(a, h, t, price);
    SpareInParts(a, h, t, h.oraclePrice);
    LinearError(BASE_PRECISION, Abs(h.position.baseAssetAmount), Sign(h.position.baseAssetAmount), RatioOf(a, h, t),
                h.oraclePrice, price);
  }

  /** The price an account that is not short is given leaves it, by its recomputed margin state, short by
      less than the slack, and one tick further with less than the slack to spare. */
  lemma LiquidationPriceMeansMargin(a: Account, h: PerpHolding, t: Terms, free: nat, price: nat)
    requires Plain(h) && t == MaintenanceAt(t.includeOpenOrders, t.enteringHighLeverage)
    requires 0 <= h.oraclePrice
    ensures SpareAt(a, h, t, h.oraclePrice) == Success(free)
            && price == PriceFrom(free, Some(DeltaOf(a, h, t)), h.oraclePrice) ==>
              && ShortBelow(a, h, t, price, Slack(a, h, t, price - h.oraclePrice))
              && var next := price - Sign(DeltaOf(a, h, t));
                 (next >= 0 ==> SpareBelow(a, h, t, next, Slack(a, h, t, next - h.oraclePrice)))
  {
    hide SpareAt, Div, Plain, Slack, DeltaOf, MaintenanceAt;
    var delta := DeltaOf(a, h, t);
    if SpareAt(a, h, t, h.oraclePrice) == Success(free) && price == PriceFrom(free, Some(delta), h.oraclePrice) {
      LiquidationPriceTight(free, delta, h.oraclePrice);
      LinearAtAnyPrice(a, h, t, price);
      if price - Sign(delta) >= 0 {
        LinearAtAnyPrice(a, h, t, price - Sign(delta));
      }
    }
  }

  /** At `price` the account is short by less than `slack`, in quote times quote precision. */
  predicate ShortBelow(a: Account, h: PerpHolding, t: Terms, price: int, slack: nat) {
    var spare := SpareAt(a, h, t, price);
    spare.Success? && 0 < QUOTE_PRECISION * spare.value + slack
  }

  /** At `price` the account has less than `slack` to spare. */
  predicate SpareBelow(a: Account, h: PerpHolding, t: Terms, price: int, slack: nat) {
    var spare := SpareAt(a, h, t, price);
    spare.Success? && QUOTE_PRECISION * spare.value < slack
  }
}
