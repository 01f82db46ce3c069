/** The asset and liability value of all of an account's spot positions. */
module SpotAccount {
  import opened Bn
  import opened PerpMargin
  import opened SpotValue

  /** A hundredth of the quote precision for every open order. */
  function OpenOrderMargin(openOrders: nat): nat {
    10_000 * openOrders
  }

  /** A position with its market and the prices it is valued at. */
  datatype Holding = Holding(position: SpotPosition, market: SpotMarket, oraclePrice: int, liveTwap: int)

  /** How a valuation is asked for; without a filter it covers every market. */
  datatype Valuation = Valuation(filter: Option<nat>, category: Option<MarginCategory>, liquidationBuffer: Option<nat>,
                                 includeOpenOrders: bool, strict: bool, maxMarginRatio: nat)

  // ----- one position's values, whatever the filter -----

  /** What a position's balance is worth, and its worst outcome over open orders: the tokens left,
      their value as an asset or a liability, and the quote its orders bring in. */
  datatype Appraisal = Appraisal(marketIndex: nat, available: bool, openOrders: nat, isBorrow: bool,
                                 balanceAssets: int, balanceLiability: nat,
                                 worstTokens: int, worstAssets: int, worstLiability: nat, ordersQuote: int)

  function PriceOf(v: Valuation, h: Holding): StrictOraclePrice {
    StrictOraclePrice(h.oraclePrice, if v.strict then Some(h.liveTwap) else None)
  }

  function AssetValue(v: Valuation, h: Holding, amount: int): int {
    SpotAssetValue(amount, PriceOf(v, h), h.market, v.maxMarginRatio, v.category)
  }

  function LiabilityValue(v: Valuation, h: Holding, amount: int): nat {
    Abs(SpotLiabilityValue(amount, PriceOf(v, h), h.market, v.maxMarginRatio, v.category, v.liquidationBuffer))
  }

  /** What a position's open orders would bring in, or cost at the quote weight. */
  function OrdersQuote(v: Valuation, ordersValue: int): int {
    if ordersValue >= 0 then ordersValue
    else
      var weight := if v.category == Some(Initial) then Max(SPOT_MARKET_WEIGHT_PRECISION, v.maxMarginRatio)
                    else SPOT_MARKET_WEIGHT_PRECISION;
      -Div(Abs(ordersValue) * weight, SPOT_MARKET_WEIGHT_PRECISION)
  }

  function Appraise(v: Valuation, h: Holding): Appraisal {
    var p := h.position;
    var tokens := PositionTokens(p, h.market);
    var worst := WorstCaseTokenAmounts(p, h.market, PriceOf(v, h), v.category, v.maxMarginRatio);
    Appraisal(p.marketIndex, IsAvailable(p), p.openOrders, p.balanceType == Borrow,
              AssetValue(v, h, tokens), LiabilityValue(v, h, tokens),
              worst.tokenAmount, AssetValue(v, h, worst.tokenAmount), LiabilityValue(v, h, worst.tokenAmount),
              OrdersQuote(v, worst.ordersValue))
  }

  // ----- adding positions up -----

  datatype Tally = Tally(net: int, assets: int, liabilities: int) {
    function Plus(t: Tally): Tally {
      Tally(net + t.net, assets + t.assets, liabilities + t.liabilities)
    }
  }

  const NOTHING := Tally(0, 0, 0)

  predicate CountsForBase(filter: Option<nat>, marketIndex: nat) {
    filter == None || filter == Some(marketIndex)
  }

  predicate CountsForQuote(filter: Option<nat>, includeOpenOrders: bool, openOrders: nat) {
    filter == None || filter == Some(QUOTE_SPOT_MARKET_INDEX) || (includeOpenOrders && openOrders != 0)
  }

  /** What one position adds to the running net quote, assets and liabilities. */
  function Entry(filter: Option<nat>, includeOpenOrders: bool, a: Appraisal): Tally {
    var forBase := CountsForBase(filter, a.marketIndex);
    var forQuote := CountsForQuote(filter, includeOpenOrders, a.openOrders);
    if a.available || (!forBase && !forQuote) then
      NOTHING
    else if a.marketIndex == QUOTE_SPOT_MARKET_INDEX && forQuote then
      Tally(if a.isBorrow then 0 - a.balanceLiability else a.balanceAssets, 0, 0)
    else if !includeOpenOrders && forBase then
      if a.isBorrow then Tally(0, 0, a.balanceLiability) else Tally(0, a.balanceAssets, 0)
    else
      Tally(if forQuote then a.ordersQuote else 0,
            if a.worstTokens > 0 && forBase then a.worstAssets else 0,
            (if a.worstTokens < 0 && forBase then a.worstLiability else 0)
            + OpenOrderMargin(a.openOrders))
  }

  /** The first `n` positions added up. */
  function Sum(filter: Option<nat>, includeOpenOrders: bool, xs: seq<Appraisal>, n: nat): Tally
    requires n <= |xs|
  {
    if n == 0 then NOTHING
    else Sum(filter, includeOpenOrders, xs, n - 1).Plus(Entry(filter, includeOpenOrders, xs[n - 1]))
  }

  /** Net quote joins the assets if positive and the liabilities if not, unless another market is asked for. */
  function Split(t: Tally, filter: Option<nat>): (int, int) {
    if filter == None || filter == Some(QUOTE_SPOT_MARKET_INDEX)
    then (t.assets + Max(t.net, 0), t.liabilities + Max(-t.net, 0))
    else (t.assets, t.liabilities)
  }

  function TotalsOf(filter: Option<nat>, includeOpenOrders: bool, xs: seq<Appraisal>): (int, int) {
    Split(Sum(filter, includeOpenOrders, xs, |xs|), filter)
  }

  function Appraisals(v: Valuation, holdings: seq<Holding>): seq<Appraisal> {
    seq(|holdings|, i requires 0 <= i < |holdings| => Appraise(v, holdings[i]))
  }

  function Totals(v: Valuation, holdings: seq<Holding>): (int, int) {
    TotalsOf(v.filter, v.includeOpenOrders, Appraisals(v, holdings))
  }

  // ----- the valuation loop -----

  /** The body of the loop: one position added to the running amounts. */
  method AddPosition(v: Valuation, h: Holding, running: Tally)
    returns (netQuoteValue: int, totalAssetValue: int, totalLiabilityValue: int)
    ensures Tally(netQuoteValue, totalAssetValue, totalLiabilityValue)
            == running.Plus(Entry(v.filter, v.includeOpenOrders, Appraise(v, h)))
  {
    hide AssetValue, LiabilityValue, OrdersQuote, WorstCaseTokenAmounts, TokenAmount, PriceOf;
    netQuoteValue, totalAssetValue, totalLiabilityValue := running.net, running.assets, running.liabilities;
    var p := h.position;
    var countForBase := CountsForBase(v.filter, p.marketIndex);
    var countForQuote := CountsForQuote(v.filter, v.includeOpenOrders, p.openOrders);
    if IsAvailable(p) || (!countForBase && !countForQuote) {
      return;
    }
    var tokenAmount := PositionTokens(p, h.market);
    if p.marketIndex == QUOTE_SPOT_MARKET_INDEX && countForQuote {
      if p.balanceType == Borrow {
        netQuoteValue := netQuoteValue - LiabilityValue(v, h, tokenAmount);
      } else {
        netQuoteValue := netQuoteValue + AssetValue(v, h, tokenAmount);
      }
      return;
    }
    if !v.includeOpenOrders && countForBase {
      if p.balanceType == Borrow {
        totalLiabilityValue := totalLiabilityValue + LiabilityValue(v, h, tokenAmount);
      } else {
        totalAssetValue := totalAssetValue + AssetValue(v, h, TokenAmount(p.scaledBalance, h.market, p.balanceType));
      }
      return;
    }
    var worst := WorstCaseTokenAmounts(p, h.market, PriceOf(v, h), v.category, v.maxMarginRatio);
    if worst.tokenAmount > 0 && countForBase {
      totalAssetValue := totalAssetValue + AssetValue(v, h, worst.tokenAmount);
    }
    if worst.tokenAmount < 0 && countForBase {
      totalLiabilityValue := totalLiabilityValue + LiabilityValue(v, h, worst.tokenAmount);
    }
    if countForQuote {
      netQuoteValue := netQuoteValue + OrdersQuote(v, worst.ordersValue);
    }
    totalLiabilityValue := totalLiabilityValue + OpenOrderMargin(p.openOrders);
  }

  /** The loop itself. */
  method AddPositions(v: Valuation, holdings: seq<Holding>)
    returns (netQuoteValue: int, totalAssetValue: int, totalLiabilityValue: int)
    ensures Tally(netQuoteValue, totalAssetValue, totalLiabilityValue)
            == Sum(v.filter, v.includeOpenOrders, Appraisals(v, holdings), |holdings|)
  {
    hide Appraise, Entry;
    netQuoteValue, totalAssetValue, totalLiabilityValue := 0, 0, 0;
    ghost var xs := Appraisals(v, holdings);
    for i := 0 to |holdings|
      invariant Tally(netQuoteValue, totalAssetValue, totalLiabilityValue) == Sum(v.filter, v.includeOpenOrders, xs, i)
    {
      netQuoteValue, totalAssetValue, totalLiabilityValue :=
        AddPosition(v, holdings[i], Tally(netQuoteValue, totalAssetValue, totalLiabilityValue));
    }
  }

  method GetSpotMarketAssetAndLiabilityValue(v: Valuation, holdings: seq<Holding>)
    returns (totalAssetValue: int, totalLiabilityValue: int)
    ensures (totalAssetValue, totalLiabilityValue) == Totals(v, holdings)
  {
    hide Sum;
    var netQuoteValue;
    netQuoteValue, totalAssetValue, totalLiabilityValue := AddPositions(v, holdings);
    if v.filter == None || v.filter == Some(QUOTE_SPOT_MARKET_INDEX) {
      if netQuoteValue > 0 {
        totalAssetValue := totalAssetValue + netQuoteValue;
      } else {
        totalLiabilityValue := totalLiabilityValue + Abs(netQuoteValue);
      }
    }
  }

  // ----- the valuation as a sum over positions -----

  /** What a position is worth to the account, by itself: an asset counts for, a liability against. */
  function SignedValue(includeOpenOrders: bool, a: Appraisal): int {
    if a.available then 0
    else if a.marketIndex == QUOTE_SPOT_MARKET_INDEX || !includeOpenOrders then
      if a.isBorrow then 0 - a.balanceLiability else a.balanceAssets
    else
      (if a.worstTokens < 0 then 0 - a.worstLiability else if a.worstTokens > 0 then a.worstAssets else 0)
      + a.ordersQuote
  }

  /** The margin reserved for a position's open orders in non-quote markets. */
  function OrderMargin(a: Appraisal): nat {
    if a.marketIndex == QUOTE_SPOT_MARKET_INDEX then 0 else OpenOrderMargin(a.openOrders)
  }

  function SumSigned(includeOpenOrders: bool, xs: seq<Appraisal>, n: nat): int
    requires n <= |xs|
  {
    if n == 0 then 0 else SumSigned(includeOpenOrders, xs, n - 1) + SignedValue(includeOpenOrders, xs[n - 1])
  }

  function SumOrderMargin(xs: seq<Appraisal>, n: nat): nat
    requires n <= |xs|
  {
    if n == 0 then 0 else SumOrderMargin(xs, n - 1) + OrderMargin(xs[n - 1])
  }

  /** An available position has no orders, so no margin is due on it either. */
  predicate Consistent(xs: seq<Appraisal>) {
    forall i :: 0 <= i < |xs| ==> xs[i].available ==> xs[i].openOrders == 0
  }

  lemma {:induction false} SumDecomposes(includeOpenOrders: bool, xs: seq<Appraisal>, n: nat)
    requires Consistent(xs) && n <= |xs|
    ensures var t := Sum(None, includeOpenOrders, xs, n);
            t.net + t.assets - t.liabilities
            == SumSigned(includeOpenOrders, xs, n) - (if includeOpenOrders then SumOrderMargin(xs, n) else 0)
  {
    if n != 0 {
      SumDecomposes(includeOpenOrders, xs, n - 1);
    }
  }

  lemma AppraisalsConsistent(v: Valuation, holdings: seq<Holding>)
    ensures Consistent(Appraisals(v, holdings))
  {
  }

  /** Over all markets, net value is the sum of what each position is worth by itself, less the margin
      for open orders if they are included: netting the quote loses and invents nothing. */
  lemma NetValueDecomposes(v: Valuation, holdings: seq<Holding>)
    requires v.filter == None
    ensures var (assets, liabilities) := Totals(v, holdings);
            var xs := Appraisals(v, holdings);
            assets - liabilities
            == SumSigned(v.includeOpenOrders, xs, |xs|) - (if v.includeOpenOrders then SumOrderMargin(xs, |xs|) else 0)
  {
    AppraisalsConsistent(v, holdings);
    SumDecomposes(v.includeOpenOrders, Appraisals(v, holdings), |holdings|);
  }

  // ----- order of positions -----

  lemma {:induction false} SumOfPrefix(filter: Option<nat>, withOrders: bool, xs: seq<Appraisal>, ys: seq<Appraisal>,
                                       n: nat)
    requires n <= |xs|
    ensures Sum(filter, withOrders, xs + ys, n) == Sum(filter, withOrders, xs, n)
  {
    if n != 0 {
      SumOfPrefix(filter, withOrders, xs, ys, n - 1);
    }
  }

  lemma {:induction false} SumSplits(filter: Option<nat>, withOrders: bool, xs: seq<Appraisal>, ys: seq<Appraisal>,
                                     n: nat)
    requires n <= |ys|
    ensures Sum(filter, withOrders, xs + ys, |xs| + n)
            == Sum(filter, withOrders, xs, |xs|).Plus(Sum(filter, withOrders, ys, n))
  {
    if n == 0 {
      SumOfPrefix(filter, withOrders, xs, ys, |xs|);
    } else {
      SumSplits(filter, withOrders, xs, ys, n - 1);
    }
  }

  lemma MultisetCancel<T>(a: multiset<T>, b: multiset<T>, x: T)
    requires a + multiset{x} == b + multiset{x}
    ensures a == b
  {
    assert a == a + multiset{x} - multiset{x};
    assert b == b + multiset{x} - multiset{x};
  }

  /** Take out of `ys` the last element of a permutation `xs` of it. */
  lemma TakeOut<T>(xs: seq<T>, ys: seq<T>) returns (i: nat)
    requires xs != [] && multiset(xs) == multiset(ys)
    ensures i < |ys| && ys[i] == xs[|xs| - 1]
    ensures multiset(xs[..|xs| - 1]) == multiset(ys[..i] + ys[i + 1..])
  {
    var n := |xs| - 1;
    var x := xs[n];
    assert xs == xs[..n] + [x];
    assert x in multiset(xs);
    assert x in ys;
    i :| 0 <= i < |ys| && ys[i] == x;
    assert ys == ys[..i] + [x] + ys[i + 1..];
    MultisetCancel(multiset(xs[..n]), multiset(ys[..i] + ys[i + 1..]), x);
  }

  lemma {:induction false} SumIgnoresOrder(filter: Option<nat>, withOrders: bool, xs: seq<Appraisal>,
                                           ys: seq<Appraisal>)
    requires multiset(xs) == multiset(ys)
    ensures |xs| == |ys| && Sum(filter, withOrders, xs, |xs|) == Sum(filter, withOrders, ys, |ys|)
    decreases |xs|
  {
    hide Sum, Entry;
    assert |multiset(xs)| == |xs| && |multiset(ys)| == |ys|;
    if xs != [] {
      var i := TakeOut(xs, ys);
      var before, x, after := ys[..i], ys[i], ys[i + 1..];
      SumIgnoresOrder(filter, withOrders, xs[..|xs| - 1], before + after);
      SumSplits(filter, withOrders, xs[..|xs| - 1], [x], 1);
      assert xs == xs[..|xs| - 1] + [x];
      SumSplits(filter, withOrders, before, after, |after|);
      SumSplits(filter, withOrders, before, [x], 1);
      SumSplits(filter, withOrders, before + [x], after, |after|);
      assert ys == before + [x] + after;
    }
  }

  lemma {:induction false} AppraisalsPermuted(v: Valuation, xs: seq<Holding>, ys: seq<Holding>)
    requires multiset(xs) == multiset(ys)
    ensures multiset(Appraisals(v, xs)) == multiset(Appraisals(v, ys))
    decreases |xs|
  {
    hide Appraise;
    if xs == [] {
      assert |multiset(ys)| == |ys|;
    } else {
      var n := |xs| - 1;
      var i := TakeOut(xs, ys);
      var before, x, after := ys[..i], ys[i], ys[i + 1..];
      AppraisalsPermuted(v, xs[..n], before + after);
      assert Appraisals(v, xs) == Appraisals(v, xs[..n]) + [Appraise(v, x)];
      assert Appraisals(v, ys) == Appraisals(v, before) + [Appraise(v, x)] + Appraisals(v, after);
      assert Appraisals(v, before + after) == Appraisals(v, before) + Appraisals(v, after);
    }
  }

  /** The order of the positions does not matter, whatever is asked for. */
  lemma TotalsIgnoreOrder(v: Valuation, xs: seq<Holding>, ys: seq<Holding>)
    requires multiset(xs) == multiset(ys)
    ensures Totals(v, xs) == Totals(v, ys)
  {
    AppraisalsPermuted(v, xs, ys);
    SumIgnoresOrder(v.filter, v.includeOpenOrders, Appraisals(v, xs), Appraisals(v, ys));
  }
}
