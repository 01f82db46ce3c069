/** What a settlement books besides the LP's quote: the funding it owes and the dust it charges, in
    terms of rates, base and price alone. */
module SettlementCharges {
  import opened Bn
  import opened LpSettlement
  import opened LpSettlementTheorems

  // ----- funding -----

  /** `funding` is what a base is paid for a move of its funding rate: against the base's side when
      the rate rises, for it when the rate falls, cut to whole units toward zero. */
  predicate FundingFits(rateMove: int, base: int, funding: int) {
    var due := rateMove * base;
    && (due >= 0 ==> funding <= 0 && 0 <= due + funding * FUNDING_UNIT < FUNDING_UNIT)
    && (due <= 0 ==> funding >= 0 && -FUNDING_UNIT < due + funding * FUNDING_UNIT <= 0)
  }

  /** How far the funding rate of the position's side has moved since it was last paid. */
  function RateMove(amm: Amm, p: Position): int {
    if p.baseAssetAmount > 0 then amm.cumulativeFundingRateLong - p.lastCumulativeFundingRate
    else if p.baseAssetAmount < 0 then amm.cumulativeFundingRateShort - p.lastCumulativeFundingRate
    else 0
  }

  lemma FundingIsUnique(rateMove: int, base: int, f: int, f': int)
    requires FundingFits(rateMove, base, f) && FundingFits(rateMove, base, f')
    ensures f == f'
  {
  }

  /** Longs pay shorts when the rate rises: the unsettled funding is the exact amount, rounded toward
      zero once although it is divided twice. */
  lemma UnsettledFundingFits(amm: Amm, p: Position)
    ensures FundingFits(RateMove(amm, p), p.baseAssetAmount, UnsettledFundingPnl(amm, p))
  {
    hide Div;
    if p.baseAssetAmount != 0 {
      DivideTwice(RateMove(amm, p) * p.baseAssetAmount);
    }
  }

  lemma DivideTwice(due: int)
    ensures var paid := Div(Div(due, AMM_RESERVE_PRECISION), FUNDING_RATE_BUFFER_PRECISION);
            && (due >= 0 ==> paid >= 0 && 0 <= due - paid * FUNDING_UNIT < FUNDING_UNIT)
            && (due <= 0 ==> paid <= 0 && -FUNDING_UNIT < due - paid * FUNDING_UNIT <= 0)
  {
    hide Div;
    DivBounds(due, AMM_RESERVE_PRECISION);
    DivBounds(Div(due, AMM_RESERVE_PRECISION), FUNDING_RATE_BUFFER_PRECISION);
  }

  // ----- dust -----

  /** `dust` is what burning shares charges for the remainder: its value at the price, rounded up to a
      whole unit and by one more if it is whole already; nothing if there is nothing to burn. */
  predicate DustFits(burn: bool, remainder: int, price: int, dust: int) {
    if !burn || remainder == 0 then dust == 0
    else if price >= 0 then
      (dust - 1) * AMM_RESERVE_PRECISION <= Abs(remainder) * price < dust * AMM_RESERVE_PRECISION
    else
      (dust - 2) * AMM_RESERVE_PRECISION < Abs(remainder) * price <= (dust - 1) * AMM_RESERVE_PRECISION
  }

  lemma DustValueFits(burn: bool, remainder: int, price: int)
    ensures DustFits(burn, remainder, price, DustValue(burn, remainder, price))
  {
    var value := Abs(remainder) * price;
    if price >= 0 {
      MulMono(0, price, Abs(remainder));
    } else {
      MulMono(price, 0, Abs(remainder));
    }
    DivBounds(value, AMM_RESERVE_PRECISION);
    hide Div;
  }

  // ----- the settlement -----

  /** Quote and break-even amounts move together, by the LP's quote delta, the funding the position is
      due for the move of its side's rate, and less the dust. */
  lemma SettleBooksFundingAndDust(amm: Amm, price: int, p: Position, burn: bool, fold: bool)
    returns (funding: int, dust: int)
    requires p.lpShares != 0 && CanSettle(amm, p)
    ensures Settle(amm, price, p, burn, fold).Success?
    ensures FundingFits(RateMove(amm, p), p.baseAssetAmount, funding)
    ensures DustFits(burn, Settle(amm, price, p, burn, fold).value.remainder, price, dust)
    ensures var s := Settle(amm, price, p, burn, fold).value.position;
            s.quoteAssetAmount - p.quoteAssetAmount
            == s.quoteBreakEvenAmount - p.quoteBreakEvenAmount
            == QuoteDelta(amm, p) + funding - dust
  {
    hide Settle, UnsettledFundingPnl, DustValue, CanSettle, QuoteDelta, BaseDelta, PlanSettlement;
    SettleConservesQuote(amm, price, p, burn, fold);
    funding := UnsettledFundingPnl(amm, p);
    dust := DustValue(burn, Settle(amm, price, p, burn, fold).value.remainder, price);
    UnsettledFundingFits(amm, p);
    DustValueFits(burn, Settle(amm, price, p, burn, fold).value.remainder, price);
  }
}
