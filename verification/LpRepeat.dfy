/** Settling a settled position again. The settled position keeps its shares and its last per-LP
    amounts, so it is a prediction to read, not a state to go on from. */
module LpRepeat {
  import opened Bn
  import opened LpSettlement
  import opened LpSettlementTheorems

  /** The position after `n` settlements, each of the result of the one before. */
  function SettleTimes(amm: Amm, price: int, p: Position, burn: bool, fold: bool, n: nat): Result<Position> {
    if n == 0 then Success(p)
    else
      var before :- SettleTimes(amm, price, p, burn, fold, n - 1);
      var s :- Settle(amm, price, before, burn, fold);
      Success(s.position)
  }

  function WithRemainder(p: Position): int {
    p.baseAssetAmount + p.remainderBaseAssetAmount
  }

  /** The settled position would accrue the same deltas again. */
  lemma DeltasRemain(amm: Amm, price: int, p: Position, burn: bool, fold: bool)
    requires p.lpShares != 0 && CanSettle(amm, p)
    ensures Settle(amm, price, p, burn, fold).Success?
    ensures var s := Settle(amm, price, p, burn, fold).value.position;
            && s.lpShares == p.lpShares
            && ExponentsAccepted(amm.perLpBase, s.perLpBase)
            && BaseDelta(amm, s) == BaseDelta(amm, p)
            && QuoteDelta(amm, s) == QuoteDelta(amm, p)
  {
    hide Settle, PlanSettlement, EntryAndPnl, Div, Quot, Rem, UnsettledFundingPnl, DustValue, MarketOpenBidAsk;
    var plan := PlanOf(amm, price, p, burn, fold);
    RebaseSucceedsIff(amm, p);
    assert Rescale(plan.rebased.lastBaseAssetAmountPerLp, 0) == plan.rebased.lastBaseAssetAmountPerLp;
    assert Rescale(plan.rebased.lastQuoteAssetAmountPerLp, 0) == plan.rebased.lastQuoteAssetAmountPerLp;
  }

  /** Every further settlement takes in the whole delta once more: it changes base and remainder
      exactly when there is a delta at all. */
  lemma {:induction false} EveryTimeTheDelta(amm: Amm, price: int, p: Position, burn: bool, fold: bool, n: nat)
    requires p.lpShares != 0 && ExponentsAccepted(amm.perLpBase, p.perLpBase)
    ensures match SettleTimes(amm, price, p, burn, fold, n)
            case Failure(_) => true
            case Success(s) =>
              && WithRemainder(s) == WithRemainder(p) + n * BaseDelta(amm, p)
              && s.lpShares == p.lpShares
              && ExponentsAccepted(amm.perLpBase, s.perLpBase)
              && BaseDelta(amm, s) == BaseDelta(amm, p)
  {
    hide Settle, BaseDelta, QuoteDelta;
    if n != 0 {
      EveryTimeTheDelta(amm, price, p, burn, fold, n - 1);
      var before := SettleTimes(amm, price, p, burn, fold, n - 1);
      if before.Success? && Settle(amm, price, before.value, burn, fold).Success? {
        SettleSucceedsIff(amm, price, before.value, burn, fold);
        SettleConservesBase(amm, price, before.value, burn, fold);
        DeltasRemain(amm, price, before.value, burn, fold);
        assert n * BaseDelta(amm, p) == (n - 1) * BaseDelta(amm, p) + BaseDelta(amm, p);
      }
    }
  }
}
