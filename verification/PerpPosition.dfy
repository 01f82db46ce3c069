/** The mutable perp position, and settlement as the SDK runs it: clone, then assign fields. */
module PerpPositionObject {
  import opened Bn
  import opened LpSettlement

  class PerpPosition {
    var marketIndex: nat
    var baseAssetAmount: int
    var remainderBaseAssetAmount: SafeInt
    var lastCumulativeFundingRate: int
    var quoteAssetAmount: int
    var quoteEntryAmount: int
    var quoteBreakEvenAmount: int
    var openOrders: nat
    var openBids: int
    var openAsks: int
    var settledPnl: int
    var lpShares: nat
    var lastBaseAssetAmountPerLp: int
    var lastQuoteAssetAmountPerLp: int
    var perLpBase: int

    function Value(): Position
      reads this
    {
      Position(marketIndex, baseAssetAmount, remainderBaseAssetAmount, lastCumulativeFundingRate,
               quoteAssetAmount, quoteEntryAmount, quoteBreakEvenAmount, openOrders, openBids, openAsks,
               settledPnl, lpShares, lastBaseAssetAmountPerLp, lastQuoteAssetAmountPerLp, perLpBase)
    }

    constructor Clone(p: PerpPosition)
      ensures Value() == p.Value()
    {
      marketIndex := p.marketIndex;
      baseAssetAmount := p.baseAssetAmount;
      remainderBaseAssetAmount := p.remainderBaseAssetAmount;
      lastCumulativeFundingRate := p.lastCumulativeFundingRate;
      quoteAssetAmount := p.quoteAssetAmount;
      quoteEntryAmount := p.quoteEntryAmount;
      quoteBreakEvenAmount := p.quoteBreakEvenAmount;
      openOrders := p.openOrders;
      openBids := p.openBids;
      openAsks := p.openAsks;
      settledPnl := p.settledPnl;
      lpShares := p.lpShares;
      lastBaseAssetAmountPerLp := p.lastBaseAssetAmountPerLp;
      lastQuoteAssetAmountPerLp := p.lastQuoteAssetAmountPerLp;
      perLpBase := p.perLpBase;
    }

    /** Restate the last per-LP amounts in the market's exponent. */
    method RebaseTo(amm: Amm) returns (error: Option<Error>)
      modifies this
      ensures match Rebase(amm, old(Value()))
              case Success(p) => error == None && Value() == p
              case Failure(e) => error == Some(e)
    {
      if amm.perLpBase == perLpBase {
        return None;
      }
      var expoDiff := amm.perLpBase - perLpBase;
      var scalar := PowerOfTen(Abs(expoDiff));
      if scalar.Failure? {
        return Some(scalar.error);
      }
      Pow10Positive(Abs(expoDiff));
      if expoDiff > 0 {
        lastBaseAssetAmountPerLp := lastBaseAssetAmountPerLp * scalar.value;
        lastQuoteAssetAmountPerLp := lastQuoteAssetAmountPerLp * scalar.value;
      } else {
        lastBaseAssetAmountPerLp := Div(lastBaseAssetAmountPerLp, scalar.value);
        lastQuoteAssetAmountPerLp := Div(lastQuoteAssetAmountPerLp, scalar.value);
      }
      perLpBase := perLpBase + expoDiff;
      return None;
    }

    /** Add the delta's remainder; move whole steps of the sum into the base. */
    method AddRemainder(remainderBaa: int, step: nat) returns (error: Option<Error>)
      requires step != 0
      modifies this`baseAssetAmount, this`remainderBaseAssetAmount
      ensures match CarryRemainder(old(baseAssetAmount), old(remainderBaseAssetAmount), remainderBaa, step)
              case Success((b, r)) => error == None && baseAssetAmount == b && remainderBaseAssetAmount == r
              case Failure(e) => error == Some(e)
    {
      var added := ToNumber(remainderBaa);
      if added.Failure? {
        return Some(added.error);
      }
      var limit := ToNumber(step);
      if limit.Failure? {
        return Some(limit.error);
      }
      var sum := remainderBaseAssetAmount + added.value;
      if Abs(sum) > limit.value {
        var total := ToNumber(sum);
        if total.Failure? {
          return Some(total.error);
        }
        var left := ToNumber(StepRemainder(total.value, step));
        if left.Failure? {
          return Some(left.error);
        }
        baseAssetAmount := baseAssetAmount + Standardize(total.value, step);
        remainderBaseAssetAmount := left.value;
      } else {
        remainderBaseAssetAmount := sum;
      }
      return None;
    }

    static method SplitQuote(base: int, deltaBaa: int, quoteEntry: int, deltaQaa: int)
      returns (newQuoteEntry: int, pnl: int)
      ensures (newQuoteEntry, pnl) == EntryAndPnl(base, deltaBaa, quoteEntry, deltaQaa)
      ensures newQuoteEntry + pnl == quoteEntry + deltaQaa
    {
      match GetUpdateType(base, deltaBaa) {
        case Open | Increase =>
          newQuoteEntry := quoteEntry + deltaQaa;
          pnl := 0;
        case Reduce | Close =>
          newQuoteEntry := quoteEntry - Div(quoteEntry * Abs(deltaBaa), Abs(base));
          pnl := quoteEntry - newQuoteEntry + deltaQaa;
        case Flip =>
          newQuoteEntry := deltaQaa - Div(deltaQaa * Abs(base), Abs(deltaBaa));
          pnl := quoteEntry + (deltaQaa - newQuoteEntry);
      }
    }

    /** Add the LP's share of the market's open bids and asks. */
    method AddLpOrders(amm: Amm)
      requires amm.sqrtK != 0
      modifies this`openBids, this`openAsks
      ensures openBids == Div(MarketOpenBidAsk(amm).0 * lpShares, amm.sqrtK) + old(openBids)
      ensures openAsks == Div(MarketOpenBidAsk(amm).1 * lpShares, amm.sqrtK) + old(openAsks)
    {
      var (marketOpenBids, marketOpenAsks) := MarketOpenBidAsk(amm);
      var lpOpenBids := Div(marketOpenBids * lpShares, amm.sqrtK);
      var lpOpenAsks := Div(marketOpenAsks * lpShares, amm.sqrtK);
      openBids := lpOpenBids + openBids;
      openAsks := lpOpenAsks + openAsks;
    }

    /** Eliminate counting funding on the settled position. */
    method MarkFundingSettled(amm: Amm)
      modifies this`lastCumulativeFundingRate
      ensures lastCumulativeFundingRate == FundingRateFor(amm, baseAssetAmount)
    {
      if baseAssetAmount > 0 {
        lastCumulativeFundingRate := amm.cumulativeFundingRateLong;
      } else if baseAssetAmount < 0 {
        lastCumulativeFundingRate := amm.cumulativeFundingRateShort;
      } else {
        lastCumulativeFundingRate := 0;
      }
    }

    /** Take in the standardized delta, its quote and the LP's open orders. */
    method Take(amm: Amm, standardizedBaa: int, newQuoteEntry: int, quoteMove: int)
      requires amm.sqrtK != 0
      modifies this
      ensures Value() == TakeDelta(amm, old(Value()), standardizedBaa, newQuoteEntry, quoteMove)
    {
      hide Div, MarketOpenBidAsk, FundingRateFor;
      quoteEntryAmount := newQuoteEntry;
      baseAssetAmount := baseAssetAmount + standardizedBaa;
      quoteAssetAmount := quoteAssetAmount + quoteMove;
      quoteBreakEvenAmount := quoteBreakEvenAmount + quoteMove;
      AddLpOrders(amm);
      MarkFundingSettled(amm);
    }

    /** Rebase the position, carry its remainder and work out the deltas and the quote split. */
    method ApplyPlan(amm: Amm)
      returns (error: Option<Error>, deltaBaa: int, deltaQaa: int, newQuoteEntry: int, pnl: int)
      modifies this
      ensures match PlanSettlement(amm, old(Value()))
              case Success(plan) =>
                && error == None
                && deltaBaa == plan.deltaBaa && deltaQaa == plan.deltaQaa
                && newQuoteEntry == plan.newQuoteEntry && pnl == plan.pnl
                && Value() == plan.rebased.(baseAssetAmount := plan.carriedBase,
                                            remainderBaseAssetAmount := plan.carriedRemainder)
              case Failure(e) => error == Some(e)
    {
      deltaBaa, deltaQaa, newQuoteEntry, pnl := 0, 0, 0, 0;
      error := RebaseTo(amm);
      if error.Some? {
        return;
      }
      var nShares := lpShares;
      var unit := BaseUnit(amm.perLpBase, perLpBase);
      if unit.Failure? {
        error := Some(unit.error);
        return;
      }
      if unit.value == 0 || amm.orderStepSize == 0 {
        error := Some(DivisionByZero);
        return;
      }
      deltaBaa := LpShare(amm.baseAssetAmountPerLp, lastBaseAssetAmountPerLp, nShares, unit.value);
      deltaQaa := LpShare(amm.quoteAssetAmountPerLp, lastQuoteAssetAmountPerLp, nShares, unit.value);
      error := AddRemainder(StepRemainder(deltaBaa, amm.orderStepSize), amm.orderStepSize);
      if error.Some? {
        return;
      }
      newQuoteEntry, pnl := SplitQuote(baseAssetAmount, deltaBaa, quoteEntryAmount, deltaQaa);
    }
  }

  /** The position an LP would have if its shares were settled now, the remainder it is left with
      and the pnl. The result is a fresh object unless there are no shares; the original keeps its
      fields. */
  method GetPerpPositionWithLpSettle(amm: Amm, oraclePrice: int, original: PerpPosition,
                                     burnLpShares: bool, includeRemainder: bool)
    returns (error: Option<Error>, position: PerpPosition, remainder: int, pnl: int)
    ensures match Settle(amm, oraclePrice, original.Value(), burnLpShares, includeRemainder)
            case Success(s) =>
              && error == None
              && position.Value() == s.position
              && remainder == s.remainder
              && pnl == s.pnl
            case Failure(e) => error == Some(e)
    ensures if original.lpShares == 0 then position == original else fresh(position)
    ensures original.Value() == old(original.Value())
  {
    hide Div, Quot, Rem, Pow10, UnsettledFundingPnl, EntryAndPnl;
    position, remainder, pnl := original, 0, 0;
    if original.lpShares == 0 {
      return None, original, 0, 0;
    }
    position := new PerpPosition.Clone(original);
    var quoteFundingPnl := UnsettledFundingPnl(amm, position.Value());
    var deltaBaa, deltaQaa, newQuoteEntry;
    error, deltaBaa, deltaQaa, newQuoteEntry, pnl := position.ApplyPlan(amm);
    if error.Some? {
      return;
    }
    if amm.sqrtK == 0 {
      return Some(DivisionByZero), position, 0, 0;
    }
    var dustBaseAssetValue := DustValue(burnLpShares, position.remainderBaseAssetAmount, oraclePrice);
    position.Take(amm, Standardize(deltaBaa, amm.orderStepSize), newQuoteEntry,
                  deltaQaa + quoteFundingPnl - dustBaseAssetValue);

    remainder := position.remainderBaseAssetAmount;
    if includeRemainder {
      position.baseAssetAmount := position.baseAssetAmount + remainder;
      position.remainderBaseAssetAmount := 0;
    }
    return None, position, remainder, pnl;
  }
}
