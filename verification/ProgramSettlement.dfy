/** LP settlement as the on-chain program runs it, and where the SDK's simulation of it agrees.

    The program's checked arithmetic refuses overflow; here numbers are unbounded, so the lemmas speak
    of the settlements no overflow stops. */
module ProgramSettlement {
  import opened Bn
  import opened LpSettlement
  import opened LpSettlementTheorems

  datatype Refusal = InvalidFundingRate | MathError | InvalidPosition | InvalidDelta

  datatype Outcome = Settled(position: Position, pnl: int) | Refused(reason: Refusal)

  const I32_MAX := 0x7FFF_FFFF

  /** -1, 0 or 1: unlike the SDK's sign, zero has its own. */
  function Signum(x: int): int {
    if x < 0 then -1 else if x == 0 then 0 else 1
  }

  function PerLpBaseUnit(expo: int): nat {
    Pow10Positive(Abs(expo));
    if expo > 0 then AMM_RESERVE_PRECISION * Pow10(expo) else Quot(AMM_RESERVE_PRECISION, Pow10(Abs(expo)))
  }

  function RebasePosition(amm: Amm, p: Position): Position {
    var expoDiff := amm.perLpBase - p.perLpBase;
    p.(lastBaseAssetAmountPerLp := Rescale(p.lastBaseAssetAmountPerLp, expoDiff),
       lastQuoteAssetAmountPerLp := Rescale(p.lastQuoteAssetAmountPerLp, expoDiff),
       perLpBase := amm.perLpBase)
  }

  /** The update type compares base and delta with their remainders. */
  function GetPositionUpdateType(p: Position, delta: int): UpdateType {
    var base := p.baseAssetAmount + p.remainderBaseAssetAmount;
    if p.baseAssetAmount == 0 && p.remainderBaseAssetAmount == 0 then Open
    else if Signum(base) == Signum(delta) then Increase
    else if Abs(base) > Abs(delta) then Reduce
    else if Abs(base) == Abs(delta) then Close
    else Flip
  }

  /** The program's carry folds a remainder of exactly one step; the SDK's does not. */
  function CarryAtStep(base: int, remainder: int, step: nat): (int, int)
    requires step != 0
  {
    if Abs(remainder) >= step
    then (base + Standardize(remainder, step), StepRemainder(remainder, step))
    else (base, remainder)
  }

  /** The part of `amount` that `n` parts out of `d` close; none if there is nothing to divide by. */
  function Released(amount: int, n: nat, d: nat): Option<int> {
    if d == 0 then None else Some(Div(amount * n, d))
  }

  /** The new quote entry and break-even amount and the pnl, by type of update. */
  function SplitByType(p: Position, updateType: UpdateType, delta: int, deltaQaa: int): Option<(int, int, int)> {
    var whole := Abs(p.baseAssetAmount + p.remainderBaseAssetAmount);
    match updateType
    case Open | Increase =>
      Some((p.quoteEntryAmount + deltaQaa, p.quoteBreakEvenAmount + deltaQaa, 0))
    case Reduce | Close =>
      (match (Released(p.quoteEntryAmount, Abs(delta), whole), Released(p.quoteBreakEvenAmount, Abs(delta), whole))
       case (Some(entry), Some(breakEven)) =>
         Some((p.quoteEntryAmount - entry, p.quoteBreakEvenAmount - breakEven, entry + deltaQaa))
       case _ => None)
    case Flip =>
      (match Released(deltaQaa, whole, Abs(delta))
       case Some(closing) => Some((deltaQaa - closing, deltaQaa - closing, p.quoteEntryAmount + closing))
       case None => None)
  }

  /** `delta` is standardized base plus remainder, `deltaQaa` its quote. */
  function UpdatePosition(amm: Amm, p: Position, delta: int, deltaQaa: int): Outcome
    requires amm.orderStepSize != 0
  {
    var step := amm.orderStepSize;
    if Standardize(delta, step) == 0 && StepRemainder(delta, step) == 0 then
      Settled(p.(quoteAssetAmount := p.quoteAssetAmount + deltaQaa), deltaQaa)
    else
      var updateType := GetPositionUpdateType(p, delta);
      var (base, remainder) := CarryAtStep(p.baseAssetAmount + Standardize(delta, step),
                                           p.remainderBaseAssetAmount + StepRemainder(delta, step), step);
      if Abs(remainder) > I32_MAX then
        Refused(InvalidDelta)
      else if !FundingSettled(amm, p) then
        Refused(InvalidFundingRate)
      else if Rem(Abs(p.baseAssetAmount), step) != 0 then
        Refused(InvalidPosition)
      else
        match SplitByType(p, updateType, delta, deltaQaa)
        case None => Refused(MathError)
        case Some((quoteEntry, quoteBreakEven, pnl)) =>
          Settled(p.(baseAssetAmount := base,
                     remainderBaseAssetAmount := remainder,
                     quoteAssetAmount := p.quoteAssetAmount + deltaQaa,
                     quoteEntryAmount := quoteEntry,
                     quoteBreakEvenAmount := quoteBreakEven,
                     lastCumulativeFundingRate :=
                       if updateType == Close then 0
                       else if updateType == Reduce then p.lastCumulativeFundingRate
                       else if base + remainder > 0 then amm.cumulativeFundingRateLong
                       else amm.cumulativeFundingRateShort),
                  pnl)
  }

  function SettleLpPosition(amm: Amm, p: Position): Outcome {
    if !FundingSettled(amm, p) then
      Refused(InvalidFundingRate)
    else
      var rebased := RebasePosition(amm, p);
      var unit := PerLpBaseUnit(amm.perLpBase);
      if unit == 0 || amm.orderStepSize == 0 then
        Refused(MathError)
      else
        var delta := LpShare(amm.baseAssetAmountPerLp, rebased.lastBaseAssetAmountPerLp, p.lpShares, unit);
        var deltaQaa := LpShare(amm.quoteAssetAmountPerLp, rebased.lastQuoteAssetAmountPerLp, p.lpShares, unit);
        match UpdatePosition(amm, rebased, delta, deltaQaa)
        case Settled(position, pnl) =>
          Settled(position.(lastBaseAssetAmountPerLp := amm.baseAssetAmountPerLp,
                            lastQuoteAssetAmountPerLp := amm.quoteAssetAmountPerLp), pnl)
        case Refused(reason) => Refused(reason)
  }

  /** The base of the program's read-only simulation, used for margin: it is fixed before the
      remainder is carried. */
  function SimulatedBase(amm: Amm, p: Position): int
    requires -9 <= amm.perLpBase && amm.orderStepSize != 0
  {
    p.baseAssetAmount + Standardize(BaseDelta(amm, p), amm.orderStepSize)
  }

  // ----- agreement with the SDK -----

  lemma UnitsAgree(expo: int)
    requires -9 <= expo <= 9
    ensures PerLpBaseUnit(expo) == Pow10(9 + expo)
  {
    BaseUnitIsPowerOfTen(expo);
    PowerOfTenSucceedsIff(Abs(expo));
    DivMultiple(AMM_RESERVE_PRECISION, 1);
    assert AMM_RESERVE_PRECISION * 1 == AMM_RESERVE_PRECISION;
  }

  /** A settlement by the program, in the terms of the SDK's closed-form deltas. */
  lemma ProgramUpdate(amm: Amm, p: Position)
    requires ExponentsAccepted(amm.perLpBase, p.perLpBase) && amm.orderStepSize != 0
    requires SettleLpPosition(amm, p).Settled?
    ensures var u := UpdatePosition(amm, RebasePosition(amm, p), BaseDelta(amm, p), QuoteDelta(amm, p));
            && u.Settled?
            && SettleLpPosition(amm, p) == Settled(u.position.(
                 lastBaseAssetAmountPerLp := amm.baseAssetAmountPerLp,
                 lastQuoteAssetAmountPerLp := amm.quoteAssetAmountPerLp), u.pnl)
  {
    UnitsAgree(amm.perLpBase);
    hide UpdatePosition, Div, Quot, Rem, Pow10, PerLpBaseUnit;
  }

  lemma SettlesOnlyPaidUp(amm: Amm, p: Position)
    requires SettleLpPosition(amm, p).Settled?
    ensures FundingSettled(amm, p)
  {
  }

  /** The fields of the SDK's settlement that the program's is compared on. */
  lemma SdkFields(amm: Amm, price: int, p: Position) returns (plan: Plan)
    requires p.lpShares != 0
    requires CanSettle(amm, p) && SettleLpPosition(amm, p).Settled?
    ensures Settle(amm, price, p, false, false).Success? && PlanSettlement(amm, p) == Success(plan)
    ensures plan.deltaBaa == BaseDelta(amm, p) && plan.deltaQaa == QuoteDelta(amm, p)
    ensures CarryRemainder(p.baseAssetAmount, p.remainderBaseAssetAmount,
                           StepRemainder(plan.deltaBaa, amm.orderStepSize), amm.orderStepSize) ==
            Success((plan.carriedBase, plan.carriedRemainder))
    ensures (plan.newQuoteEntry, plan.pnl)
            == EntryAndPnl(plan.carriedBase, plan.deltaBaa, p.quoteEntryAmount, plan.deltaQaa)
    ensures var s := Settle(amm, price, p, false, false).value;
            && s.position.baseAssetAmount == plan.carriedBase + Standardize(plan.deltaBaa, amm.orderStepSize)
            && s.position.remainderBaseAssetAmount == plan.carriedRemainder
            && s.position.quoteAssetAmount == p.quoteAssetAmount + plan.deltaQaa
            && s.position.quoteEntryAmount == plan.newQuoteEntry
            && s.pnl == plan.pnl
  {
    hide Div, Quot, Rem, Pow10, EntryAndPnl, SettleLpPosition, UpdatePosition, UnsettledFundingPnl, MarketOpenBidAsk;
    assert FundingSettled(amm, p) by { SettlesOnlyPaidUp(amm, p); }
    plan := PlanOf(amm, price, p, false, false);
    RebaseSucceedsIff(amm, p);
    SettledFundingIsZero(amm, p);
  }

  /** Base and remainder after the program takes in a delta; without one it leaves them alone. */
  function ProgramCarry(base: int, remainder: int, delta: int, step: nat): (int, int)
    requires step != 0
  {
    if delta == 0 then (base, remainder)
    else CarryAtStep(base + Standardize(delta, step), remainder + StepRemainder(delta, step), step)
  }

  /** What an update that takes in a delta leaves behind. */
  lemma UpdateFields(amm: Amm, p: Position, delta: int, deltaQaa: int)
    requires amm.orderStepSize != 0
    requires UpdatePosition(amm, p, delta, deltaQaa).Settled?
    ensures var u := UpdatePosition(amm, p, delta, deltaQaa);
            && u.position.quoteAssetAmount == p.quoteAssetAmount + deltaQaa
            && (u.position.baseAssetAmount, u.position.remainderBaseAssetAmount as int)
               == ProgramCarry(p.baseAssetAmount, p.remainderBaseAssetAmount, delta, amm.orderStepSize)
  {
    StandardizeTruncates(delta, amm.orderStepSize);
    hide Div, Quot, Rem, StepRemainder, GetPositionUpdateType, FundingSettled, SplitByType;
  }

  /** How an update splits the quote between entry and pnl: on base and remainder together, which count
      as a base to flip from even where they cancel; without a delta the quote is all pnl. */
  function ProgramSplit(base: int, remainder: int, delta: int, quoteEntry: int, deltaQaa: int): (int, int) {
    if delta == 0 then (quoteEntry, deltaQaa)
    else if base + remainder == 0 && base != 0 then (deltaQaa, quoteEntry)
    else EntryAndPnl(base + remainder, delta, quoteEntry, deltaQaa)
  }

  /** An update settles exactly when nothing is taken in, or the position is paid up and aligned and the
      remainder it is left with fits its field; there is always something to divide by. */
  lemma UpdateSettlesIff(amm: Amm, p: Position, delta: int, deltaQaa: int)
    requires amm.orderStepSize != 0
    ensures UpdatePosition(amm, p, delta, deltaQaa).Settled? <==>
            || delta == 0
            || (&& FundingSettled(amm, p)
                && Rem(Abs(p.baseAssetAmount), amm.orderStepSize) == 0
                && Abs(ProgramCarry(p.baseAssetAmount, p.remainderBaseAssetAmount, delta, amm.orderStepSize).1)
                   <= I32_MAX)
  {
    StandardizeTruncates(delta, amm.orderStepSize);
    if delta != 0 {
      SplitByItsType(p, delta, deltaQaa);
    }
    hide Div, Quot, Rem, StepRemainder, SplitByType, ProgramSplit, GetPositionUpdateType;
  }

  /** So the program settles an LP exactly when it is paid up and, if base accrued, aligned and left with
      a remainder that fits. */
  lemma ProgramSettlesIff(amm: Amm, p: Position)
    requires ExponentsAccepted(amm.perLpBase, p.perLpBase) && amm.orderStepSize != 0
    ensures var delta, step := BaseDelta(amm, p), amm.orderStepSize;
            SettleLpPosition(amm, p).Settled? <==>
              && FundingSettled(amm, p)
              && (delta == 0
                  || (&& Rem(Abs(p.baseAssetAmount), step) == 0
                      && Abs(ProgramCarry(p.baseAssetAmount, p.remainderBaseAssetAmount, delta, step).1) <= I32_MAX))
  {
    UnitsAgree(amm.perLpBase);
    hide UpdatePosition, Div, Quot, Rem, Pow10, PerLpBaseUnit, ProgramCarry;
    UpdateSettlesIff(amm, RebasePosition(amm, p), BaseDelta(amm, p), QuoteDelta(amm, p));
  }

  lemma UpdateEntry(amm: Amm, p: Position, delta: int, deltaQaa: int)
    requires amm.orderStepSize != 0
    requires UpdatePosition(amm, p, delta, deltaQaa).Settled?
    ensures var u := UpdatePosition(amm, p, delta, deltaQaa);
            && (u.position.quoteEntryAmount, u.pnl)
               == ProgramSplit(p.baseAssetAmount, p.remainderBaseAssetAmount, delta, p.quoteEntryAmount, deltaQaa)
            && u.position.quoteBreakEvenAmount
               == ProgramSplit(p.baseAssetAmount, p.remainderBaseAssetAmount, delta, p.quoteBreakEvenAmount, deltaQaa).0
  {
    StandardizeTruncates(delta, amm.orderStepSize);
    if delta != 0 {
      SplitByItsType(p, delta, deltaQaa);
    }
    hide Div, Quot, Rem, StepRemainder, FundingSettled, CarryAtStep, SplitByType, EntryAndPnl, GetPositionUpdateType;
  }

  /** With a delta there is always something to divide by. */
  lemma SplitByItsType(p: Position, delta: int, deltaQaa: int)
    requires delta != 0
    ensures var split := SplitByType(p, GetPositionUpdateType(p, delta), delta, deltaQaa);
            && split.Some?
            && (split.value.0, split.value.2)
               == ProgramSplit(p.baseAssetAmount, p.remainderBaseAssetAmount, delta, p.quoteEntryAmount, deltaQaa)
            && split.value.1
               == ProgramSplit(p.baseAssetAmount, p.remainderBaseAssetAmount, delta, p.quoteBreakEvenAmount, deltaQaa).0
  {
    hide Div, Quot, Rem;
    var whole := p.baseAssetAmount + p.remainderBaseAssetAmount;
    if whole == 0 && p.baseAssetAmount != 0 {
      assert deltaQaa * 0 == 0;
      DivMultiple(0, Abs(delta));
    } else {
      assert GetPositionUpdateType(p, delta) == GetUpdateType(whole, delta);
    }
  }

  /** Where both settle, the SDK predicts the program's base and remainder together, and its quote
      amount, exactly. Base and remainder agree one by one except at a combined remainder of exactly
      one step, or when nothing accrued on a position whose remainder already exceeds a step. */
  lemma SdkPredictsProgram(amm: Amm, price: int, p: Position)
    requires p.lpShares != 0
    requires CanSettle(amm, p) && SettleLpPosition(amm, p).Settled?
    ensures Settle(amm, price, p, false, false).Success?
    ensures var sdk := Settle(amm, price, p, false, false).value.position;
            var program := SettleLpPosition(amm, p).position;
            var delta := BaseDelta(amm, p);
            var step := amm.orderStepSize;
            && sdk.baseAssetAmount + sdk.remainderBaseAssetAmount
               == program.baseAssetAmount + program.remainderBaseAssetAmount
            && sdk.quoteAssetAmount == program.quoteAssetAmount
            && (sdk.baseAssetAmount == program.baseAssetAmount <==>
                if delta == 0 then Abs(p.remainderBaseAssetAmount) <= step
                else Abs(p.remainderBaseAssetAmount + StepRemainder(delta, step)) != step)
  {
    hide Settle, SettleLpPosition, UpdatePosition, BaseDelta, QuoteDelta, EntryAndPnl, CarryRemainder, ProgramCarry;
    hide Standardize, StepRemainder;
    var plan := SdkFields(amm, price, p);
    ProgramUpdate(amm, p);
    UpdateFields(amm, RebasePosition(amm, p), plan.deltaBaa, plan.deltaQaa);
    CarriesAgree(p.baseAssetAmount, p.remainderBaseAssetAmount, plan.deltaBaa, amm.orderStepSize);
  }

  /** The two carries, side by side: the SDK's before the delta is added, the program's after, or
      not at all when there is no delta. */
  lemma CarriesAgree(base: int, remainder: SafeInt, delta: int, step: nat)
    requires step != 0
    requires CarryRemainder(base, remainder, StepRemainder(delta, step), step).Success?
    ensures var (b, r) := CarryRemainder(base, remainder, StepRemainder(delta, step), step).value;
            var (b', r') := ProgramCarry(base, remainder, delta, step);
            && b + Standardize(delta, step) + r == b' + r'
            && (b + Standardize(delta, step) == b' <==>
                if delta == 0 then Abs(remainder) <= step
                else Abs(remainder + StepRemainder(delta, step)) != step)
  {
    StandardizeTruncates(delta, step);
    CarryMovesBase(remainder + StepRemainder(delta, step), step);
  }

  /** A remainder of at least a step standardizes to something; a whole step to itself. */
  lemma CarryMovesBase(remainder: int, step: nat)
    requires step != 0
    ensures Abs(remainder) >= step ==> Standardize(remainder, step) != 0
    ensures Abs(remainder) == step ==> StepRemainder(remainder, step) == 0
  {
    ModOfMultiple(1, step);
    AlignedNegation(step, step);
    StandardizeIsNearest(step, remainder, step);
    StandardizeIsNearest(0 - step, remainder, step);
    StandardizeTruncates(remainder, step);
  }

  predicate Grows(base: int, delta: int) {
    base == 0 || Sign(base) == Sign(delta)
  }

  /** The SDK splits the quote on the carried base, the program on base and remainder: the base amounts
      on which the two cannot differ. */
  predicate SplitsCoincide(carriedBase: int, base: int, remainder: int, delta: int) {
    var whole := base + remainder;
    if delta == 0 then carriedBase < 0
    else (whole != 0 || base == 0) && (carriedBase == whole || (Grows(carriedBase, delta) && Grows(whole, delta)))
  }

  /** They are also the only ones: on any others some entry and quote are split differently. */
  lemma SplitsCoincideIff(carriedBase: int, base: int, remainder: int, delta: int)
    ensures SplitsCoincide(carriedBase, base, remainder, delta) <==>
            forall quoteEntry, deltaQaa ::
              EntryAndPnl(carriedBase, delta, quoteEntry, deltaQaa)
              == ProgramSplit(base, remainder, delta, quoteEntry, deltaQaa)
  {
    if SplitsCoincide(carriedBase, base, remainder, delta) {
      forall quoteEntry, deltaQaa
        ensures EntryAndPnl(carriedBase, delta, quoteEntry, deltaQaa)
                == ProgramSplit(base, remainder, delta, quoteEntry, deltaQaa)
      {
        SplitsAgree(carriedBase, base, remainder, delta, quoteEntry, deltaQaa);
      }
    } else {
      var quoteEntry, deltaQaa := SplitsDiffer(carriedBase, base, remainder, delta);
    }
  }

  lemma SplitsAgree(carriedBase: int, base: int, remainder: int, delta: int, quoteEntry: int, deltaQaa: int)
    requires SplitsCoincide(carriedBase, base, remainder, delta)
    ensures EntryAndPnl(carriedBase, delta, quoteEntry, deltaQaa)
            == ProgramSplit(base, remainder, delta, quoteEntry, deltaQaa)
  {
    hide Div;
    if delta == 0 {
      NoBaseMoveDependsOnSide(carriedBase, quoteEntry, deltaQaa);
    }
  }

  lemma SplitsDiffer(carriedBase: int, base: int, remainder: int, delta: int)
    returns (quoteEntry: int, deltaQaa: int)
    requires !SplitsCoincide(carriedBase, base, remainder, delta)
    ensures EntryAndPnl(carriedBase, delta, quoteEntry, deltaQaa)
            != ProgramSplit(base, remainder, delta, quoteEntry, deltaQaa)
  {
    var whole := base + remainder;
    if delta == 0 {
      quoteEntry, deltaQaa := 0, 1;
      NoBaseMoveDependsOnSide(carriedBase, quoteEntry, deltaQaa);
    } else if whole == 0 && base != 0 {
      quoteEntry, deltaQaa := EntryNotQuote(carriedBase, delta);
    } else {
      quoteEntry, deltaQaa := EntriesDiffer(carriedBase, whole, delta);
    }
  }

  /** Some entry and quote leave an entry that is not the quote. */
  lemma EntryNotQuote(base: int, delta: int) returns (quoteEntry: int, deltaQaa: int)
    requires delta != 0
    ensures EntryAndPnl(base, delta, quoteEntry, deltaQaa).0 != deltaQaa
  {
    hide Div;
    var kind := GetUpdateType(base, delta);
    quoteEntry, deltaQaa := if Grows(base, delta) then 1 else 0, if kind == Flip then Abs(delta) else 1;
    if kind == Flip {
      FlipEntry(base, delta);
    } else if !Grows(base, delta) {
      ReducedEntry(0, base, delta);
    }
  }

  /** On two different bases that do not both grow, some entry and quote are split differently. */
  lemma EntriesDiffer(base: int, base': int, delta: int) returns (quoteEntry: int, deltaQaa: int)
    requires delta != 0 && base != base' && !(Grows(base, delta) && Grows(base', delta))
    ensures EntryAndPnl(base, delta, quoteEntry, deltaQaa).0 != EntryAndPnl(base', delta, quoteEntry, deltaQaa).0
  {
    hide Div;
    var flips, flips' := GetUpdateType(base, delta) == Flip, GetUpdateType(base', delta) == Flip;
    if Grows(base, delta) || Grows(base', delta) {
      quoteEntry, deltaQaa := if flips || flips' then 1 else 0, if flips || flips' then 0 else 1;
      ReducedEntry(0, base, delta);
      ReducedEntry(0, base', delta);
      DivMultiple(0, Abs(delta));
    } else if flips || flips' {
      quoteEntry, deltaQaa := 0, Abs(delta);
      FlipEntry(base, delta);
      FlipEntry(base', delta);
      ReducedEntry(0, base, delta);
      ReducedEntry(0, base', delta);
    } else {
      quoteEntry, deltaQaa := Abs(base) * Abs(base'), 0;
      ReducedEntry(Abs(base'), base, delta);
      ReducedEntry(Abs(base), base', delta);
      DifferentShares(Abs(base), Abs(base'), Abs(delta));
    }
  }

  /** Reducing `n` times the base by the delta releases `n` times the delta. */
  lemma ReducedEntry(n: nat, base: int, delta: int)
    ensures base != 0 ==> Div(Abs(base) * n * Abs(delta), Abs(base)) == n * Abs(delta)
    ensures base != 0 ==> Div(n * Abs(base) * Abs(delta), Abs(base)) == n * Abs(delta)
  {
    if base != 0 {
      DivMultiple(n * Abs(delta), Abs(base));
      assert n * Abs(delta) * Abs(base) == Abs(base) * n * Abs(delta) == n * Abs(base) * Abs(delta);
    }
  }

  /** A flip that books the delta's own size keeps what exceeds the base. */
  lemma FlipEntry(base: int, delta: int)
    requires delta != 0
    ensures GetUpdateType(base, delta) == Flip ==>
              EntryAndPnl(base, delta, 0, Abs(delta)).0 == Abs(delta) - Abs(base)
  {
    DivMultiple(Abs(base), Abs(delta));
  }

  lemma DifferentShares(x: nat, y: nat, d: nat)
    requires x != y && d != 0
    ensures x * d != y * d
  {
    if x < y {
      MulMono(x + 1, y, d);
    } else {
      MulMono(y + 1, x, d);
    }
  }

  /** Where both settle, the SDK predicts the program's quote entry and pnl exactly when the two ways of
      splitting them coincide: always on base amounts where they must, as when base and remainder
      together and the carried base both grow; without a remainder, unless quote but no base accrued on
      a base that is not short. */
  lemma SdkPredictsEntry(amm: Amm, price: int, p: Position)
    requires p.lpShares != 0
    requires CanSettle(amm, p) && SettleLpPosition(amm, p).Settled?
    ensures Settle(amm, price, p, false, false).Success? && PlanSettlement(amm, p).Success?
    ensures var sdk := Settle(amm, price, p, false, false).value;
            var program := SettleLpPosition(amm, p);
            var carried := PlanSettlement(amm, p).value.carriedBase;
            var base, remainder := p.baseAssetAmount, p.remainderBaseAssetAmount;
            var delta, quote := BaseDelta(amm, p), QuoteDelta(amm, p);
            var agree := sdk.position.quoteEntryAmount == program.position.quoteEntryAmount && sdk.pnl == program.pnl;
            && (agree <==> EntryAndPnl(carried, delta, p.quoteEntryAmount, quote)
                           == ProgramSplit(base, remainder, delta, p.quoteEntryAmount, quote))
            && (SplitsCoincide(carried, base, remainder, delta) ==> agree)
            && (remainder == 0 ==> (agree <==> delta != 0 || quote == 0 || base < 0))
  {
    hide Settle, SettleLpPosition, UpdatePosition, EntryAndPnl, Div, Quot, Rem, Pow10, BaseDelta, QuoteDelta;
    var plan := SdkFields(amm, price, p);
    ProgramUpdate(amm, p);
    UpdateEntry(amm, RebasePosition(amm, p), plan.deltaBaa, plan.deltaQaa);
    StandardizeTruncates(plan.deltaBaa, amm.orderStepSize);
    if SplitsCoincide(plan.carriedBase, p.baseAssetAmount, p.remainderBaseAssetAmount, plan.deltaBaa) {
      SplitsAgree(plan.carriedBase, p.baseAssetAmount, p.remainderBaseAssetAmount, plan.deltaBaa,
                  p.quoteEntryAmount, plan.deltaQaa);
    }
    NoBaseMoveDependsOnSide(p.baseAssetAmount, p.quoteEntryAmount, plan.deltaQaa);
  }

  /** A long of 10 with a remainder of 4 and an entry of -140. */
  function LongWithRemainder(): Position {
    SmallPosition(10, 1_000_000_000_000).(remainderBaseAssetAmount := 4, quoteEntryAmount := -140)
  }

  lemma LongWithRemainderDeltas()
    ensures BaseDelta(SmallMarket(-5, 60), LongWithRemainder()) == -5
    ensures QuoteDelta(SmallMarket(-5, 60), LongWithRemainder()) == 60
  {
    SmallDeltas(-5, 60, 10, 1_000_000_000_000);
  }

  lemma LongWithRemainderCarry()
    ensures ProgramCarry(10, 4, -5, 10) == (10, -1) && Rem(10, 10) == 0
  {
  }

  lemma LongWithRemainderSettles()
    ensures SettleLpPosition(SmallMarket(-5, 60), LongWithRemainder()).Settled?
  {
    hide SettleLpPosition, ProgramCarry, Div, Quot, Rem, Pow10, BaseDelta, QuoteDelta;
    LongWithRemainderDeltas();
    LongWithRemainderCarry();
    ProgramSettlesIff(SmallMarket(-5, 60), LongWithRemainder());
  }

  lemma LongWithRemainderSplits()
    ensures CarryRemainder(10, 4, StepRemainder(-5, 10), 10) == Success((10, -1))
    ensures EntryAndPnl(10, -5, -140, 60) == (-70, -10)
    ensures ProgramSplit(10, 4, -5, -140, 60) == (-90, 10)
  {
    assert Quot(700, 10) == 70 by { DivMultiple(70, 10); }
    assert Quot(700, 14) == 50 by { DivMultiple(50, 14); }
  }

  /** A settlement on which the two differ: both reduce the entry by 5, the SDK as half of its base, the
      program as 5/14 of base and remainder. */
  lemma EntryWithRemainderDiffers(price: int)
    ensures var amm, p := SmallMarket(-5, 60), LongWithRemainder();
            var sdk, program := Settle(amm, price, p, false, false), SettleLpPosition(amm, p);
            && sdk.Success? && program.Settled?
            && (sdk.value.position.quoteEntryAmount, sdk.value.pnl) == (-70, -10)
            && (program.position.quoteEntryAmount, program.pnl) == (-90, 10)
  {
    var amm, p := SmallMarket(-5, 60), LongWithRemainder();
    LongWithRemainderDeltas();
    assert StepRemainder(-5, 10) == -5;
    hide Settle, SettleLpPosition, UpdatePosition, PlanSettlement, EntryAndPnl, ProgramSplit, CarryRemainder;
    hide Div, Quot, Rem, Pow10, BaseDelta, QuoteDelta, StepRemainder;
    LongWithRemainderSettles();
    LongWithRemainderSplits();
    var plan := SdkFields(amm, price, p);
    ProgramUpdate(amm, p);
    UpdateEntry(amm, RebasePosition(amm, p), -5, 60);
  }

  /** The program's own simulation reports the base its settlement leaves exactly when the combined
      remainder stays below a step; otherwise the carried steps are missing from it. */
  lemma SimulationMissesCarry(amm: Amm, p: Position)
    requires ExponentsAccepted(amm.perLpBase, p.perLpBase) && amm.orderStepSize != 0
    requires SettleLpPosition(amm, p).Settled?
    ensures var delta := BaseDelta(amm, p);
            SimulatedBase(amm, p) == SettleLpPosition(amm, p).position.baseAssetAmount
            <==> delta == 0
                 || Abs(p.remainderBaseAssetAmount + StepRemainder(delta, amm.orderStepSize)) < amm.orderStepSize
  {
    hide UpdatePosition, SettleLpPosition, BaseDelta, QuoteDelta, Standardize, StepRemainder, Div, Quot, Rem, Pow10;
    ProgramUpdate(amm, p);
    UpdateFields(amm, RebasePosition(amm, p), BaseDelta(amm, p), QuoteDelta(amm, p));
    var step := amm.orderStepSize;
    StandardizeTruncates(BaseDelta(amm, p), step);
    CarryMovesBase(p.remainderBaseAssetAmount + StepRemainder(BaseDelta(amm, p), step), step);
  }
}
