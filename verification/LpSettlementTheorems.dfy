/** What every LP settlement keeps: the base it conserves, the move it really makes, and where the
    quote entry goes. */
module LpSettlementTheorems {
  import opened Bn
  import opened LpSettlement

  // ----- step alignment -----

  predicate Aligned(amount: int, step: nat)
    requires 0 < step
  {
    Mod(amount, step) == 0
  }

  lemma AlignedSum(x: int, y: int, step: nat)
    requires 0 < step && Aligned(x, step) && Aligned(y, step)
    ensures Aligned(x + y, step)
  {
    DivMod(x, step);
    DivMod(y, step);
    assert (Div(x, step) + Div(y, step)) * step == x + y;
    ModOfMultiple(Div(x, step) + Div(y, step), step);
  }

  /** Standardizing drops less than a step, toward zero, and leaves a multiple of the step. */
  lemma StandardizeTruncates(amount: int, step: nat)
    requires 0 < step
    ensures Aligned(Standardize(amount, step), step)
    ensures Standardize(amount, step) == Div(amount, step) * step
    ensures Abs(StepRemainder(amount, step)) < step
    ensures 0 <= amount ==> 0 <= Standardize(amount, step) <= amount
    ensures amount <= 0 ==> amount <= Standardize(amount, step) <= 0
  {
    QuotRem(Abs(amount), step);
    MulMono(0, Quot(Abs(amount), step), step);
    DivMod(amount, step);
    assert Standardize(amount, step) == Div(amount, step) * step;
    ModOfMultiple(Div(amount, step), step);
    DivBounds(amount, step);
  }

  /** No multiple of the step fits between the standardized amount and the amount. */
  lemma StandardizeIsNearest(multiple: int, amount: int, step: nat)
    requires 0 < step && Aligned(multiple, step)
    ensures 0 <= multiple <= amount ==> multiple <= Standardize(amount, step)
    ensures amount <= multiple <= 0 ==> Standardize(amount, step) <= multiple
  {
    StandardizeTruncates(amount, step);
    DivMod(multiple, step);
    if 0 <= multiple <= amount {
      DivMono(multiple, amount, step);
      MulMono(Div(multiple, step), Div(amount, step), step);
    } else if amount <= multiple <= 0 {
      DivMono(amount, multiple, step);
      MulMono(Div(amount, step), Div(multiple, step), step);
    }
  }

  // ----- closed form of the deltas and of success -----

  lemma {:induction false} Pow10Mono(m: nat, n: nat)
    requires m <= n
    ensures Pow10(m) <= Pow10(n)
    decreases n
  {
    if m < n {
      Pow10Mono(m, n - 1);
    }
  }

  lemma Pow10Values()
    ensures Pow10(9) == AMM_RESERVE_PRECISION
    ensures Pow10(15) == 1_000_000_000_000_000
    ensures Pow10(16) == 10_000_000_000_000_000
  {
    assert Pow10(3) == 1_000;
    assert Pow10(6) == 1_000_000;
    assert Pow10(9) == 1_000_000_000;
    assert Pow10(12) == 1_000_000_000_000;
    assert Pow10(15) == 1_000_000_000_000_000;
  }

  lemma PowerOfTenSucceedsIff(n: nat)
    ensures PowerOfTen(n) == if n <= 15 then Success(Pow10(n)) else Failure(UnsafeNumber)
  {
    Pow10Values();
    if n <= 15 {
      Pow10Mono(n, 15);
    } else {
      Pow10Mono(16, n);
    }
  }

  /** For every exponent the market may use, the base unit is ten to the power nine plus it. */
  lemma BaseUnitIsPowerOfTen(expo: int)
    ensures BaseUnit(expo, expo) ==
            if -9 <= expo <= 9 then Success(Pow10(9 + expo)) else Failure(CannotCalc)
  {
    Pow10Values();
    if 0 <= expo <= 9 {
      PowerOfTenSucceedsIff(expo);
      Pow10Add(9, expo);
    } else if -9 <= expo < 0 {
      PowerOfTenSucceedsIff(-expo);
      Pow10Add(9 + expo, -expo);
      var q := Pow10(9 + expo);
      var s := Pow10(-expo);
      assert AMM_RESERVE_PRECISION == q * s;
      DivMultiple(q, s);
      assert Div(q * s, s) == Quot(AMM_RESERVE_PRECISION, s);
    }
  }

  /** A per-LP amount restated `expoDiff` powers of ten up, or truncated that many down. */
  function Rescale(last: int, expoDiff: int): int {
    if expoDiff >= 0 then last * Pow10(expoDiff) else Div(last, Pow10(-expoDiff))
  }

  function DeltaOver(perLp: int, last: int, marketBase: int, positionBase: int, shares: nat): int
    requires -9 <= marketBase
  {
    LpShare(perLp, Rescale(last, marketBase - positionBase), shares, Pow10(9 + marketBase))
  }

  function BaseDelta(amm: Amm, p: Position): int
    requires -9 <= amm.perLpBase
  {
    DeltaOver(amm.baseAssetAmountPerLp, p.lastBaseAssetAmountPerLp, amm.perLpBase, p.perLpBase, p.lpShares)
  }

  function QuoteDelta(amm: Amm, p: Position): int
    requires -9 <= amm.perLpBase
  {
    DeltaOver(amm.quoteAssetAmountPerLp, p.lastQuoteAssetAmountPerLp, amm.perLpBase, p.perLpBase, p.lpShares)
  }

  /** The exponents settlement can work with: the market's in range, and at most fifteen powers
      of ten away from the position's. */
  predicate ExponentsAccepted(marketBase: int, positionBase: int) {
    -9 <= marketBase <= 9 && Abs(marketBase - positionBase) <= 15
  }

  lemma RebaseSucceedsIff(amm: Amm, p: Position)
    ensures Rebase(amm, p) ==
            if Abs(amm.perLpBase - p.perLpBase) <= 15 then
              Success(p.(
                lastBaseAssetAmountPerLp := Rescale(p.lastBaseAssetAmountPerLp, amm.perLpBase - p.perLpBase),
                lastQuoteAssetAmountPerLp := Rescale(p.lastQuoteAssetAmountPerLp, amm.perLpBase - p.perLpBase),
                perLpBase := amm.perLpBase))
            else Failure(UnsafeNumber)
  {
    PowerOfTenSucceedsIff(Abs(amm.perLpBase - p.perLpBase));
    if amm.perLpBase == p.perLpBase {
      assert Pow10(0) == 1;
    }
  }

  lemma PlanInClosedForm(amm: Amm, p: Position)
    ensures Abs(amm.perLpBase - p.perLpBase) > 15 ==> PlanSettlement(amm, p) == Failure(UnsafeNumber)
    ensures Abs(amm.perLpBase - p.perLpBase) <= 15 && !(-9 <= amm.perLpBase <= 9) ==>
              PlanSettlement(amm, p) == Failure(CannotCalc)
    ensures ExponentsAccepted(amm.perLpBase, p.perLpBase) ==>
              && Rebase(amm, p).Success?
              && PlanSettlement(amm, p) ==
                 if amm.orderStepSize == 0 then Failure(DivisionByZero)
                 else PlanDeltas(amm.orderStepSize, p, Rebase(amm, p).value, Pow10(9 + amm.perLpBase),
                                 BaseDelta(amm, p), QuoteDelta(amm, p))
  {
    RebaseSucceedsIff(amm, p);
    BaseUnitIsPowerOfTen(amm.perLpBase);
  }

  /** What an LP settlement needs: accepted exponents, a nonzero pool size, a nonzero step, and a
      step and combined remainder that are safe numbers. */
  predicate CanSettle(amm: Amm, p: Position) {
    && ExponentsAccepted(amm.perLpBase, p.perLpBase)
    && 0 < amm.orderStepSize <= MAX_SAFE
    && IsSafe(p.remainderBaseAssetAmount + StepRemainder(BaseDelta(amm, p), amm.orderStepSize))
    && amm.sqrtK != 0
  }

  /** Settlement succeeds exactly when `CanSettle` holds, whatever the price and the flags. The
      exponents never differ after the rebase. */
  lemma SettleSucceedsIff(amm: Amm, price: int, p: Position, burn: bool, fold: bool)
    requires p.lpShares != 0
    ensures Settle(amm, price, p, burn, fold).Success? <==> CanSettle(amm, p)
    ensures Settle(amm, price, p, burn, fold) != Failure(BaseMismatch)
  {
    hide Div, Quot, Rem, Pow10;
    PlanInClosedForm(amm, p);
    if ExponentsAccepted(amm.perLpBase, p.perLpBase) && amm.orderStepSize != 0 {
      var added := StepRemainder(BaseDelta(amm, p), amm.orderStepSize);
      StandardizeTruncates(BaseDelta(amm, p), amm.orderStepSize);
      StandardizeTruncates(p.remainderBaseAssetAmount + added, amm.orderStepSize);
    }
  }

  /** A successful settlement's plan, in closed form. */
  lemma PlanOf(amm: Amm, price: int, p: Position, burn: bool, fold: bool) returns (plan: Plan)
    requires p.lpShares != 0 && CanSettle(amm, p)
    ensures Settle(amm, price, p, burn, fold) == Success(Finish(amm, price, p, plan, burn, fold))
    ensures PlanSettlement(amm, p) == Success(plan)
    ensures plan.deltaBaa == BaseDelta(amm, p) && plan.deltaQaa == QuoteDelta(amm, p)
    ensures Rebase(amm, p) == Success(plan.rebased)
    ensures CarryRemainder(p.baseAssetAmount, p.remainderBaseAssetAmount,
                           StepRemainder(plan.deltaBaa, amm.orderStepSize), amm.orderStepSize) ==
            Success((plan.carriedBase, plan.carriedRemainder))
    ensures (plan.newQuoteEntry, plan.pnl)
            == EntryAndPnl(plan.carriedBase, plan.deltaBaa, p.quoteEntryAmount, plan.deltaQaa)
  {
    hide Div, Quot, Rem, Pow10;
    SettleSucceedsIff(amm, price, p, burn, fold);
    PlanInClosedForm(amm, p);
    plan := PlanSettlement(amm, p).value;
  }

  // ----- conservation of base -----

  lemma CarryConserves(base: int, remainder: SafeInt, added: int, step: nat)
    requires 0 < step <= MAX_SAFE && Abs(added) < step
    requires CarryRemainder(base, remainder, added, step).Success?
    ensures var (b, r) := CarryRemainder(base, remainder, added, step).value;
            && b + r == base + remainder + added
            && Abs(r) <= step
            && (Aligned(base, step) ==> Aligned(b, step))
  {
    if Abs(remainder + added) > step {
      StandardizeTruncates(remainder + added, step);
      if Aligned(base, step) {
        AlignedSum(base, Standardize(remainder + added, step), step);
      }
    }
  }

  /** Settlement creates and destroys no base, for every combination of flags: base plus remainder
      grows by exactly the LP delta. The remainder is at most one step, and a step-aligned base
      stays aligned until the remainder is folded in. */
  lemma SettleConservesBase(amm: Amm, price: int, p: Position, burn: bool, fold: bool)
    requires p.lpShares != 0 && CanSettle(amm, p)
    ensures Settle(amm, price, p, burn, fold).Success?
    ensures var s := Settle(amm, price, p, burn, fold).value;
            && s.position.baseAssetAmount + s.position.remainderBaseAssetAmount
               == p.baseAssetAmount + p.remainderBaseAssetAmount + BaseDelta(amm, p)
            && Abs(s.remainder) <= amm.orderStepSize
            && s.position.remainderBaseAssetAmount == (if fold then 0 else s.remainder)
            && (Aligned(p.baseAssetAmount, amm.orderStepSize) ==>
                Aligned(s.position.baseAssetAmount - (if fold then s.remainder else 0), amm.orderStepSize))
  {
    hide Settle, PlanSettlement, EntryAndPnl, Div, Quot, Rem, Pow10, UnsettledFundingPnl, DustValue;
    var plan := PlanOf(amm, price, p, burn, fold);
    var step := amm.orderStepSize;
    StandardizeTruncates(plan.deltaBaa, step);
    CarryConserves(p.baseAssetAmount, p.remainderBaseAssetAmount, StepRemainder(plan.deltaBaa, step), step);
    if Aligned(p.baseAssetAmount, step) {
      AlignedSum(plan.carriedBase, Standardize(plan.deltaBaa, step), step);
    }
  }

  // ----- the update type and the real move -----

  /** The update type is picked from the delta before it is rounded to the step, yet on an aligned
      base it describes the rounded move. */
  lemma UpdateTypeAgrees(base: int, delta: int, step: nat)
    requires 0 < step && Aligned(base, step)
    ensures var after := base + Standardize(delta, step);
            match GetUpdateType(base, delta)
            case Open => base == 0 && Abs(after) <= Abs(delta)
            case Increase => Abs(after) >= Abs(base) && base * after > 0
            case Reduce => base * after > 0 && Abs(after) <= Abs(base)
            case Close => after == 0
            case Flip =>
              && (after == 0 <==> Abs(delta) - Abs(base) < step)
              && (after != 0 ==> Sign(after) == Sign(delta) && Sign(after) != Sign(base))
  {
    AlignedNegation(base, step);
    StandardizeTruncates(delta, step);
    StandardizeIsNearest(-base, delta, step);
    var after := base + Standardize(delta, step);
    AlignedSum(base, Standardize(delta, step), step);
    if after != 0 {
      AlignedAtLeastStep(after, step);
      if (base > 0) == (after > 0) && base != 0 {
        SameSignProduct(base, after);
      }
    }
  }

  lemma AlignedNegation(x: int, step: nat)
    requires 0 < step && Aligned(x, step)
    ensures Aligned(-x, step)
  {
    assert Abs(-x) == Abs(x);
  }

  lemma AlignedAtLeastStep(x: int, step: nat)
    requires 0 < step && Aligned(x, step) && x != 0
    ensures Abs(x) >= step
  {
    assert Rem(Abs(x), step) == 0;
  }

  lemma SameSignProduct(x: int, y: int)
    requires (x > 0 && y > 0) || (x < 0 && y < 0)
    ensures x * y > 0
  {
  }

  // ----- quote entry and pnl -----

  /** Every update splits the old entry and the quote delta between the new entry and the pnl
      without loss, whatever the truncation does. Reducing never grows the entry or changes its
      sign, closing leaves none, and a flip's entry is a part of the delta. */
  lemma EntryConserved(base: int, delta: int, quoteEntry: int, deltaQaa: int)
    ensures var (entry, pnl) := EntryAndPnl(base, delta, quoteEntry, deltaQaa);
            && entry + pnl == quoteEntry + deltaQaa
            && match GetUpdateType(base, delta)
               case Open => pnl == 0
               case Increase => pnl == 0
               case Reduce => Within(entry, quoteEntry)
               case Close => entry == 0
               case Flip => Within(entry, deltaQaa)
  {
    match GetUpdateType(base, delta)
    case Open =>
    case Increase =>
    case Reduce =>
      DivFraction(quoteEntry, Abs(delta), Abs(base));
    case Close =>
      DivMultiple(quoteEntry, Abs(base));
    case Flip =>
      DivFraction(deltaQaa, Abs(base), Abs(delta));
  }

  /** `x` lies between zero and `whole`, both included. */
  predicate Within(x: int, whole: int) {
    (0 <= x <= whole) || (whole <= x <= 0)
  }

  /** The settled position as a whole: its entry and pnl come from the old entry and the quote delta
      alone, each type of update bounds them as `EntryConserved` says, and the quote and break-even
      amounts move together by delta, funding and dust. */
  lemma SettleConservesQuote(amm: Amm, price: int, p: Position, burn: bool, fold: bool)
    requires p.lpShares != 0 && CanSettle(amm, p)
    ensures Settle(amm, price, p, burn, fold).Success? && PlanSettlement(amm, p).Success?
    ensures var s := Settle(amm, price, p, burn, fold).value;
            && s.position.quoteEntryAmount + s.pnl == p.quoteEntryAmount + QuoteDelta(amm, p)
            && (match GetUpdateType(PlanSettlement(amm, p).value.carriedBase, BaseDelta(amm, p))
                case Open => s.pnl == 0
                case Increase => s.pnl == 0
                case Reduce => Within(s.position.quoteEntryAmount, p.quoteEntryAmount)
                case Close => s.position.quoteEntryAmount == 0
                case Flip => Within(s.position.quoteEntryAmount, QuoteDelta(amm, p)))
            && s.position.quoteAssetAmount - p.quoteAssetAmount
               == s.position.quoteBreakEvenAmount - p.quoteBreakEvenAmount
               == QuoteDelta(amm, p) + UnsettledFundingPnl(amm, p) - DustValue(burn, s.remainder, price)
  {
    hide Settle, PlanSettlement, EntryAndPnl, Div, Quot, Rem, Pow10;
    var plan := PlanOf(amm, price, p, burn, fold);
    RebaseSucceedsIff(amm, p);
    EntryConserved(plan.carriedBase, plan.deltaBaa, p.quoteEntryAmount, plan.deltaQaa);
  }

  /** For a step-aligned position the settled base, before the remainder is folded in, is what the
      update type picked on the carried base says, and a closed position keeps no entry. */
  lemma SettleMovesAsTyped(amm: Amm, price: int, p: Position, burn: bool, fold: bool)
    requires p.lpShares != 0 && CanSettle(amm, p)
    requires Aligned(p.baseAssetAmount, amm.orderStepSize)
    ensures Settle(amm, price, p, burn, fold).Success? && PlanSettlement(amm, p).Success?
    ensures var s := Settle(amm, price, p, burn, fold).value;
            var carried := PlanSettlement(amm, p).value.carriedBase;
            var after := s.position.baseAssetAmount - (if fold then s.remainder else 0);
            var delta := BaseDelta(amm, p);
            && Aligned(carried, amm.orderStepSize)
            && match GetUpdateType(carried, delta)
               case Open => carried == 0
               case Increase => Abs(after) >= Abs(carried) && carried * after > 0
               case Reduce => carried * after > 0 && Abs(after) <= Abs(carried)
               case Close => after == 0 && s.position.quoteEntryAmount == 0
               case Flip =>
                 && (after == 0 <==> Abs(delta) - Abs(carried) < amm.orderStepSize)
                 && (after != 0 ==> Sign(after) == Sign(delta) && Sign(after) != Sign(carried))
  {
    hide Settle, PlanSettlement, EntryAndPnl, Div, Quot, Rem, Pow10, UnsettledFundingPnl, DustValue;
    var plan := PlanOf(amm, price, p, burn, fold);
    var step := amm.orderStepSize;
    StandardizeTruncates(plan.deltaBaa, step);
    CarryConserves(p.baseAssetAmount, p.remainderBaseAssetAmount, StepRemainder(plan.deltaBaa, step), step);
    UpdateTypeAgrees(plan.carriedBase, plan.deltaBaa, step);
    EntryConserved(plan.carriedBase, plan.deltaBaa, p.quoteEntryAmount, plan.deltaQaa);
  }

  /** The settled base before the remainder is folded in. */
  function Unfolded(s: Settlement, fold: bool): int {
    s.position.baseAssetAmount - (if fold then s.remainder else 0)
  }

  /** What is due on `base`, before scaling, if its rate is still that of `before`. */
  function FundingDue(amm: Amm, before: int, base: int): int {
    (FundingRateFor(amm, base) - FundingRateFor(amm, before)) * base
  }

  /** The rate a settled position is left with is that of its base before folding; what it then owes
      comes from the folded base. It owes nothing exactly when the two rates, over the folded base,
      differ by less than a whole unit of quote, as when they are the same. */
  lemma SettledOwesNoFunding(amm: Amm, price: int, p: Position, burn: bool, fold: bool)
    requires p.lpShares != 0 && CanSettle(amm, p)
    ensures Settle(amm, price, p, burn, fold).Success?
    ensures var s := Settle(amm, price, p, burn, fold).value;
            UnsettledFundingPnl(amm, s.position) == 0
            <==> Abs(FundingDue(amm, Unfolded(s, fold), s.position.baseAssetAmount)) < FUNDING_UNIT
  {
    hide Div, Quot, Rem, Pow10, PlanSettlement, EntryAndPnl, DustValue, UnsettledFundingPnl, FundingRateFor;
    var plan := PlanOf(amm, price, p, burn, fold);
    var s := Settle(amm, price, p, burn, fold).value;
    FundingIsZeroIff(amm, s.position);
  }

  /** The base times the rate that one unit of funding in quote takes. */
  const FUNDING_UNIT := AMM_RESERVE_PRECISION * FUNDING_RATE_BUFFER_PRECISION

  lemma FundingIsZeroIff(amm: Amm, p: Position)
    ensures UnsettledFundingPnl(amm, p) == 0 <==>
            Abs((FundingRateFor(amm, p.baseAssetAmount) - p.lastCumulativeFundingRate) * p.baseAssetAmount)
            < FUNDING_UNIT
  {
    if p.baseAssetAmount != 0 {
      var n := (FundingRateFor(amm, p.baseAssetAmount) - p.lastCumulativeFundingRate) * p.baseAssetAmount;
      ZeroQuotient(n, AMM_RESERVE_PRECISION);
      ZeroQuotient(Div(n, AMM_RESERVE_PRECISION), FUNDING_RATE_BUFFER_PRECISION);
      DivBounds(n, AMM_RESERVE_PRECISION);
    }
  }

  lemma ZeroQuotient(a: int, b: int)
    requires 0 < b
    ensures Div(a, b) == 0 <==> Abs(a) < b
  {
    DivBounds(a, b);
    if Abs(a) < b {
      DivUnique(a, b, 0);
    }
  }

  /** A step-aligned position owes no funding after settlement exactly when the remainder is not
      folded in, or is folded into a base that is not empty, or is too small to be charged a unit at
      its side's whole rate: folded into an empty base it starts at a rate of zero. */
  lemma AlignedSettlementOwesNoFunding(amm: Amm, price: int, p: Position, burn: bool, fold: bool)
    requires p.lpShares != 0 && CanSettle(amm, p)
    requires Aligned(p.baseAssetAmount, amm.orderStepSize)
    ensures Settle(amm, price, p, burn, fold).Success?
    ensures var s := Settle(amm, price, p, burn, fold).value;
            UnsettledFundingPnl(amm, s.position) == 0
            <==> !fold || Unfolded(s, fold) != 0 || Abs(FundingDue(amm, 0, s.remainder)) < FUNDING_UNIT
  {
    hide Settle, UnsettledFundingPnl, BaseDelta, Aligned, FundingRateFor, FundingDue, Div, Quot, Rem, Mod, Pow10;
    assert 0 < amm.orderStepSize;
    hide CanSettle;
    SettledOwesNoFunding(amm, price, p, burn, fold);
    SettleConservesBase(amm, price, p, burn, fold);
    var s := Settle(amm, price, p, burn, fold).value;
    RateAfterFolding(amm, Unfolded(s, fold), if fold then s.remainder else 0);
  }

  /** The rate a remainder of at most a step brings to an aligned base it joins. */
  lemma RateAfterFolding(amm: Amm, base: int, remainder: int)
    requires 0 < amm.orderStepSize && Aligned(base, amm.orderStepSize) && Abs(remainder) <= amm.orderStepSize
    ensures Abs(FundingDue(amm, base, base + remainder)) < FUNDING_UNIT
            <==> base != 0 || Abs(FundingDue(amm, 0, remainder)) < FUNDING_UNIT
    ensures FundingDue(amm, base, base) == 0
  {
    if base != 0 {
      AlignedAtLeastStep(base, amm.orderStepSize);
      assert base + remainder == 0 || FundingRateFor(amm, base + remainder) == FundingRateFor(amm, base);
    }
  }

  lemma SettledFundingIsZero(amm: Amm, p: Position)
    requires FundingSettled(amm, p)
    ensures UnsettledFundingPnl(amm, p) == 0
  {
    if p.baseAssetAmount != 0 {
      var rate := if p.baseAssetAmount > 0 then amm.cumulativeFundingRateLong else amm.cumulativeFundingRateShort;
      assert (rate - p.lastCumulativeFundingRate) * p.baseAssetAmount == 0;
    }
  }

  /** A market of step 10 with one reserve unit per LP share, `base` and `quote` accrued and a long
      funding rate of a thousand. */
  function SmallMarket(base: int, quote: int): Amm {
    Amm(0, 0, 0, 10, 1, 1_000_000_000_000, 0, base, quote, -9)
  }

  /** One LP share settled last when nothing had accrued. */
  function SmallPosition(base: int, lastFundingRate: int): Position {
    Position(0, base, 0, lastFundingRate, 0, 0, 0, 0, 0, 0, 0, 1, 0, 0, -9)
  }

  /** The deltas of the small market's one share are what it accrued. */
  lemma SmallDeltas(base: int, quote: int, held: int, lastFundingRate: int)
    ensures BaseDelta(SmallMarket(base, quote), SmallPosition(held, lastFundingRate)) == base
    ensures QuoteDelta(SmallMarket(base, quote), SmallPosition(held, lastFundingRate)) == quote
  {
    DivMultiple(base, 1);
    DivMultiple(quote, 1);
    assert Pow10(0) == 1;
  }

  /** What settling it leaves: nothing is carried, since one delta's remainder is below a step. */
  lemma SmallSettlement(price: int, base: int, quote: int, held: int, lastFundingRate: int, fold: bool)
    ensures var amm, p := SmallMarket(base, quote), SmallPosition(held, lastFundingRate);
            && CanSettle(amm, p)
            && Settle(amm, price, p, false, fold).Success?
            && var s := Settle(amm, price, p, false, fold).value;
               && s.remainder == StepRemainder(base, 10)
               && Unfolded(s, fold) == held + Standardize(base, 10)
               && s.position.remainderBaseAssetAmount == (if fold then 0 else s.remainder)
               && s.position.lastCumulativeFundingRate == FundingRateFor(amm, Unfolded(s, fold))
               && (s.position.quoteEntryAmount, s.pnl) == EntryAndPnl(held, base, 0, quote)
               && s.position.quoteAssetAmount == quote + UnsettledFundingPnl(amm, p)
  {
    var amm, p := SmallMarket(base, quote), SmallPosition(held, lastFundingRate);
    SmallDeltas(base, quote, held, lastFundingRate);
    StandardizeTruncates(base, 10);
    assert CanSettle(amm, p);
    hide Settle, PlanSettlement, EntryAndPnl, Div, Quot, Rem, Pow10, UnsettledFundingPnl, BaseDelta, QuoteDelta;
    var plan := PlanOf(amm, price, p, false, fold);
  }

  /** A settlement that does owe: a remainder of 5 folded into an empty base. */
  lemma FoldedRemainderOwesFunding(price: int)
    ensures var r := Settle(SmallMarket(5, 0), price, SmallPosition(0, 0), false, true);
            && r.Success?
            && r.value.position.baseAssetAmount == 5
            && UnsettledFundingPnl(SmallMarket(5, 0), r.value.position) == -5
  {
    hide Settle;
    SmallSettlement(price, 5, 0, 0, 0, true);
    DivUnique(5_000_000_000_000, AMM_RESERVE_PRECISION, 5_000);
    DivUnique(5_000, FUNDING_RATE_BUFFER_PRECISION, 5);
  }

  // ----- quote entry of an empty base -----

  /** An update that leaves no base leaves no quote entry exactly when it closes the base, or opens one
      below the step or flips to one with nothing to book: an open books the entry and the quote, a
      flip the quote. */
  lemma EmptyBaseKeepsNoEntryIff(base: int, delta: int, quoteEntry: int, deltaQaa: int, step: nat)
    requires 0 < step && Aligned(base, step) && base + Standardize(delta, step) == 0
    ensures EntryAndPnl(base, delta, quoteEntry, deltaQaa).0 == 0 <==>
            match GetUpdateType(base, delta)
            case Open => quoteEntry + deltaQaa == 0
            case Close => true
            case Flip => deltaQaa == 0
            case _ => false
  {
    UpdateTypeAgrees(base, delta, step);
    EntryConserved(base, delta, quoteEntry, deltaQaa);
    if GetUpdateType(base, delta) == Flip {
      if deltaQaa != 0 {
        FlipKeepsSome(deltaQaa, Abs(base), Abs(delta));
      } else {
        DivMultiple(0, Abs(delta));
      }
    }
  }

  /** A fraction below one of a nonzero amount leaves some of it. */
  lemma FlipKeepsSome(x: int, n: nat, d: nat)
    requires n < d && x != 0
    ensures x - Div(x * n, d) != 0
  {
    DivBounds(x * n, d);
    MulSign(x, d - n);
    assert x * (d - n) == x * d - x * n;
  }

  /** The same of a whole settlement, by the type picked on the carried base. */
  lemma SettledEmptyKeepsNoEntryIff(amm: Amm, price: int, p: Position, burn: bool, fold: bool)
    requires p.lpShares != 0 && CanSettle(amm, p)
    requires Aligned(p.baseAssetAmount, amm.orderStepSize)
    ensures Settle(amm, price, p, burn, fold).Success? && PlanSettlement(amm, p).Success?
    ensures var s := Settle(amm, price, p, burn, fold).value;
            Unfolded(s, fold) == 0 ==>
              (s.position.quoteEntryAmount == 0 <==>
               match GetUpdateType(PlanSettlement(amm, p).value.carriedBase, BaseDelta(amm, p))
               case Open => p.quoteEntryAmount + QuoteDelta(amm, p) == 0
               case Close => true
               case Flip => QuoteDelta(amm, p) == 0
               case _ => false)
  {
    hide Settle, PlanSettlement, EntryAndPnl, Div, Quot, Rem, Pow10, UnsettledFundingPnl, DustValue;
    var plan := PlanOf(amm, price, p, burn, fold);
    var step := amm.orderStepSize;
    StandardizeTruncates(plan.deltaBaa, step);
    CarryConserves(p.baseAssetAmount, p.remainderBaseAssetAmount, StepRemainder(plan.deltaBaa, step), step);
    if plan.carriedBase + Standardize(plan.deltaBaa, step) == 0 {
      EmptyBaseKeepsNoEntryIff(plan.carriedBase, plan.deltaBaa, p.quoteEntryAmount, plan.deltaQaa, step);
    }
  }

  /** Two settlements that end with an empty base and a quote entry: an open below the step, and a flip
      by less than one. */
  lemma EmptyBaseWithEntry(price: int)
    ensures var fromEmpty := Settle(SmallMarket(5, -50), price, SmallPosition(0, 0), false, false);
            && fromEmpty.Success?
            && fromEmpty.value.position.baseAssetAmount == 0
            && fromEmpty.value.position.quoteEntryAmount == -50
    ensures var fromLong := Settle(SmallMarket(-15, 30), price, SmallPosition(10, 0), false, false);
            && fromLong.Success?
            && fromLong.value.position.baseAssetAmount == 0
            && fromLong.value.position.quoteEntryAmount == 10
  {
    hide Settle;
    SmallSettlement(price, 5, -50, 0, 0, false);
    SmallSettlement(price, -15, 30, 10, 0, false);
    DivUnique(30 * 10, 15, 20);
  }

  /** Zero counts as positive, so a settlement that moves no base books its quote delta as entry on
      a long position and as pnl on a short one. */
  lemma NoBaseMoveDependsOnSide(base: int, quoteEntry: int, deltaQaa: int)
    ensures EntryAndPnl(base, 0, quoteEntry, deltaQaa) ==
            if base >= 0 then (quoteEntry + deltaQaa, 0) else (quoteEntry, deltaQaa)
  {
    if base < 0 {
      DivUnique(quoteEntry * 0, Abs(base), 0);
    }
  }
}
