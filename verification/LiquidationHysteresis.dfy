/** What a liquidation buffer does to an account: it never helps. */
module LiquidationHysteresis {
  import opened Bn
  import opened LpSettlement
  import opened PerpMargin
  import SV = SpotValue
  import opened SpotAccount
  import opened AccountMargin

  // ----- perps -----

  lemma BufferedPnlFalls(pnl: int, b: Option<nat>, b': Option<nat>)
    requires SV.Buffer(b) <= SV.Buffer(b')
    ensures BufferedPnl(pnl, b') <= BufferedPnl(pnl, b)
  {
    if pnl < 0 {
      MulMono(SV.Buffer(b), SV.Buffer(b'), -pnl);
      MulMono(0, SV.Buffer(b), -pnl);
      DivMono(pnl * SV.Buffer(b'), pnl * SV.Buffer(b), MARGIN_PRECISION);
      DivMono(pnl * SV.Buffer(b), 0, MARGIN_PRECISION);
      DivUnique(0, MARGIN_PRECISION, 0);
      assert pnl * 0 == 0;
    }
  }

  lemma ScaledByMore(quoted: int, ratio: nat, ratio': nat)
    requires ratio <= ratio'
    ensures quoted >= 0 ==> Div(quoted * ratio, MARGIN_PRECISION) <= Div(quoted * ratio', MARGIN_PRECISION)
    ensures quoted <= 0 ==> Div(quoted * ratio', MARGIN_PRECISION) <= Div(quoted * ratio, MARGIN_PRECISION)
  {
    if quoted >= 0 {
      ScaledMono(quoted, quoted, ratio, ratio', MARGIN_PRECISION);
    }
    if quoted <= 0 {
      MulMono(ratio, ratio', -quoted);
      assert ratio * -quoted == -(quoted * ratio) && ratio' * -quoted == -(quoted * ratio');
      DivMono(quoted * ratio', quoted * ratio, MARGIN_PRECISION);
    }
  }

  /** Where the buffer acts in the right direction: the market is in settlement, and charges no
      margin, or the quoted liability is not negative. */
  predicate BufferSound(h: PerpHolding, p: Position, t: Terms) {
    h.market.inSettlement || QuotedLiability(h, p, t) >= 0
  }

  /** A larger buffer never lowers the margin of a sound position and never raises that of any other. */
  lemma LiabilityRises(u: Margining, h: PerpHolding, p: Position, t: Terms, b': Option<nat>)
    requires SV.Buffer(t.liquidationBuffer) <= SV.Buffer(b')
    ensures var m, m' := WeightedLiability(u, h, p, t), WeightedLiability(u, h, p, t.(liquidationBuffer := b'));
            if BufferSound(h, p, t) then m <= m' else m' <= m
  {
    hide Div, MarketMarginRatio, ChargedBase;
    var t' := t.(liquidationBuffer := b');
    assert QuotedLiability(h, p, t') == QuotedLiability(h, p, t);
    assert OrdersAndLpMargin(h, p, t') == OrdersAndLpMargin(h, p, t);
    if !h.market.inSettlement {
      ScaledByMore(QuotedLiability(h, p, t), AppliedMarginRatio(u, h, p, t), AppliedMarginRatio(u, h, p, t'));
    }
  }

  /** At a price in range every position is sound. Out of range, as when a prediction market's oracle
      reads above the maximum price, a short's liability is negative and the buffer lowers it. */
  lemma InRangeIsSound(h: PerpHolding, p: Position, t: Terms)
    requires PriceInRange(h.market, ValuationPrice(h)) && 0 <= h.liabilityQuotePrice
    ensures BufferSound(h, p, t)
  {
    var price, isPrediction := ValuationPrice(h), h.market.isPrediction;
    LiabilityMono(0, p.baseAssetAmount, price, isPrediction);
    LiabilityMono(0, p.baseAssetAmount + p.openBids, price, isPrediction);
    LiabilityMono(0, p.baseAssetAmount + p.openAsks, price, isPrediction);
    var liability := ChargedBase(p, price, isPrediction, t.includeOpenOrders).1;
    var quotePrice := if t.strict then Max(h.liabilityQuotePrice, h.quoteTwap5Min) else h.liabilityQuotePrice;
    NonNegativeScaled(liability, quotePrice);
  }

  lemma NonNegativeScaled(x: nat, y: nat)
    ensures Div(x * y, PRICE_PRECISION) >= 0
  {
    MulMono(0, x, y);
    DivBounds(x * y, PRICE_PRECISION);
  }

  lemma FullBufferAdds(quoted: int, ratio: nat)
    requires quoted < 0
    ensures Div(quoted * (ratio + MARGIN_PRECISION), MARGIN_PRECISION) == Div(quoted * ratio, MARGIN_PRECISION) + quoted
  {
    MulMono(0, ratio, -quoted);
    DivBounds(quoted * ratio, MARGIN_PRECISION);
    assert quoted * (ratio + 10_000) == quoted * ratio + 10_000 * quoted;
    DivUnique(quoted * (ratio + MARGIN_PRECISION), MARGIN_PRECISION, Div(quoted * ratio, MARGIN_PRECISION) + quoted);
  }

  /** A position's margin never falls under a buffer exactly when the position is sound. */
  lemma LiabilityRisesIff(u: Margining, h: PerpHolding, p: Position, t: Terms)
    requires t.liquidationBuffer == None
    ensures BufferSound(h, p, t) <==>
            forall b: nat ::
              WeightedLiability(u, h, p, t) <= WeightedLiability(u, h, p, t.(liquidationBuffer := Some(b)))
  {
    if BufferSound(h, p, t) {
      forall b: nat
        ensures WeightedLiability(u, h, p, t) <= WeightedLiability(u, h, p, t.(liquidationBuffer := Some(b)))
      {
        LiabilityRises(u, h, p, t, Some(b));
      }
    } else {
      FullBufferLowers(u, h, p, t);
    }
  }

  lemma FullBufferLowers(u: Margining, h: PerpHolding, p: Position, t: Terms)
    requires t.liquidationBuffer == None && !BufferSound(h, p, t)
    ensures WeightedLiability(u, h, p, t.(liquidationBuffer := Some(MARGIN_PRECISION))) < WeightedLiability(u, h, p, t)
  {
    hide Div, MarketMarginRatio, ChargedBase;
    var t' := t.(liquidationBuffer := Some(MARGIN_PRECISION));
    assert QuotedLiability(h, p, t') == QuotedLiability(h, p, t);
    assert OrdersAndLpMargin(h, p, t') == OrdersAndLpMargin(h, p, t);
    assert AppliedMarginRatio(u, h, p, t') == AppliedMarginRatio(u, h, p, t) + MARGIN_PRECISION;
    FullBufferAdds(QuotedLiability(h, p, t), AppliedMarginRatio(u, h, p, t));
  }

  predicate Sound(perps: seq<PerpHolding>, t: Terms) {
    forall i :: 0 <= i < |perps| ==> SoundHolding(perps[i], t)
  }

  predicate SoundHolding(h: PerpHolding, t: Terms) {
    IsActive(h.position) && MarginPosition(h).Success? ==> BufferSound(h, MarginPosition(h).value, t)
  }

  /** A larger buffer changes no error and never raises the pnl of any positions. It never lowers the
      liabilities of sound ones. */
  lemma {:induction false} PerpSumsWorsen(u: Margining, perps: seq<PerpHolding>, t: Terms, b': Option<nat>, n: nat)
    requires SV.Buffer(t.liquidationBuffer) <= SV.Buffer(b') && n <= |perps|
    ensures var r, r' := PerpSums(u, perps, t, n), PerpSums(u, perps, t.(liquidationBuffer := b'), n);
            if r.Failure? then r' == r
            else r'.Success? && r'.value.1 <= r.value.1 && (Sound(perps, t) ==> r.value.0 <= r'.value.0)
  {
    hide WeightedLiability, WeightedPnl, MarginPosition, BufferSound;
    if n != 0 {
      PerpSumsWorsen(u, perps, t, b', n - 1);
      var h := perps[n - 1];
      if IsActive(h.position) && MarginPosition(h).Success? {
        var p := MarginPosition(h).value;
        PnlFalls(h, p, t, b');
        if Sound(perps, t) {
          assert SoundHolding(h, t);
          LiabilityRises(u, h, p, t, b');
        }
      }
    }
  }

  lemma PnlFalls(h: PerpHolding, p: Position, t: Terms, b': Option<nat>)
    requires SV.Buffer(t.liquidationBuffer) <= SV.Buffer(b')
    ensures WeightedPnl(h, p, t.(liquidationBuffer := b')) <= WeightedPnl(h, p, t)
  {
    hide QuotedPnl, Div, BufferedPnl;
    var quoted := QuotedPnl(h, p, t.strict);
    var weight := if t.category == Initial then h.initialPnlWeight(quoted)
                  else h.market.unrealizedPnlMaintenanceAssetWeight;
    var weighted := if quoted > 0 then Div(quoted * weight, SV.SPOT_MARKET_WEIGHT_PRECISION) else quoted;
    BufferedPnlFalls(weighted, t.liquidationBuffer, b');
  }

  // ----- spot -----

  /** The same appraisal but for liabilities that may weigh more. */
  predicate Heavier(x: Appraisal, x': Appraisal) {
    && x' == x.(balanceLiability := x'.balanceLiability, worstLiability := x'.worstLiability)
    && x.balanceLiability <= x'.balanceLiability
    && x.worstLiability <= x'.worstLiability
  }

  lemma AppraisalHeavier(v: Valuation, h: Holding, b': Option<nat>)
    requires SV.Buffer(v.liquidationBuffer) <= SV.Buffer(b')
    ensures Heavier(Appraise(v, h), Appraise(v.(liquidationBuffer := b'), h))
  {
    hide Div, SV.SpotLiabilityValue, SV.SpotAssetValue, SV.WorstCaseTokenAmounts, SV.PositionTokens;
    var v' := v.(liquidationBuffer := b');
    var worst := SV.WorstCaseTokenAmounts(h.position, h.market, PriceOf(v, h), v.category, v.maxMarginRatio);
    LiabilityHeavier(v, h, SV.PositionTokens(h.position, h.market), b');
    LiabilityHeavier(v, h, worst.tokenAmount, b');
  }

  lemma LiabilityHeavier(v: Valuation, h: Holding, amount: int, b': Option<nat>)
    requires SV.Buffer(v.liquidationBuffer) <= SV.Buffer(b')
    ensures LiabilityValue(v, h, amount) <= LiabilityValue(v.(liquidationBuffer := b'), h, amount)
  {
    SV.BufferRaisesLiability(amount, PriceOf(v, h), h.market, v.maxMarginRatio, v.category, v.liquidationBuffer, b');
  }

  lemma {:induction false} SumHeavier(withOrders: bool, xs: seq<Appraisal>, xs': seq<Appraisal>, n: nat)
    requires |xs| == |xs'| && n <= |xs|
    requires forall i :: 0 <= i < |xs| ==> Heavier(xs[i], xs'[i])
    ensures var s, s' := Sum(None, withOrders, xs, n), Sum(None, withOrders, xs', n);
            s'.net <= s.net && s'.assets == s.assets && s.liabilities <= s'.liabilities
  {
    if n != 0 {
      SumHeavier(withOrders, xs, xs', n - 1);
      assert Heavier(xs[n - 1], xs'[n - 1]);
    }
  }

  /** Spot liabilities never fall under a buffer, whatever the positions and prices. */
  lemma SpotLiabilityRises(v: Valuation, spots: seq<Holding>, b': Option<nat>)
    requires v.filter == None && SV.Buffer(v.liquidationBuffer) <= SV.Buffer(b')
    ensures Totals(v, spots).1 <= Totals(v.(liquidationBuffer := b'), spots).1
  {
    hide Appraise;
    var v' := v.(liquidationBuffer := b');
    forall i | 0 <= i < |spots|
      ensures Heavier(Appraisals(v, spots)[i], Appraisals(v', spots)[i])
    {
      AppraisalHeavier(v, spots[i], b');
    }
    SumHeavier(v.includeOpenOrders, Appraisals(v, spots), Appraisals(v', spots), |spots|);
  }

  // ----- the account -----

  /** A larger buffer never raises total collateral, for any account, and never lowers the margin
      requirement of one whose perp positions are sound. */
  lemma BufferNeverHelps(a: Account, t: Terms, b': Option<nat>)
    requires SV.Buffer(t.liquidationBuffer) <= SV.Buffer(b')
    ensures var s, s' := MarginStateOf(a, t), MarginStateOf(a, t.(liquidationBuffer := b'));
            if s.Failure? then s' == Failure(s.error)
            else
              && s'.Success?
              && s'.value.totalCollateral <= s.value.totalCollateral
              && (Sound(a.perps, t) ==> s.value.marginRequirement <= s'.value.marginRequirement)
  {
    hide Totals, PerpSums, Sound;
    PerpSumsWorsen(a.u, a.perps, t, b', |a.perps|);
    SpotLiabilityRises(SpotTerms(a.u, t, t.liquidationBuffer), a.spots, b');
  }

  /** An account with one perp position and nothing else. */
  function Alone(a: Account, h: PerpHolding): Account {
    a.(perps := [h], spots := [])
  }

  /** No buffer lowers the account's margin requirement. */
  predicate NeverEased(a: Account, t: Terms, b: nat) {
    var s, s' := MarginStateOf(a, t), MarginStateOf(a, t.(liquidationBuffer := Some(b)));
    s.Success? ==> s'.Success? && s.value.marginRequirement <= s'.value.marginRequirement
  }

  lemma NoSpots(v: Valuation)
    ensures Totals(v, []) == (0, 0)
  {
    assert Appraisals(v, []) == [];
  }

  lemma PerpSumsAlone(u: Margining, h: PerpHolding, t: Terms)
    requires IsActive(h.position)
    ensures PerpSums(u, [h], t, 1) ==
            if MarginPosition(h).Failure? then Failure(MarginPosition(h).error)
            else Success((WeightedLiability(u, h, MarginPosition(h).value, t),
                          WeightedPnl(h, MarginPosition(h).value, t)))
  {
    hide WeightedLiability, WeightedPnl, MarginPosition, IsActive;
    assert PerpSums(u, [h], t, 0) == Success((0, 0));
  }

  /** The margin state of one position by itself. */
  lemma StateAlone(a: Account, h: PerpHolding, t: Terms)
    requires IsActive(h.position)
    ensures MarginStateOf(Alone(a, h), t) ==
            if MarginPosition(h).Failure? then Failure(MarginPosition(h).error)
            else Success(MarginState(WeightedPnl(h, MarginPosition(h).value, t),
                                     WeightedLiability(a.u, h, MarginPosition(h).value, t)))
  {
    hide WeightedLiability, WeightedPnl, MarginPosition, IsActive, PerpSums, Totals;
    PerpSumsAlone(a.u, h, t);
    NoSpots(SpotTerms(a.u, t, None));
    NoSpots(SpotTerms(a.u, t, t.liquidationBuffer));
  }

  /** Soundness is what it takes, and no less: every unsound position makes an account, all by itself,
      whose margin requirement some buffer lowers. */
  lemma SoundIffNeverEased(a: Account, t: Terms)
    requires t.liquidationBuffer == None
    ensures Sound(a.perps, t) <==>
            forall i, b: nat :: 0 <= i < |a.perps| ==> NeverEased(Alone(a, a.perps[i]), t, b)
  {
    hide WeightedLiability, MarginPosition, BufferSound, MarginStateOf;
    if Sound(a.perps, t) {
      forall i, b: nat | 0 <= i < |a.perps|
        ensures NeverEased(Alone(a, a.perps[i]), t, b)
      {
        assert SoundHolding(a.perps[i], t);
        assert Sound(Alone(a, a.perps[i]).perps, t);
        BufferNeverHelps(Alone(a, a.perps[i]), t, Some(b));
      }
    } else {
      var i :| 0 <= i < |a.perps| && !SoundHolding(a.perps[i], t);
      var h := a.perps[i];
      FullBufferLowers(a.u, h, MarginPosition(h).value, t);
      StateAlone(a, h, t);
      StateAlone(a, h, t.(liquidationBuffer := Some(MARGIN_PRECISION)));
      assert !NeverEased(Alone(a, h), t, MARGIN_PRECISION);
    }
  }

  /** An account that can be liquidated can still be liquidated once its liquidation has begun and the
      buffer applies, unless the buffer eases its requirement, which it cannot for sound positions:
      entering liquidation never ends it. */
  lemma LiquidationHysteresis(a: Account)
    ensures Sound(a.perps, Maintain(None)) || NeverEased(a, Maintain(None), a.liquidationMarginBufferRatio) ==>
              CanBeLiquidated(a.(beingLiquidated := false)) == Success(true) ==>
                CanBeLiquidated(a.(beingLiquidated := true)) == Success(true)
  {
    hide MarginStateOf, Sound;
    BufferNeverHelps(a, Maintain(None), Some(a.liquidationMarginBufferRatio));
    var started := a.(beingLiquidated := true);
    var before := a.(beingLiquidated := false);
    SameState(a, before, Maintain(None));
    SameState(a, started, MaintenanceTerms(started));
  }

  /** Every market's valuation price is in range and the quote price is not negative. */
  predicate PricesInRange(perps: seq<PerpHolding>) {
    forall i :: 0 <= i < |perps| ==>
      PriceInRange(perps[i].market, ValuationPrice(perps[i])) && 0 <= perps[i].liabilityQuotePrice
  }

  /** At prices in range no account leaves liquidation by entering it. */
  lemma InRangeHysteresis(a: Account)
    requires PricesInRange(a.perps)
    ensures CanBeLiquidated(a.(beingLiquidated := false)) == Success(true) ==>
              CanBeLiquidated(a.(beingLiquidated := true)) == Success(true)
  {
    hide CanBeLiquidated, BufferSound, MarginPosition;
    forall i | 0 <= i < |a.perps|
      ensures SoundHolding(a.perps[i], Maintain(None))
    {
      if MarginPosition(a.perps[i]).Success? {
        InRangeIsSound(a.perps[i], MarginPosition(a.perps[i]).value, Maintain(None));
      }
    }
    LiquidationHysteresis(a);
  }

  /** A short in a prediction market whose oracle reads 1.2, with three open orders. */
  function ShortAboveRange(): PerpHolding {
    var amm := Amm(0, 0, 0, 1, 1, 0, 0, 0, 0, 0);
    PerpHolding(Position(0, -1_000_000_000, 0, 0, 1_218_000, 0, 0, 3, 0, 0, 0, 0, 0, 0, 0),
                PerpMarket(amm, true, false, 0, 1_000, 500, 0, 0, 0, 10_000),
                1_200_000, 1_000_000, 1_000_000, 1_000_000, pnl => 10_000)
  }

  lemma ShortAboveRangeValues(h: PerpHolding, b: Option<nat>)
    requires h == ShortAboveRange() && (b == None || b == Some(200))
    ensures WeightedLiability(Margining(0, false), h, h.position, Maintain(b)) == if b == None then 20_000 else 16_000
    ensures WeightedPnl(h, h.position, Maintain(b)) == 18_000
  {
    DivMultiple(-200_000, 1_000_000_000);
    DivMultiple(-200_000, 1_000_000);
    DivMultiple(-10_000, 10_000);
    DivMultiple(-14_000, 10_000);
    DivMultiple(1_200_000, 1_000_000_000);
    DivMultiple(18_000, 1_000_000);
    DivMultiple(18_000, 10_000);
    DivMultiple(0, 1_000_000_000);
    DivMultiple(0, 1_000);
    hide Div;
  }

  lemma LiquidationAlone(a: Account, h: PerpHolding)
    requires IsActive(h.position) && h.position.lpShares == 0
    ensures CanBeLiquidated(Alone(a, h)) ==
            Success(WeightedPnl(h, h.position, MaintenanceTerms(a))
                    < WeightedLiability(a.u, h, h.position, MaintenanceTerms(a)))
  {
    assert MarginPosition(h) == Success(h.position);
    hide WeightedLiability, WeightedPnl, MarginStateOf, MarginPosition, IsActive;
    StateAlone(a, h, MaintenanceTerms(a));
  }

  /** It can be liquidated, with 18000 of collateral for 20000, until its liquidation begins: the buffer
      of 200 lowers the requirement to 16000. */
  lemma HysteresisFails(a: Account)
    requires a.u == Margining(0, false) && !a.beingLiquidated && a.liquidationMarginBufferRatio == 200
    ensures CanBeLiquidated(Alone(a, ShortAboveRange())) == Success(true)
    ensures CanBeLiquidated(Alone(a, ShortAboveRange()).(beingLiquidated := true)) == Success(false)
  {
    hide WeightedLiability, WeightedPnl, Div, CanBeLiquidated;
    var h := ShortAboveRange();
    ShortAboveRangeValues(h, None);
    ShortAboveRangeValues(h, Some(200));
    LiquidationAlone(a, h);
    LiquidationAlone(a.(beingLiquidated := true), h);
  }

  lemma SameState(a: Account, a': Account, t: Terms)
    requires a' == a.(beingLiquidated := a'.beingLiquidated)
    ensures MarginStateOf(a', t) == MarginStateOf(a, t)
  {
    hide Totals, PerpSums;
  }
}
