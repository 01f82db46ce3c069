/** What restating a position in the market's per-LP exponent does to its settlement. */
module LpRebase {
  import opened Bn
  import opened LpSettlement
  import opened LpSettlementTheorems

  /** The same market quoted `k` exponents higher: accumulators and exponent move together. */
  function Restated(amm: Amm, k: nat): Amm {
    amm.(baseAssetAmountPerLp := amm.baseAssetAmountPerLp * Pow10(k),
         quoteAssetAmountPerLp := amm.quoteAssetAmountPerLp * Pow10(k),
         perLpBase := amm.perLpBase + k)
  }

  lemma ScaleNet(a: int, l: int, r: int, t: int, n: int)
    ensures (a * t - l * (r * t)) * n == (a - l * r) * n * t
  {
    assert l * (r * t) == (l * r) * t;
    assert a * t - (l * r) * t == (a - l * r) * t;
    assert (a - l * r) * t * n == (a - l * r) * n * t;
  }

  lemma DeltaInvariant(perLp: int, last: int, marketBase: int, positionBase: int, shares: nat, k: nat)
    requires -9 <= marketBase && positionBase <= marketBase
    ensures DeltaOver(perLp * Pow10(k), last, marketBase + k, positionBase, shares)
            == DeltaOver(perLp, last, marketBase, positionBase, shares)
  {
    var d := marketBase - positionBase;
    Pow10Add(d, k);
    Pow10Add(9 + marketBase, k);
    assert marketBase + k - positionBase == d + k && 9 + (marketBase + k) == 9 + marketBase + k;
    ScaleNet(perLp, last, Pow10(d), Pow10(k), shares);
    DivCancel((perLp - last * Pow10(d)) * shares, Pow10(9 + marketBase), Pow10(k));
  }

  lemma PlanInvariance(amm: Amm, p: Position, k: nat)
    requires -9 <= amm.perLpBase && amm.perLpBase + k <= 9
    requires p.perLpBase <= amm.perLpBase
    ensures var before, after := PlanSettlement(amm, p), PlanSettlement(Restated(amm, k), p);
            if amm.perLpBase + k - p.perLpBase > 15 then after == Failure(UnsafeNumber)
            else if before.Failure? then after == before
            else
              && after.Success?
              && after.value == before.value.(baseUnit := after.value.baseUnit, rebased := after.value.rebased)
              && SameButPerLp(before.value.rebased, after.value.rebased)
              && after.value.rebased.perLpBase == amm.perLpBase + k
  {
    DeltasInvariant(amm, p, k);
    PlanInClosedForm(amm, p);
    PlanInClosedForm(Restated(amm, k), p);
  }

  lemma FinishInvariance(amm: Amm, amm': Amm, price: int, p: Position, plan: Plan, plan': Plan, burn: bool, fold: bool)
    requires amm.orderStepSize != 0 && amm.sqrtK != 0
    requires amm' == amm.(baseAssetAmountPerLp := amm'.baseAssetAmountPerLp,
                          quoteAssetAmountPerLp := amm'.quoteAssetAmountPerLp,
                          perLpBase := amm'.perLpBase)
    requires plan' == plan.(baseUnit := plan'.baseUnit, rebased := plan'.rebased)
    requires SameButPerLp(plan.rebased, plan'.rebased)
    ensures var s, s' := Finish(amm, price, p, plan, burn, fold), Finish(amm', price, p, plan', burn, fold);
            && s'.remainder == s.remainder
            && s'.pnl == s.pnl
            && SameButPerLp(s.position, s'.position)
            && s'.position.perLpBase == plan'.rebased.perLpBase
  {
  }

  /** The positions differ at most in their per-LP exponent and last per-LP amounts. */
  predicate SameButPerLp(p: Position, p': Position) {
    p' == p.(perLpBase := p'.perLpBase,
             lastBaseAssetAmountPerLp := p'.lastBaseAssetAmountPerLp,
             lastQuoteAssetAmountPerLp := p'.lastQuoteAssetAmountPerLp)
  }

  /** Restating the market changes nothing a settlement computes but the exponent and the last
      per-LP amounts it stores, as long as the position's exponent is at or below the market's and
      within fifteen of the restated one. Further apart, the settlement is refused. */
  lemma RebaseInvariance(amm: Amm, price: int, p: Position, burn: bool, fold: bool, k: nat)
    requires p.lpShares != 0
    requires -9 <= amm.perLpBase && amm.perLpBase + k <= 9
    requires p.perLpBase <= amm.perLpBase
    ensures var before := Settle(amm, price, p, burn, fold);
            var after := Settle(Restated(amm, k), price, p, burn, fold);
            if amm.perLpBase + k - p.perLpBase > 15 then
              after == Failure(UnsafeNumber)
            else if before.Failure? then
              after == before
            else
              && after.Success?
              && after.value.remainder == before.value.remainder
              && after.value.pnl == before.value.pnl
              && SameButPerLp(before.value.position, after.value.position)
              && after.value.position.perLpBase == amm.perLpBase + k
  {
    PlanInvariance(amm, p, k);
    var amm' := Restated(amm, k);
    var plan, plan' := PlanSettlement(amm, p), PlanSettlement(amm', p);
    if plan.Success? && plan'.Success? && amm.orderStepSize != 0 && amm.sqrtK != 0 {
      FinishInvariance(amm, amm', price, p, plan.value, plan'.value, burn, fold);
    }
  }

  /** The deltas themselves are the same numbers. */
  lemma DeltasInvariant(amm: Amm, p: Position, k: nat)
    requires -9 <= amm.perLpBase && p.perLpBase <= amm.perLpBase
    ensures BaseDelta(Restated(amm, k), p) == BaseDelta(amm, p)
    ensures QuoteDelta(Restated(amm, k), p) == QuoteDelta(amm, p)
  {
    DeltaInvariant(amm.baseAssetAmountPerLp, p.lastBaseAssetAmountPerLp, amm.perLpBase, p.perLpBase, p.lpShares, k);
    DeltaInvariant(amm.quoteAssetAmountPerLp, p.lastQuoteAssetAmountPerLp, amm.perLpBase, p.perLpBase, p.lpShares, k);
  }

  // ----- the error of rebasing down -----

  lemma ErrorSplit(a: int, l: int, q: int, scale: int, n: int, delta: int, unit: int)
    ensures (a * scale - l) * n - delta * unit * scale
            == ((a - q) * n - delta * unit) * scale - (l - q * scale) * n
  {
    var x := (a - q) * n;
    assert (x - delta * unit) * scale == x * scale - delta * unit * scale;
    assert x * scale == (a - q) * scale * n;
    assert (a - q) * scale == a * scale - q * scale;
    assert (a * scale - q * scale) * n == (a * scale - l) * n + (l - q * scale) * n;
  }

  lemma ErrorSize(e: int, f: int, scale: int, n: nat, unit: int)
    requires Abs(e) < scale && Abs(f) < unit
    ensures Abs(f * scale - e * n) < (unit + n) * scale
  {
    MulMono(Abs(f), unit - 1, scale);
    MulMono(Abs(e), scale, n);
    NegMul(f, scale);
    NegMul(e, n);
    assert (unit - 1) * scale == unit * scale - scale;
    assert (unit + n) * scale == unit * scale + scale * n;
  }

  lemma ErrorIsBounded(perLp: int, last: int, scale: int, shares: nat, unit: int)
    requires 0 < scale && 0 < unit
    ensures var delta := Div((perLp - Div(last, scale)) * shares, unit);
            Abs((perLp * scale - last) * shares - delta * unit * scale) < (unit + shares) * scale
  {
    var q := Div(last, scale);
    var net := (perLp - q) * shares;
    var delta := Div(net, unit);
    DivBounds(last, scale);
    DivBounds(net, unit);
    ErrorSplit(perLp, last, q, scale, shares, delta, unit);
    ErrorSize(last - q * scale, net - delta * unit, scale, shares, unit);
  }

  lemma {:induction false} RealProduct(x: int, y: int)
    ensures (x * y) as real == x as real * y as real
  {
  }

  /** Rebasing a position down truncates its last per-LP amount; each delta is still within
      `lpShares / baseUnit + 1` of the exact rational share. */
  lemma RebaseDownError(perLp: int, last: int, marketBase: int, positionBase: int, shares: nat)
    requires -9 <= marketBase < positionBase
    ensures WithinShareError(DeltaOver(perLp, last, marketBase, positionBase, shares) as real,
                             perLp as real, last as real, Pow10(positionBase - marketBase) as real,
                             shares as real, Pow10(9 + marketBase) as real)
  {
    var s, u := Pow10(positionBase - marketBase), Pow10(9 + marketBase);
    ErrorIsBounded(perLp, last, s, shares, u);
    RealError(Div((perLp - Div(last, s)) * shares, u), perLp, last, s, shares, u);
  }

  lemma RealScaledError(d: int, a: int, l: int, s: int, n: int, u: int)
    ensures Abs((a * s - l) * n - d * u * s) < (u + n) * s ==>
              WithinScaledError(d as real, a as real, l as real, s as real, n as real, u as real)
  {
    RealProduct(a, s);
    RealProduct(a * s - l, n);
    RealProduct(d, u);
    RealProduct(d * u, s);
    RealProduct(u + n, s);
  }

  lemma RealError(d: int, a: int, l: int, s: int, n: int, u: int)
    requires 0 < s && 0 < u
    requires Abs((a * s - l) * n - d * u * s) < (u + n) * s
    ensures WithinShareError(d as real, a as real, l as real, s as real, n as real, u as real)
  {
    RealScaledError(d, a, l, s, n, u);
    UnscaleError(d as real, a as real, l as real, s as real, n as real, u as real);
  }

  /** `d` is within `n / u + 1` of the exact rational `(a - l / s) * n / u`. */
  ghost predicate WithinShareError(d: real, a: real, l: real, s: real, n: real, u: real)
    requires s != 0.0 && u != 0.0
  {
    -(n / u + 1.0) < d - (a - l / s) * n / u < n / u + 1.0
  }

  ghost predicate WithinScaledError(d: real, a: real, l: real, s: real, n: real, u: real) {
    -((u + n) * s) < (a * s - l) * n - d * u * s < (u + n) * s
  }

  lemma UnscaleError(d: real, a: real, l: real, s: real, n: real, u: real)
    requires 0.0 < s && 0.0 < u
    requires WithinScaledError(d, a, l, s, n, u)
    ensures WithinShareError(d, a, l, s, n, u)
  {
    var exact := (a - l / s) * n / u;
    assert exact * (u * s) == (a * s - l) * n by {
      assert exact * u == (a - l / s) * n;
      assert (a - l / s) * s == a * s - l;
      assert exact * (u * s) == (a - l / s) * n * s;
    }
    var bound := n / u + 1.0;
    assert bound * (u * s) == (u + n) * s by {
      assert bound * u == n + u;
    }
    assert d * (u * s) == d * u * s;
    RealOrder(d - exact, bound, u * s);
    RealOrder(-(d - exact), bound, u * s);
  }

  lemma RealOrder(x: real, y: real, k: real)
    requires 0.0 < k && x * k < y * k
    ensures x < y
  {
  }
}
