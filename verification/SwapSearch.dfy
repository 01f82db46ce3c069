/** The bisection that looks for the largest swap an account can afford. */
module SwapSearch {
  import opened Bn
  import opened LpSettlement
  import opened LpSettlementTheorems

  const PRICE_PRECISION := 1_000_000

  function Pow2(n: nat): (r: nat)
    ensures 1 <= r
  {
    if n == 0 then 1 else 2 * Pow2(n - 1)
  }

  function CeilDiv(n: nat, d: nat): nat
    requires d != 0
  {
    (n + d - 1) / d
  }

  /** An account and a market to search over: the out amount `swap(x)` of an in amount `x`, and the
      free collateral `collateral(x, y)` left after giving `x` and receiving `y`. */
  datatype Swaps = Swaps(swap: int -> int, collateral: (int, int) -> int) {
    /** Free collateral after swapping `x`. */
    function After(x: int): int {
      collateral(x, swap(x))
    }
  }

  /** Where a search stopped: the amounts it returns, the bracket, the last free collateral it
      computed and how often its body ran. */
  datatype Search = Search(inSwap: int, outSwap: int, minSwap: int, maxSwap: int, after: int, bodies: nat) {
    predicate Converged(error: int) {
      0 <= after <= error
    }
  }

  /** The bodies that narrowed the bracket: all of them, but for one that found the tolerance. */
  function Narrowings(s: Search, error: int): nat {
    if s.Converged(error) && s.bodies > 0 then s.bodies - 1 else s.bodies
  }

  /** The search stays inside its bracket, and each end is the initial one or a tested amount on the
      right side of the tolerance. */
  predicate InBracket(s: Swaps, r: Search, error: int, initialMax: nat) {
    && 0 <= r.minSwap <= r.inSwap <= r.maxSwap <= initialMax
    && (r.minSwap == 0 || s.After(r.minSwap) > error)
    && (r.maxSwap == initialMax || s.After(r.maxSwap) < 0)
  }

  /** What the returned pair is: a swap within the tolerance, or the next midpoint paired with the
      out amount of the bracket end tested last. */
  predicate PairMeans(s: Swaps, r: Search, error: int) {
    if r.Converged(error) then
      r.outSwap == s.swap(r.inSwap) && r.after == s.After(r.inSwap)
    else
      var tested := if r.after > error then r.minSwap else r.maxSwap;
      && r.inSwap == (r.minSwap + r.maxSwap) / 2
      && r.outSwap == s.swap(tested)
      && r.after == s.After(tested)
  }

  /** The search starts with a sign change and free collateral falls by at most `error + 1` a unit. */
  ghost predicate Crosses(s: Swaps, error: int, initialMax: nat) {
    && s.After(0) > error
    && s.After(initialMax) < 0
    && forall x :: 0 <= x < initialMax ==> s.After(x) - s.After(x + 1) <= error + 1
  }

  /** A search before its first body. */
  function Start(freeCollateral: int, initialMax: nat): Search {
    Search(initialMax / 2, 0, 0, initialMax, freeCollateral, 0)
  }

  /** Try `r.inSwap` and narrow the bracket unless it is within the tolerance. */
  function Body(s: Swaps, r: Search, error: int): Search {
    var outSwap := s.swap(r.inSwap);
    var after := s.collateral(r.inSwap, outSwap);
    var minSwap := if after > error then r.inSwap else r.minSwap;
    var maxSwap := if after <= error && after < 0 then r.inSwap else r.maxSwap;
    var inSwap := if after > error || after < 0 then (minSwap + maxSwap) / 2 else r.inSwap;
    Search(inSwap, outSwap, minSwap, maxSwap, after, r.bodies + 1)
  }

  /** Where a search that has come to `r` stops: at the tolerance or past the iteration limit. */
  function Searched(s: Swaps, r: Search, error: int, iterationLimit: int): Search
    decreases Max(0, iterationLimit + 2 - r.bodies)
  {
    if r.Converged(error) then r
    else if r.bodies > iterationLimit then Body(s, r, error)
    else Searched(s, Body(s, r, error), error, iterationLimit)
  }

  /** The most bodies a search runs. */
  function MostBodies(iterationLimit: int): nat {
    Max(1, iterationLimit + 2)
  }

  /** Halve the bracket `[0, initialMax]` until free collateral after the swap lies in `[0, error]`
      or the iteration limit is passed. */
  method Bisect(s: Swaps, freeCollateral: int, error: int, initialMax: nat, iterationLimit: int) returns (r: Search)
    requires 0 <= error < freeCollateral
    ensures r == Searched(s, Start(freeCollateral, initialMax), error, iterationLimit)
    ensures InBracket(s, r, error, initialMax)
    ensures PairMeans(s, r, error)
    ensures 1 <= r.bodies <= MostBodies(iterationLimit)
    ensures !r.Converged(error) ==> r.bodies == MostBodies(iterationLimit)
    ensures NarrowedBy(r.maxSwap - r.minSwap, Narrowings(r, error), initialMax)
    ensures -1 <= iterationLimit && initialMax <= Pow2(iterationLimit + 1) ==> r.outSwap == s.swap(r.inSwap)
    ensures forall k: nat :: Crosses(s, error, initialMax) && initialMax <= Pow2(k) && k <= iterationLimit + 2 ==>
              r.Converged(error) && r.bodies <= k
  {
    ghost var start := Start(freeCollateral, initialMax);
    var minSwap, maxSwap: int := 0, initialMax;
    var inSwap := maxSwap / 2;
    var outSwap := 0;
    var i := 0;
    var freeCollateralAfter := freeCollateral;
    while freeCollateralAfter > error || freeCollateralAfter < 0
      invariant 0 <= i
      invariant Searched(s, start, error, iterationLimit)
             == Searched(s, Search(inSwap, outSwap, minSwap, maxSwap, freeCollateralAfter, i), error, iterationLimit)
      decreases iterationLimit + 2 - i, freeCollateralAfter > error || freeCollateralAfter < 0
    {
      ghost var before := Search(inSwap, outSwap, minSwap, maxSwap, freeCollateralAfter, i);
      outSwap := s.swap(inSwap);
      freeCollateralAfter := s.collateral(inSwap, outSwap);
      if freeCollateralAfter > error {
        minSwap := inSwap;
        inSwap := (minSwap + maxSwap) / 2;
      } else if freeCollateralAfter < 0 {
        maxSwap := inSwap;
        inSwap := (minSwap + maxSwap) / 2;
      }
      i := i + 1;
      assert Search(inSwap, outSwap, minSwap, maxSwap, freeCollateralAfter, i) == Body(s, before, error);
      if i - 1 > iterationLimit {
        break;
      }
    }
    r := Search(inSwap, outSwap, minSwap, maxSwap, freeCollateralAfter, i);
    SearchMeans(s, freeCollateral, error, initialMax, iterationLimit);
  }

  /** What every body of the search keeps. Once the bracket is closed the next midpoint is the amount
      just tried, so the pair is a swap. */
  predicate SearchState(s: Swaps, r: Search, error: int, initialMax: nat) {
    && InBracket(s, r, error, initialMax)
    && NarrowedBy(r.maxSwap - r.minSwap, Narrowings(r, error), initialMax)
    && (if r.bodies == 0 then r.after > error && r.inSwap == (r.minSwap + r.maxSwap) / 2 else PairMeans(s, r, error))
    && (r.bodies > 0 && initialMax <= Pow2(r.bodies - 1) ==> r.outSwap == s.swap(r.inSwap))
  }

  lemma BodyKeepsState(s: Swaps, before: Search, error: int, initialMax: nat)
    requires 0 <= error
    requires SearchState(s, before, error, initialMax) && !before.Converged(error)
    ensures SearchState(s, Body(s, before, error), error, initialMax)
  {
    hide NarrowedBy, Pow2;
    var after := Body(s, before, error);
    if !after.Converged(error) {
      HalvedWidth(before.maxSwap - before.minSwap, after.maxSwap - after.minSwap, before.bodies, initialMax);
      if initialMax <= Pow2(before.bodies) {
        ClosedBracket(before.maxSwap - before.minSwap, before.bodies, initialMax);
      }
    }
  }

  lemma ClosedBracket(width: int, n: nat, initialMax: nat)
    requires NarrowedBy(width, n, initialMax) && initialMax <= Pow2(n)
    ensures width <= 1
  {
    if width > 1 {
      MulMono(1, width - 1, Pow2(n));
    }
  }

  /** The state is kept to the end, which comes within the limit. */
  lemma {:induction false} SearchedKeepsState(s: Swaps, r: Search, error: int, initialMax: nat, iterationLimit: int)
    requires 0 <= error && SearchState(s, r, error, initialMax)
    requires !r.Converged(error) && r.bodies <= Max(0, iterationLimit + 1)
    ensures var found := Searched(s, r, error, iterationLimit);
            && SearchState(s, found, error, initialMax)
            && 1 <= found.bodies <= MostBodies(iterationLimit)
            && (!found.Converged(error) ==> found.bodies == MostBodies(iterationLimit))
    decreases Max(0, iterationLimit + 2 - r.bodies)
  {
    hide SearchState;
    BodyKeepsState(s, r, error, initialMax);
    var next := Body(s, r, error);
    if r.bodies <= iterationLimit && !next.Converged(error) {
      SearchedKeepsState(s, next, error, initialMax, iterationLimit);
    }
  }

  /** What a whole search comes to. */
  lemma SearchMeans(s: Swaps, freeCollateral: int, error: int, initialMax: nat, iterationLimit: int)
    requires 0 <= error < freeCollateral
    ensures var r := Searched(s, Start(freeCollateral, initialMax), error, iterationLimit);
            && InBracket(s, r, error, initialMax)
            && PairMeans(s, r, error)
            && 1 <= r.bodies <= MostBodies(iterationLimit)
            && (!r.Converged(error) ==> r.bodies == MostBodies(iterationLimit))
            && NarrowedBy(r.maxSwap - r.minSwap, Narrowings(r, error), initialMax)
            && (-1 <= iterationLimit && initialMax <= Pow2(iterationLimit + 1) ==> r.outSwap == s.swap(r.inSwap))
            && forall k: nat :: Crosses(s, error, initialMax) && initialMax <= Pow2(k) && k <= iterationLimit + 2 ==>
                 r.Converged(error) && r.bodies <= k
  {
    hide Searched, Crosses;
    var start := Start(freeCollateral, initialMax);
    var r := Searched(s, start, error, iterationLimit);
    assert SearchState(s, start, error, initialMax);
    SearchedKeepsState(s, start, error, initialMax, iterationLimit);
    ConvergesInTime(s, r, error, initialMax, iterationLimit);
  }

  /** A search that spends all its bodies on a steady fall has run out of bracket first. */
  lemma ConvergesInTime(s: Swaps, r: Search, error: int, initialMax: nat, iterationLimit: int)
    requires 0 <= error && InBracket(s, r, error, initialMax)
    requires 1 <= r.bodies && NarrowedBy(r.maxSwap - r.minSwap, Narrowings(r, error), initialMax)
    requires !r.Converged(error) ==> r.bodies == MostBodies(iterationLimit)
    ensures forall k: nat :: Crosses(s, error, initialMax) && initialMax <= Pow2(k) && k <= iterationLimit + 2 ==>
              r.Converged(error) && r.bodies <= k
  {
    forall k: nat | Crosses(s, error, initialMax) && initialMax <= Pow2(k) && k <= iterationLimit + 2
      ensures r.Converged(error) && r.bodies <= k
    {
      BracketStaysOpen(s, error, initialMax, r.minSwap, r.maxSwap);
      Pow2Order(r.maxSwap - r.minSwap, Narrowings(r, error), k, initialMax);
    }
  }

  /** A bracket of this width is what `n` halvings of the initial one, each rounded up, can leave. */
  predicate NarrowedBy(width: int, n: nat, initialMax: nat) {
    (width - 1) * Pow2(n) < initialMax
  }

  lemma HalvedWidth(width: int, width': int, n: nat, initialMax: nat)
    requires 2 * width' <= width + 1
    requires NarrowedBy(width, n, initialMax)
    ensures NarrowedBy(width', n + 1, initialMax)
  {
    MulMono(2 * (width' - 1), width - 1, Pow2(n));
    assert 2 * (width' - 1) * Pow2(n) == (width' - 1) * Pow2(n + 1);
  }

  lemma NarrowedByMeansCeil(width: int, n: nat, initialMax: nat)
    ensures NarrowedBy(width, n, initialMax) <==> width <= CeilDiv(initialMax, Pow2(n))
  {
    QuotRem(initialMax + Pow2(n) - 1, Pow2(n));
    QuotIsQuotient(initialMax + Pow2(n) - 1, Pow2(n));
    CeilIsLeast(width, CeilDiv(initialMax, Pow2(n)), Pow2(n), initialMax);
  }

  lemma CeilIsLeast(width: int, c: int, p: nat, n: nat)
    requires 0 <= n + p - 1 - c * p < p
    ensures (width - 1) * p < n <==> width <= c
  {
    assert (width - 1) * p == width * p - p;
    assert (c + 1) * p == c * p + p;
    if width <= c {
      MulMono(width, c, p);
    } else {
      MulMono(c + 1, width, p);
    }
  }

  /** With a steady fall between the two sides of the tolerance, they are at least two units apart. */
  lemma BracketStaysOpen(s: Swaps, error: int, initialMax: nat, minSwap: int, maxSwap: int)
    requires 0 <= error && Crosses(s, error, initialMax)
    requires 0 <= minSwap <= maxSwap <= initialMax
    requires minSwap == 0 || s.After(minSwap) > error
    requires maxSwap == initialMax || s.After(maxSwap) < 0
    ensures maxSwap - minSwap >= 2
  {
    if minSwap < initialMax {
      assert s.After(minSwap) - s.After(minSwap + 1) <= error + 1;
    }
  }

  lemma {:induction false} Pow2Mono(m: nat, n: nat)
    requires m <= n
    ensures Pow2(m) <= Pow2(n)
    decreases n
  {
    if m < n {
      Pow2Mono(m, n - 1);
    }
  }

  lemma Pow2Order(width: int, n: nat, k: nat, initialMax: nat)
    requires width >= 2
    requires NarrowedBy(width, n, initialMax) && initialMax <= Pow2(k)
    ensures n < k
  {
    MulMono(1, width - 1, Pow2(n));
    if k <= n {
      Pow2Mono(k, n);
    }
  }

  /** A fall of `error + 2` is already too steep: it can step over the tolerance altogether, and then
      no search converges. */
  lemma SteeperFallStepsOver(error: nat, initialMax: nat)
    requires 0 < initialMax
    ensures var s := Swaps(x => 0, (x, y) => if x < 1 then error + 1 else -1);
            && s.After(0) > error && s.After(initialMax) < 0
            && (forall x :: 0 <= x < initialMax ==> s.After(x) - s.After(x + 1) <= error + 2)
            && (forall x :: !(0 <= s.After(x) <= error))
  {
  }

  // ----- too few iterations -----

  /** The lower end after `n` bodies that all narrow the bracket from below. */
  function RaisedMin(initialMax: nat, n: nat): nat {
    if n == 0 then 0 else (RaisedMin(initialMax, n - 1) + initialMax) / 2
  }

  lemma {:induction false} RaisedWidth(initialMax: nat, n: nat)
    ensures RaisedMin(initialMax, n) <= initialMax
    ensures initialMax <= (initialMax - RaisedMin(initialMax, n)) * Pow2(n)
  {
    if n != 0 {
      RaisedWidth(initialMax, n - 1);
      var width := initialMax - RaisedMin(initialMax, n - 1);
      var width' := initialMax - RaisedMin(initialMax, n);
      MulMono(width, 2 * width', Pow2(n - 1));
      assert 2 * width' * Pow2(n - 1) == width' * Pow2(n);
    }
  }

  /** As long as the first bracket is wider than `2^n`, the lower end has risen with every body. */
  lemma {:induction false} RaisedMinRises(initialMax: nat, m: nat, n: nat)
    requires m <= n && Pow2(n) < initialMax
    ensures RaisedMin(initialMax, m) <= RaisedMin(initialMax, n) < RaisedMin(initialMax, n + 1)
    decreases n - m
  {
    RaisedWidth(initialMax, n);
    var width := initialMax - RaisedMin(initialMax, n);
    if width <= 1 {
      MulMono(width, 1, Pow2(n));
    }
    if m < n {
      Pow2Mono(m, n);
      RaisedMinRises(initialMax, m, m);
      RaisedMinRises(initialMax, m + 1, n);
    }
  }

  /** Free collateral to spare below `edge`, none from there on. */
  function Cliff(edge: int, error: int): Swaps {
    Swaps(x => x, (x, y) => if x < edge then error + 1 else -1)
  }

  /** The search after `n` bodies short of the edge. */
  function Climbing(initialMax: nat, error: int, n: nat): Search {
    Search(RaisedMin(initialMax, n + 1), RaisedMin(initialMax, n), RaisedMin(initialMax, n), initialMax, error + 1, n)
  }

  lemma BodyClimbs(initialMax: nat, error: nat, edge: int, n: nat)
    requires RaisedMin(initialMax, n) <= RaisedMin(initialMax, n + 1) <= initialMax
    ensures var next := Body(Cliff(edge, error), Climbing(initialMax, error, n), error);
            if RaisedMin(initialMax, n + 1) < edge then next == Climbing(initialMax, error, n + 1)
            else
              && next.outSwap == RaisedMin(initialMax, n + 1)
              && (RaisedMin(initialMax, n) < RaisedMin(initialMax, n + 1) ==> next.inSwap < next.outSwap)
  {
    RaisedStep(initialMax, n + 1);
    hide RaisedMin;
  }

  /** A search that only ever climbs, until its last body meets the edge. */
  lemma {:induction false} ClimbToEdge(initialMax: nat, error: nat, iterationLimit: int, n: nat)
    requires n <= iterationLimit + 1 && Pow2(iterationLimit + 1) < initialMax
    ensures var s := Cliff(RaisedMin(initialMax, iterationLimit + 2), error);
            var r := Searched(s, Climbing(initialMax, error, n), error, iterationLimit);
            r.inSwap < r.outSwap == RaisedMin(initialMax, iterationLimit + 2)
    decreases iterationLimit + 1 - n
  {
    hide RaisedMin, Body, Cliff, Pow2;
    RaisedMinRises(initialMax, n, iterationLimit + 1);
    RaisedWidth(initialMax, n + 1);
    RaisedBelow(initialMax, n, iterationLimit + 1);
    BodyClimbs(initialMax, error, RaisedMin(initialMax, iterationLimit + 2), n);
    if n <= iterationLimit {
      RaisedMinRises(initialMax, n + 1, iterationLimit + 1);
      ClimbToEdge(initialMax, error, iterationLimit, n + 1);
    }
  }

  lemma RaisedBelow(initialMax: nat, m: nat, n: nat)
    requires m <= n && Pow2(n) < initialMax
    ensures RaisedMin(initialMax, m) < RaisedMin(initialMax, m + 1)
  {
    Pow2Mono(m, n);
    RaisedMinRises(initialMax, m, m);
  }

  lemma RaisedStep(initialMax: nat, n: nat)
    ensures RaisedMin(initialMax, n + 1) == (RaisedMin(initialMax, n) + initialMax) / 2
  {
  }

  /** The pair a search ends with is a swap, whatever the account, exactly when its limit lets it close
      the first bracket. */
  lemma PairIsSwapIff(freeCollateral: int, error: nat, initialMax: nat, iterationLimit: int)
    requires error < freeCollateral && -1 <= iterationLimit
    ensures initialMax <= Pow2(iterationLimit + 1) <==>
            forall s: Swaps :: EndsInSwap(s, Searched(s, Start(freeCollateral, initialMax), error, iterationLimit))
  {
    if initialMax <= Pow2(iterationLimit + 1) {
      forall s: Swaps
        ensures EndsInSwap(s, Searched(s, Start(freeCollateral, initialMax), error, iterationLimit))
      {
        SearchMeans(s, freeCollateral, error, initialMax, iterationLimit);
      }
    } else {
      var s := Cliff(RaisedMin(initialMax, iterationLimit + 2), error);
      ClimbToEdge(initialMax, error, iterationLimit, 0);
      assert RaisedMin(initialMax, 1) == initialMax / 2;
      assert Body(s, Start(freeCollateral, initialMax), error) == Body(s, Climbing(initialMax, error, 0), error);
      assert !EndsInSwap(s, Searched(s, Start(freeCollateral, initialMax), error, iterationLimit));
    }
  }

  predicate EndsInSwap(s: Swaps, r: Search) {
    r.outSwap == s.swap(r.inSwap)
  }

  /** With a limit of zero a search up to 8 that could still narrow pairs 5 with the out amount of 6. */
  lemma ShortSearchMispairs()
    ensures var s := Cliff(6, 1);
            Searched(s, Start(10_000, 8), 1, 0) == Search(5, 6, 4, 6, -1, 2) && s.swap(5) == 5
  {
  }

  // ----- the largest swap -----

  /** `bracket` reaches ten times the position, and at a positive price past a hundred times the free
      collateral's worth, in tokens of `inPrecision`. */
  predicate Reaches(bracket: nat, freeCollateral: nat, inPrecision: nat, inOraclePrice: int, inTokenAmount: int) {
    && bracket >= 10 * Abs(inTokenAmount)
    && (inOraclePrice > 0 ==> (bracket + 1) * inOraclePrice > 100 * freeCollateral * inPrecision)
  }

  /** `bracket` is the least that does. */
  ghost predicate LeastBracket(bracket: nat, freeCollateral: nat, inPrecision: nat, inOraclePrice: int,
                               inTokenAmount: int)
  {
    && Reaches(bracket, freeCollateral, inPrecision, inOraclePrice, inTokenAmount)
    && forall b: nat :: Reaches(b, freeCollateral, inPrecision, inOraclePrice, inTokenAmount) ==> bracket <= b
  }

  lemma InitialMaxIsLeast(freeCollateral: nat, inPrecision: nat, inOraclePrice: int, inTokenAmount: int)
    requires inOraclePrice != 0
    ensures LeastBracket(InitialMaxSwap(freeCollateral, inPrecision, inOraclePrice, inTokenAmount),
                         freeCollateral, inPrecision, inOraclePrice, inTokenAmount)
  {
    var worth := freeCollateral * inPrecision * 100;
    assert worth == 100 * freeCollateral * inPrecision;
    MulMono(0, freeCollateral, inPrecision);
    hide Quot, Rem;
    if inOraclePrice < 0 {
      DivBounds(worth, -inOraclePrice);
      DivNegDivisor(worth, -inOraclePrice);
      hide Div;
    } else {
      DivBounds(worth, inOraclePrice);
      hide Div;
      var most := Div(worth, inOraclePrice);
      assert (most + 1) * inOraclePrice == most * inOraclePrice + inOraclePrice;
      var bracket := InitialMaxSwap(freeCollateral, inPrecision, inOraclePrice, inTokenAmount);
      MulMono(most + 1, bracket + 1, inOraclePrice);
      forall b: nat | Reaches(b, freeCollateral, inPrecision, inOraclePrice, inTokenAmount)
        ensures bracket <= b
      {
        if b < most {
          MulMono(b + 1, most, inOraclePrice);
        }
      }
    }
  }

  /** The swap at oracle prices gives the most out tokens whose value does not exceed that of the in
      tokens: its two truncations come to one. */
  lemma OracleSwapKeepsValue(inPrecision: nat, outPrecision: nat, inOraclePrice: nat, outOraclePrice: nat, x: nat)
    requires 0 < inPrecision && 0 < outOraclePrice
    ensures var y := OracleSwap(inPrecision, outPrecision, inOraclePrice, outOraclePrice)(x);
            && 0 <= y
            && y * (outOraclePrice * inPrecision) <= x * outPrecision * inOraclePrice
                                                  < (y + 1) * (outOraclePrice * inPrecision)
  {
    var worth := x * outPrecision * inOraclePrice;
    MulMono(0, x, outPrecision);
    MulMono(0, inOraclePrice, x * outPrecision);
    DivBounds(worth, outOraclePrice);
    DivBounds(Div(worth, outOraclePrice), inPrecision);
    hide Div;
    QuotientOfQuotient(worth, outOraclePrice, inPrecision, Div(worth, outOraclePrice),
                       Div(Div(worth, outOraclePrice), inPrecision));
  }

  lemma QuotientOfQuotient(n: nat, d: nat, e: nat, first: int, y: int)
    requires 0 < d && 0 < e
    requires 0 <= n - first * d < d && 0 <= first - y * e < e
    ensures y * (d * e) <= n < (y + 1) * (d * e)
  {
    MulMono(y * e, first, d);
    MulMono(first + 1, (y + 1) * e, d);
    assert (y + 1) * e == y * e + e;
    assert (first + 1) * d == first * d + d;
    assert y * e * d == y * (d * e) && (y + 1) * e * d == (y + 1) * (d * e);
  }

  /** The swap at oracle prices that is used when the caller gives none. */
  function OracleSwap(inPrecision: nat, outPrecision: nat, inOraclePrice: int, outOraclePrice: int): int -> int
    requires inPrecision != 0 && outOraclePrice != 0
  {
    x => Div(Div(x * outPrecision * inOraclePrice, outOraclePrice), inPrecision)
  }

  /** An account, its in and out tokens and markets, and what a swap leaves of its free collateral. */
  datatype SwapQuery = SwapQuery(
    freeCollateral: nat,
    inDecimals: nat,
    outDecimals: nat,
    inOraclePrice: int,
    outOraclePrice: int,
    inTokenAmount: int,
    outTokenAmount: int,
    inAssetWeight: int,
    outAssetWeight: int,
    calculateSwap: Option<int -> int>,
    collateral: (int, int) -> int
  )

  predicate LittleCollateral(q: SwapQuery) {
    q.freeCollateral < PRICE_PRECISION / 100
  }

  /** A deposit that pays off a borrow or becomes an asset of no less weight. */
  predicate OutIsSafer(q: SwapQuery) {
    q.inTokenAmount > 0 && (q.outTokenAmount < 0 || q.inAssetWeight <= q.outAssetWeight)
  }

  function SwapError(q: SwapQuery): Option<Error> {
    if q.inDecimals > 15 || q.outDecimals > 15 then Some(UnsafeNumber)
    else if !LittleCollateral(q) && q.inOraclePrice == 0 then Some(DivisionByZero)
    else if (!LittleCollateral(q) || OutIsSafer(q)) && q.calculateSwap.None? && q.outOraclePrice == 0
    then Some(DivisionByZero)
    else None
  }

  /** The swap searched over; never called when its oracle price is zero. */
  function SwapOf(q: SwapQuery): int -> int {
    if q.calculateSwap.Some? then q.calculateSwap.value
    else if q.outOraclePrice == 0 then x => 0
    else OracleSwap(Pow10(q.inDecimals), Pow10(q.outDecimals), q.inOraclePrice, q.outOraclePrice)
  }

  /** The same of the swap a query without one of its own is searched over. */
  lemma DefaultSwapKeepsValue(q: SwapQuery, x: nat)
    requires q.calculateSwap == None && 0 <= q.inOraclePrice && 0 < q.outOraclePrice
    ensures var y := SwapOf(q)(x);
            var outUnit := q.outOraclePrice * Pow10(q.inDecimals);
            0 <= y && y * outUnit <= x * Pow10(q.outDecimals) * q.inOraclePrice < (y + 1) * outUnit
  {
    hide Div, Pow10;
    OracleSwapKeepsValue(Pow10(q.inDecimals), Pow10(q.outDecimals), q.inOraclePrice, q.outOraclePrice, x);
  }

  /** The largest swap: nothing or all of a deposit for an account with less than a cent free, and the
      bisection's answer otherwise. */
  method GetMaxSwapAmount(q: SwapQuery, iterationLimit: int)
    returns (error: Option<Error>, inSwap: int, outSwap: int, search: Option<Search>)
    ensures error == SwapError(q)
    ensures error == None && LittleCollateral(q) ==>
              && search == None
              && (inSwap, outSwap) ==
                 if OutIsSafer(q) then (q.inTokenAmount, SwapOf(q)(q.inTokenAmount)) else (0, 0)
    ensures error == None && !LittleCollateral(q) ==>
              && q.inOraclePrice != 0
              && search.Some?
              && inSwap == search.value.inSwap && outSwap == search.value.outSwap
              && var s := Swaps(SwapOf(q), q.collateral);
                 var tolerance := q.freeCollateral / 10000;
                 var initialMax :=
                   InitialMaxSwap(q.freeCollateral, Pow10(q.inDecimals), q.inOraclePrice, q.inTokenAmount);
                 && LeastBracket(initialMax, q.freeCollateral, Pow10(q.inDecimals), q.inOraclePrice, q.inTokenAmount)
                 && search.value == Searched(s, Start(q.freeCollateral, initialMax), tolerance, iterationLimit)
                 && InBracket(s, search.value, tolerance, initialMax)
                 && PairMeans(s, search.value, tolerance)
                 && 1 <= search.value.bodies <= MostBodies(iterationLimit)
                 && NarrowedBy(search.value.maxSwap - search.value.minSwap,
                               Narrowings(search.value, tolerance), initialMax)
                 && (-1 <= iterationLimit && initialMax <= Pow2(iterationLimit + 1) ==> outSwap == s.swap(inSwap))
                 && (forall k: nat ::
                       Crosses(s, tolerance, initialMax) && initialMax <= Pow2(k) && k <= iterationLimit + 2 ==>
                         search.value.Converged(tolerance) && search.value.bodies <= k)
  {
    hide Searched, InBracket, PairMeans, NarrowedBy, Crosses, Pow2, LeastBracket, InitialMaxSwap, SwapOf, Div, Pow10;
    error, inSwap, outSwap, search := None, 0, 0, None;
    PowerOfTenSucceedsIff(q.inDecimals);
    PowerOfTenSucceedsIff(q.outDecimals);
    var inPrecision := PowerOfTen(q.inDecimals);
    var outPrecision := PowerOfTen(q.outDecimals);
    if inPrecision.Failure? || outPrecision.Failure? {
      return Some(UnsafeNumber), 0, 0, None;
    }
    var priced := q.calculateSwap.Some? || q.outOraclePrice != 0;
    var outSaferThanIn := (q.inTokenAmount > 0 && q.outTokenAmount < 0) || q.inAssetWeight <= q.outAssetWeight;
    if q.freeCollateral < PRICE_PRECISION / 100 {
      if outSaferThanIn && q.inTokenAmount > 0 {
        if !priced {
          return Some(DivisionByZero), 0, 0, None;
        }
        inSwap := q.inTokenAmount;
        outSwap := SwapOf(q)(inSwap);
      }
    } else {
      if q.inOraclePrice == 0 || !priced {
        return Some(DivisionByZero), 0, 0, None;
      }
      var maxSwap := InitialMaxSwap(q.freeCollateral, inPrecision.value, q.inOraclePrice, q.inTokenAmount);
      InitialMaxIsLeast(q.freeCollateral, inPrecision.value, q.inOraclePrice, q.inTokenAmount);
      var s := Swaps(SwapOf(q), q.collateral);
      var found := Bisect(s, q.freeCollateral, q.freeCollateral / 10000, maxSwap, iterationLimit);
      inSwap, outSwap, search := found.inSwap, found.outSwap, Some(found);
    }
  }

  /** A hundred times the free collateral's worth, or ten times the position if that is more. */
  function InitialMaxSwap(freeCollateral: nat, inPrecision: nat, inOraclePrice: int, inTokenAmount: int): nat
    requires inOraclePrice != 0
  {
    Max(Div(freeCollateral * inPrecision * 100, inOraclePrice), Abs(inTokenAmount) * 10)
  }
}
