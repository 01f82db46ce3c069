/** The open bids and asks LP shares stand for. */
module LpOpenOrders {
  import opened Bn
  import opened LpSettlement
  import opened LpSettlementTheorems

  /** The bids and asks `lpShares` shares would take on; `None` means the position's own shares. */
  function LpBidAsks(amm: Amm, p: Position, lpShares: Option<nat>): Result<(int, int)> {
    var shares := if lpShares.Some? then lpShares.value else p.lpShares;
    if shares == 0 then Success((0, 0))
    else if amm.sqrtK == 0 then Failure(DivisionByZero)
    else
      var (openBids, openAsks) := MarketOpenBidAsk(amm);
      Success((Div(openBids * shares, amm.sqrtK), Div(openAsks * shares, amm.sqrtK)))
  }

  function PerpBidAsks(amm: Amm, p: Position): Result<(int, int)> {
    var (lpOpenBids, lpOpenAsks) :- LpBidAsks(amm, p, None);
    Success((lpOpenBids + p.openBids, lpOpenAsks + p.openAsks))
  }

  /** Settling a position leaves it with exactly the open bids and asks reported without settling,
      shares or no shares. */
  lemma SettledOpenOrdersMatch(amm: Amm, price: int, p: Position, burn: bool, fold: bool)
    requires p.lpShares == 0 || CanSettle(amm, p)
    ensures Settle(amm, price, p, burn, fold).Success?
    ensures var s := Settle(amm, price, p, burn, fold).value.position;
            PerpBidAsks(amm, p) == Success((s.openBids, s.openAsks))
  {
    hide Div;
    if p.lpShares != 0 {
      var plan := PlanOf(amm, price, p, burn, fold);
      RebaseSucceedsIff(amm, p);
    }
  }

  function Sum(xs: seq<nat>): nat {
    if xs == [] then 0 else xs[0] + Sum(xs[1..])
  }

  /** The truncated shares of an open amount `whole`, summed over the holdings. */
  function SumShares(whole: int, sqrtK: nat, holdings: seq<nat>): int
    requires sqrtK != 0
  {
    if holdings == [] then 0 else Div(whole * holdings[0], sqrtK) + SumShares(whole, sqrtK, holdings[1..])
  }

  /** What the SDK reports for a number of shares is one such share of either side. */
  lemma BidAsksAreShares(amm: Amm, p: Position, shares: nat)
    requires amm.sqrtK != 0
    ensures var (openBids, openAsks) := MarketOpenBidAsk(amm);
            LpBidAsks(amm, p, Some(shares))
            == Success((SumShares(openBids, amm.sqrtK, [shares]), SumShares(openAsks, amm.sqrtK, [shares])))
    ensures LpBidAsks(amm, p, None) == LpBidAsks(amm, p, Some(p.lpShares))
  {
    var (openBids, openAsks) := MarketOpenBidAsk(amm);
    hide Div, MarketOpenBidAsk;
    assert [shares][1..] == [];
    DivMultiple(0, amm.sqrtK);
  }

  lemma {:induction false} SharesBelowWhole(whole: nat, sqrtK: nat, holdings: seq<nat>)
    requires sqrtK != 0
    ensures 0 <= SumShares(whole, sqrtK, holdings) <= Div(whole * Sum(holdings), sqrtK)
  {
    if holdings == [] {
      DivUnique(whole * 0, sqrtK, 0);
    } else {
      var n, rest := holdings[0], Sum(holdings[1..]);
      SharesBelowWhole(whole, sqrtK, holdings[1..]);
      MulMono(0, n, whole);
      MulMono(0, rest, whole);
      assert whole * (n + rest) == whole * n + whole * rest;
      DivSuperadditive(whole * n, whole * rest, sqrtK);
      DivBounds(whole * n, sqrtK);
    }
  }

  lemma {:induction false} NegatedShares(whole: int, sqrtK: nat, holdings: seq<nat>)
    requires sqrtK != 0
    ensures SumShares(-whole, sqrtK, holdings) == -SumShares(whole, sqrtK, holdings)
  {
    if holdings != [] {
      NegMul(whole, holdings[0]);
      DivNegDividend(whole * holdings[0], sqrtK);
      NegatedShares(whole, sqrtK, holdings[1..]);
    }
  }

  /** However the pool's shares are spread over LP holdings, the truncated parts never claim more
      bids, or more asks, than the AMM has open. */
  lemma OpenOrdersNeverOversubscribed(amm: Amm, holdings: seq<nat>)
    requires amm.sqrtK != 0
    requires Sum(holdings) <= amm.sqrtK
    ensures var (openBids, openAsks) := MarketOpenBidAsk(amm);
            && 0 <= SumShares(openBids, amm.sqrtK, holdings) <= openBids
            && openAsks <= SumShares(openAsks, amm.sqrtK, holdings) <= 0
  {
    var (openBids, openAsks) := MarketOpenBidAsk(amm);
    SharesBelowWhole(openBids, amm.sqrtK, holdings);
    DivFraction(openBids, Sum(holdings), amm.sqrtK);
    SharesBelowWhole(-openAsks, amm.sqrtK, holdings);
    DivFraction(-openAsks, Sum(holdings), amm.sqrtK);
    NegatedShares(-openAsks, amm.sqrtK, holdings);
  }
}
