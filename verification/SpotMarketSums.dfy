/** Valuing an account market by market, against valuing it at once. */
module SpotMarketSums {
  import opened Bn
  import opened SpotValue
  import opened SpotAccount

  predicate Distinct(ids: seq<nat>) {
    forall i, j :: 0 <= i < j < |ids| ==> ids[i] != ids[j]
  }

  /** The markets asked for are distinct, and cover the quote market and every position held. */
  predicate Covers(ids: seq<nat>, xs: seq<Appraisal>) {
    && Distinct(ids)
    && QUOTE_SPOT_MARKET_INDEX in ids
    && forall i :: 0 <= i < |xs| ==> !xs[i].available ==> xs[i].marketIndex in ids
  }

  /** The calls for each market, summed side by side. */
  function SumTotals(ids: seq<nat>, withOrders: bool, xs: seq<Appraisal>): (int, int) {
    if ids == [] then (0, 0)
    else
      var (assets, liabilities) := SumTotals(ids[1..], withOrders, xs);
      var (a, l) := TotalsOf(Some(ids[0]), withOrders, xs);
      (a + assets, l + liabilities)
  }

  /** The same over the first `n` positions, without the net quote that only the quote market's call splits. */
  function SumBases(ids: seq<nat>, withOrders: bool, xs: seq<Appraisal>, n: nat): (int, int)
    requires n <= |xs|
  {
    if ids == [] then (0, 0)
    else
      var (assets, liabilities) := SumBases(ids[1..], withOrders, xs, n);
      var t := Sum(Some(ids[0]), withOrders, xs, n);
      (t.assets + assets, t.liabilities + liabilities)
  }

  lemma {:induction false} TotalsAreBasesAndQuote(ids: seq<nat>, withOrders: bool, xs: seq<Appraisal>)
    requires Distinct(ids)
    ensures var (assets, liabilities) := SumBases(ids, withOrders, xs, |xs|);
            var net := if QUOTE_SPOT_MARKET_INDEX in ids
                       then Sum(Some(QUOTE_SPOT_MARKET_INDEX), withOrders, xs, |xs|).net else 0;
            SumTotals(ids, withOrders, xs) == (assets + Max(net, 0), liabilities + Max(-net, 0))
  {
    if ids != [] {
      assert ids == [ids[0]] + ids[1..];
      TotalsAreBasesAndQuote(ids[1..], withOrders, xs);
    }
  }

  // ----- one position over all the calls -----

  /** The margin every call that includes orders charges for this position's, whichever market it is for. */
  function RepeatedMargin(withOrders: bool, a: Appraisal): nat {
    if withOrders then OrderMargin(a) else 0
  }

  /** The margin the quote market's call charges even when orders are not to be included. */
  function StrayMargin(withOrders: bool, a: Appraisal): nat {
    if withOrders then 0 else OrderMargin(a)
  }

  /** The orders the quote market's call counts even then. */
  function StrayOrders(withOrders: bool, a: Appraisal): int {
    if withOrders || a.available || a.marketIndex == QUOTE_SPOT_MARKET_INDEX then 0 else a.ordersQuote
  }

  /** A position in one market's call, against the same position valued at once. */
  lemma EntryOfCall(id: nat, withOrders: bool, a: Appraisal)
    requires a.available ==> a.openOrders == 0
    ensures var c, whole := Entry(Some(id), withOrders, a), Entry(None, withOrders, a);
            var margin := RepeatedMargin(withOrders, a);
            && c.assets == (if a.marketIndex == id then whole.assets else 0)
            && c.liabilities == (if a.marketIndex == id then whole.liabilities - margin else 0) + margin
                                + (if id == QUOTE_SPOT_MARKET_INDEX then StrayMargin(withOrders, a) else 0)
            && (id == QUOTE_SPOT_MARKET_INDEX ==> c.net == whole.net + StrayOrders(withOrders, a))
  {
  }

  function SumStrayOrders(withOrders: bool, xs: seq<Appraisal>, n: nat): int
    requires n <= |xs|
  {
    if n == 0 then 0 else SumStrayOrders(withOrders, xs, n - 1) + StrayOrders(withOrders, xs[n - 1])
  }

  lemma {:induction false} QuoteCallNet(withOrders: bool, xs: seq<Appraisal>, n: nat)
    requires Consistent(xs) && n <= |xs|
    ensures Sum(Some(QUOTE_SPOT_MARKET_INDEX), withOrders, xs, n).net
            == Sum(None, withOrders, xs, n).net + SumStrayOrders(withOrders, xs, n)
  {
    if n != 0 {
      QuoteCallNet(withOrders, xs, n - 1);
      EntryOfCall(QUOTE_SPOT_MARKET_INDEX, withOrders, xs[n - 1]);
    }
  }

  /** `n` times a margin, by addition. */
  function Times(n: nat, margin: nat): nat {
    if n == 0 then 0 else Times(n - 1, margin) + margin
  }

  lemma {:induction false} TimesIsProduct(n: nat, margin: nat)
    ensures Times(n, margin) == n * margin
  {
    if n != 0 {
      TimesIsProduct(n - 1, margin);
    }
  }

  lemma {:induction false} TimesPlus(n: nat, margin: nat, more: nat)
    ensures Times(n, margin + more) == Times(n, margin) + Times(n, more)
    ensures Times(n, 0) == 0
  {
    if n != 0 {
      TimesPlus(n - 1, margin, more);
    }
  }

  /** One more position, over all the calls: its assets once, its liability once, its order margin in
      every call. */
  lemma {:induction false} BasesOfOneMore(ids: seq<nat>, withOrders: bool, xs: seq<Appraisal>, n: nat)
    requires Distinct(ids) && n < |xs|
    requires xs[n].available ==> xs[n].openOrders == 0
    ensures var (assets, liabilities) := SumBases(ids, withOrders, xs, n);
            var whole := Entry(None, withOrders, xs[n]);
            var margin := RepeatedMargin(withOrders, xs[n]);
            SumBases(ids, withOrders, xs, n + 1) ==
            (assets + (if xs[n].marketIndex in ids then whole.assets else 0),
             liabilities + (if xs[n].marketIndex in ids then whole.liabilities - margin else 0) + Times(|ids|, margin)
             + (if QUOTE_SPOT_MARKET_INDEX in ids then StrayMargin(withOrders, xs[n]) else 0))
  {
    hide Entry, RepeatedMargin, StrayMargin, OrderMargin;
    if ids != [] {
      assert ids == [ids[0]] + ids[1..];
      BasesOfOneMore(ids[1..], withOrders, xs, n);
      EntryOfCall(ids[0], withOrders, xs[n]);
    }
  }

  /** What the calls charge beyond the valuation at once: all order margin again in every further
      call, or once in the quote market's. */
  function ExtraMargin(calls: nat, withOrders: bool, margin: nat): int {
    if withOrders then Times(calls, margin) - margin else margin
  }

  lemma ExtraIsProduct(calls: nat, margin: nat)
    requires calls != 0
    ensures ExtraMargin(calls, true, margin) == (calls - 1) * margin
  {
    TimesIsProduct(calls - 1, margin);
  }

  lemma {:induction false} BasesOverCalls(ids: seq<nat>, withOrders: bool, xs: seq<Appraisal>, n: nat)
    requires Consistent(xs) && Covers(ids, xs) && n <= |xs|
    ensures var t := Sum(None, withOrders, xs, n);
            SumBases(ids, withOrders, xs, n)
            == (t.assets, t.liabilities + ExtraMargin(|ids|, withOrders, SumOrderMargin(xs, n)))
  {
    hide SumBases, Times, Entry, OrderMargin;
    if n == 0 {
      NoPositions(ids, withOrders, xs);
      TimesPlus(|ids|, 0, 0);
    } else {
      BasesOverCalls(ids, withOrders, xs, n - 1);
      AvailableAddsNothing(withOrders, xs[n - 1]);
      BasesOfOneMore(ids, withOrders, xs, n - 1);
      TimesPlus(|ids|, SumOrderMargin(xs, n - 1), OrderMargin(xs[n - 1]));
    }
  }

  lemma AvailableAddsNothing(withOrders: bool, a: Appraisal)
    ensures a.available ==> Entry(None, withOrders, a) == NOTHING
    ensures a.openOrders == 0 ==> OrderMargin(a) == 0
  {
  }

  lemma {:induction false} NoPositions(ids: seq<nat>, withOrders: bool, xs: seq<Appraisal>)
    ensures SumBases(ids, withOrders, xs, 0) == (0, 0)
  {
    if ids != [] {
      NoPositions(ids[1..], withOrders, xs);
    }
  }

  // ----- the calls together -----

  /** The calls together, in terms of the valuation at once. */
  lemma CallsTogether(ids: seq<nat>, withOrders: bool, xs: seq<Appraisal>)
    requires Consistent(xs) && Covers(ids, xs)
    ensures var t := Sum(None, withOrders, xs, |xs|);
            var net := t.net + SumStrayOrders(withOrders, xs, |xs|);
            SumTotals(ids, withOrders, xs) ==
            (t.assets + Max(net, 0),
             t.liabilities + ExtraMargin(|ids|, withOrders, SumOrderMargin(xs, |xs|)) + Max(-net, 0))
  {
    hide SumTotals, SumBases, Sum, SumOrderMargin, SumStrayOrders, ExtraMargin;
    TotalsAreBasesAndQuote(ids, withOrders, xs);
    BasesOverCalls(ids, withOrders, xs, |xs|);
    QuoteCallNet(withOrders, xs, |xs|);
  }

  /** With orders included, the market-by-market calls add up to the valuation at once except that
      every call charges the margin for all open orders: the sum overstates liabilities by that
      margin for each call but one, and assets not at all. */
  lemma CallsRepeatOrderMargin(ids: seq<nat>, xs: seq<Appraisal>)
    requires Consistent(xs) && Covers(ids, xs)
    ensures var (assets, liabilities) := TotalsOf(None, true, xs);
            SumTotals(ids, true, xs) == (assets, liabilities + (|ids| - 1) * SumOrderMargin(xs, |xs|))
  {
    hide SumTotals, Sum, SumOrderMargin, SumStrayOrders, ExtraMargin;
    CallsTogether(ids, true, xs);
    NoStrayOrders(xs, |xs|);
    ExtraIsProduct(|ids|, SumOrderMargin(xs, |xs|));
  }

  lemma {:induction false} NoStrayOrders(xs: seq<Appraisal>, n: nat)
    requires n <= |xs|
    ensures SumStrayOrders(true, xs, n) == 0
  {
    if n != 0 {
      NoStrayOrders(xs, n - 1);
    }
  }

  /** With orders left out, the quote market's call counts them all the same. The calls then add up to
      the valuation at once exactly when the orders are worth the margin they are charged and either
      both are nothing or the net quote stays a liability. */
  lemma CallsAddUpIff(ids: seq<nat>, xs: seq<Appraisal>)
    requires Consistent(xs) && Covers(ids, xs)
    ensures var orders, margin := SumStrayOrders(false, xs, |xs|), SumOrderMargin(xs, |xs|);
            var net := Sum(None, false, xs, |xs|).net;
            SumTotals(ids, false, xs) == TotalsOf(None, false, xs)
            <==> orders == margin && (margin == 0 || net + orders <= 0)
  {
    hide SumTotals, Sum, SumOrderMargin, SumStrayOrders;
    CallsTogether(ids, false, xs);
  }

  /** Nothing but one open order without a size, in another market than the quote's. */
  predicate OneOrder(a: Appraisal, id: nat) {
    && id != QUOTE_SPOT_MARKET_INDEX && a.marketIndex == id
    && !a.available && a.openOrders == 1
    && !a.isBorrow && a.balanceAssets == 0 && a.ordersQuote == 0 && a.worstTokens == 0
  }

  /** At once and without orders it is worth nothing, but the quote market's call charges its margin;
      with orders both calls do. */
  lemma CallsDoNotAddUp(ids: seq<nat>, xs: seq<Appraisal>, withOrders: bool)
    requires |ids| == 2 && |xs| == 1 && ids[0] == QUOTE_SPOT_MARKET_INDEX && OneOrder(xs[0], ids[1])
    ensures SumTotals(ids, withOrders, xs).1 == TotalsOf(None, withOrders, xs).1 + 10_000
  {
    EntriesOfOrder(xs[0], ids[1], withOrders);
    hide *;
    TotalsOfOne(None, withOrders, xs);
    TotalsOfOne(Some(ids[0]), withOrders, xs);
    TotalsOfOne(Some(ids[1]), withOrders, xs);
    TwoCalls(ids, withOrders, xs);
  }

  lemma EntriesOfOrder(a: Appraisal, id: nat, withOrders: bool)
    requires OneOrder(a, id)
    ensures Entry(None, withOrders, a) == Tally(0, 0, if withOrders then 10_000 else 0)
    ensures Entry(Some(QUOTE_SPOT_MARKET_INDEX), withOrders, a) == Tally(0, 0, 10_000)
    ensures Entry(Some(id), withOrders, a) == Tally(0, 0, if withOrders then 10_000 else 0)
  {
  }

  lemma TotalsOfOne(filter: Option<nat>, withOrders: bool, xs: seq<Appraisal>)
    requires |xs| == 1
    ensures TotalsOf(filter, withOrders, xs) == Split(Entry(filter, withOrders, xs[0]), filter)
    ensures Entry(filter, withOrders, xs[0]).net == 0 ==>
              TotalsOf(filter, withOrders, xs).1 == Entry(filter, withOrders, xs[0]).liabilities
  {
    hide Entry;
    assert Sum(filter, withOrders, xs, 0) == NOTHING;
  }

  lemma TwoCalls(ids: seq<nat>, withOrders: bool, xs: seq<Appraisal>)
    requires |ids| == 2
    ensures SumTotals(ids, withOrders, xs) ==
            (TotalsOf(Some(ids[0]), withOrders, xs).0 + TotalsOf(Some(ids[1]), withOrders, xs).0,
             TotalsOf(Some(ids[0]), withOrders, xs).1 + TotalsOf(Some(ids[1]), withOrders, xs).1)
  {
    hide TotalsOf;
    var rest := ids[1..];
    assert rest[1..] == [];
    assert SumTotals(rest, withOrders, xs) == TotalsOf(Some(ids[1]), withOrders, xs);
  }

  /** A position like that: no balance, and one open order without bids or asks. */
  lemma CallsDoNotAddUpForOrder(v: Valuation, h: Holding, ids: seq<nat>, withOrders: bool)
    requires |ids| == 2 && ids[0] == QUOTE_SPOT_MARKET_INDEX && ids[1] != QUOTE_SPOT_MARKET_INDEX
    requires h.position == SpotPosition(ids[1], 0, Deposit, 1, 0, 0)
    ensures SumTotals(ids, withOrders, [Appraise(v, h)]) != TotalsOf(None, withOrders, [Appraise(v, h)])
  {
    DivMultiple(0, Pow10(INTEREST_DECIMALS - h.market.decimals));
    NothingIsWorthNothing(v, h);
    CallsDoNotAddUp(ids, [Appraise(v, h)], withOrders);
  }

  lemma NothingIsWorthNothing(v: Valuation, h: Holding)
    ensures AssetValue(v, h, 0) == 0
  {
    hide StrictTokenValue, AssetWeight;
    NoTokenNoValue(h.market.decimals, PriceOf(v, h));
    if v.category != None {
      DivMultiple(0, SpotValue.SPOT_MARKET_WEIGHT_PRECISION);
    }
  }

  lemma NoTokenNoValue(decimals: Decimals, price: StrictOraclePrice)
    ensures StrictTokenValue(0, decimals, price) == 0
  {
  }

  predicate NoOpenOrders(xs: seq<Appraisal>) {
    forall i :: 0 <= i < |xs| ==> xs[i].openOrders == 0 && xs[i].ordersQuote == 0
  }

  lemma {:induction false} NothingOpen(xs: seq<Appraisal>, withOrders: bool, n: nat)
    requires NoOpenOrders(xs) && n <= |xs|
    ensures SumOrderMargin(xs, n) == 0 && SumStrayOrders(withOrders, xs, n) == 0
  {
    if n != 0 {
      NothingOpen(xs, withOrders, n - 1);
    }
  }

  /** An account without open orders is worth the same market by market as at once, on both sides. */
  lemma CallsAddUp(v: Valuation, ids: seq<nat>, holdings: seq<Holding>)
    requires Covers(ids, Appraisals(v, holdings))
    requires forall i :: 0 <= i < |holdings| ==>
      var p := holdings[i].position; p.openOrders == 0 && p.openBids == 0 && p.openAsks == 0
    ensures SumTotals(ids, v.includeOpenOrders, Appraisals(v, holdings))
            == TotalsOf(None, v.includeOpenOrders, Appraisals(v, holdings))
  {
    var xs := Appraisals(v, holdings);
    AppraisalsConsistent(v, holdings);
    NothingOpen(xs, v.includeOpenOrders, |xs|);
    if v.includeOpenOrders {
      CallsRepeatOrderMargin(ids, xs);
    } else {
      CallsAddUpIff(ids, xs);
    }
  }
}
