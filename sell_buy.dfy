/** The single forward scan that picks a buy day and a sell day from a series
    of day-over-day price deltas, with the unit-test vectors of the program
    and the inputs on which its answer is not the best trade. */
module SellBuy {
  import opened PriceSeries

  /** The scan as written: one pass that keeps the running price, the last
      lowest price seen so far (the buy day) and the best profit seen so far
      with the first day it was reached (the sell day). The buy day keeps
      following the running minimum after the sell day is fixed, so the pair
      is the best trade only when it comes out in order (BestTradeIffOrdered).
      The series must not be empty: day 0 is read before the loop. */
  method FindSellBuy(s: seq<int>) returns (buyIdx: nat, sellIdx: nat)
    requires |s| >= 1
    ensures buyIdx == LastMinIndex(s, |s| - 1)
    ensures sellIdx == FirstBestSell(s, |s| - 1)
    ensures buyIdx < |s|
    ensures |s| == 1 ==> buyIdx == 0 && sellIdx == 1
    ensures |s| >= 2 ==> 1 <= sellIdx < |s|
    ensures |s| >= 2 ==> (IsBestTrade(s, buyIdx, sellIdx) <==> buyIdx < sellIdx)
  {
    var currPrice := s[0];
    var buyPrice := s[0];
    buyIdx := 0;
    sellIdx := 1;
    var profit := 0;

    for idx := 0 to |s|
      // `seen` is the last day folded into the locals so far
      invariant var seen := if idx == 0 then 0 else idx - 1;
                && currPrice == Prefix(s, seen)
                && buyIdx == LastMinIndex(s, seen)
                && buyPrice == Prefix(s, buyIdx)
                && profit == BestProfit(s, seen)
                && sellIdx == FirstBestSell(s, seen)
    {
      if idx == 0 {
        continue;
      }
      assert currPrice == Prefix(s, idx - 1);

      currPrice := currPrice + s[idx];

      if currPrice > buyPrice {
        StepAboveLow(s, idx);
        var diff := currPrice - buyPrice;
        if diff > profit {
          profit := diff;
          sellIdx := idx;
        }
      } else {
        StepAtOrBelowLow(s, idx);
        buyIdx := idx;
        buyPrice := currPrice;
      }
    }

    if |s| >= 2 {
      BestTradeIffOrdered(s);
    }
  }

  /** The scan with the buy day of the best trade recorded at the moment the
      sell day is: for every series in which some trade earns money it
      returns a best trade, and (0, 1) otherwise. */
  method FindSellBuyCorrected(s: seq<int>) returns (buyIdx: nat, sellIdx: nat)
    requires |s| >= 1
    ensures sellIdx == FirstBestSell(s, |s| - 1)
    ensures BestProfit(s, |s| - 1) > 0 ==>
              && IsBestTrade(s, buyIdx, sellIdx)
              && Profit(s, buyIdx, sellIdx) == BestProfit(s, |s| - 1)
    ensures BestProfit(s, |s| - 1) == 0 ==> buyIdx == 0 && sellIdx == 1
  {
    var currPrice := s[0];
    var buyPrice := s[0];
    var lowIdx := 0;
    buyIdx := 0;
    sellIdx := 1;
    var profit := 0;

    for idx := 0 to |s|
      invariant var seen := if idx == 0 then 0 else idx - 1;
                && currPrice == Prefix(s, seen)
                && lowIdx == LastMinIndex(s, seen)
                && buyPrice == Prefix(s, lowIdx)
                && profit == BestProfit(s, seen)
                && sellIdx == FirstBestSell(s, seen)
                && (profit == 0 ==> buyIdx == 0)
                && (profit > 0 ==> buyIdx < sellIdx <= seen && Profit(s, buyIdx, sellIdx) == profit)
    {
      if idx == 0 {
        continue;
      }
      assert currPrice == Prefix(s, idx - 1);

      currPrice := currPrice + s[idx];

      if currPrice > buyPrice {
        StepAboveLow(s, idx);
        var diff := currPrice - buyPrice;
        if diff > profit {
          profit := diff;
          sellIdx := idx;
          buyIdx := lowIdx;
          assert Profit(s, buyIdx, sellIdx) == profit;
        }
      } else {
        StepAtOrBelowLow(s, idx);
        lowIdx := idx;
        buyPrice := currPrice;
      }
    }

    if profit == 0 {
      FirstBestSellIsEarliest(s, |s| - 1);
    } else {
      EarnsBestProfitIsBestTrade(s, buyIdx, sellIdx);
    }
  }

  /** The program's first unit test: deltas 3, 5, -7, 3, 3, -2 give the
      prices 3, 8, 1, 4, 7, 5 and the pair (2, 4), a best trade earning 6. */
  lemma TestVectorOne(s: seq<int>)
    requires s == [3, 5, -7, 3, 3, -2]
    ensures LastMinIndex(s, |s| - 1) == 2
    ensures FirstBestSell(s, |s| - 1) == 4
    ensures BestProfit(s, |s| - 1) == 6
    ensures IsBestTrade(s, 2, 4)
  {
    assert Prefix(s, 0) == 3;
    assert Prefix(s, 1) == 8;
    assert Prefix(s, 2) == 1;
    assert Prefix(s, 3) == 4;
    assert Prefix(s, 4) == 7;
    assert Prefix(s, 5) == 5;
    assert LastMinIndex(s, 0) == 0;
    assert SellGain(s, 1) == 5;
    assert LastMinIndex(s, 1) == 0;
    assert BestProfit(s, 1) == 5;
    assert FirstBestSell(s, 1) == 1;
    assert SellGain(s, 2) == -2;
    assert LastMinIndex(s, 2) == 2;
    assert BestProfit(s, 2) == 5;
    assert FirstBestSell(s, 2) == 1;
    assert SellGain(s, 3) == 3;
    assert LastMinIndex(s, 3) == 2;
    assert BestProfit(s, 3) == 5;
    assert FirstBestSell(s, 3) == 1;
    assert SellGain(s, 4) == 6;
    assert LastMinIndex(s, 4) == 2;
    assert BestProfit(s, 4) == 6;
    assert FirstBestSell(s, 4) == 4;
    assert SellGain(s, 5) == 4;
    assert LastMinIndex(s, 5) == 2;
    assert BestProfit(s, 5) == 6;
    assert FirstBestSell(s, 5) == 4;
    BestTradeIffOrdered(s);
  }

  /** The program's second unit test: prices 0, 1, 3, 2, 4, 5, 2, 4, 5, 3,
      8, 5, 7, 3, 8 and the pair (0, 10), a best trade earning 8. */
  lemma TestVectorTwo(s: seq<int>)
    requires s == [0, 1, 2, -1, 2, 1, -3, 2, 1, -2, 5, -3, 2, -4, 5]
    ensures LastMinIndex(s, |s| - 1) == 0
    ensures FirstBestSell(s, |s| - 1) == 10
    ensures BestProfit(s, |s| - 1) == 8
    ensures IsBestTrade(s, 0, 10)
  {
    assert Prefix(s, 0) == 0;
    assert Prefix(s, 1) == 1;
    assert Prefix(s, 2) == 3;
    assert Prefix(s, 3) == 2;
    assert Prefix(s, 4) == 4;
    assert Prefix(s, 5) == 5;
    assert Prefix(s, 6) == 2;
    assert Prefix(s, 7) == 4;
    assert Prefix(s, 8) == 5;
    assert Prefix(s, 9) == 3;
    assert Prefix(s, 10) == 8;
    assert Prefix(s, 11) == 5;
    assert Prefix(s, 12) == 7;
    assert Prefix(s, 13) == 3;
    assert Prefix(s, 14) == 8;
    assert LastMinIndex(s, 0) == 0;
    assert SellGain(s, 1) == 1;
    assert LastMinIndex(s, 1) == 0;
    assert BestProfit(s, 1) == 1;
    assert FirstBestSell(s, 1) == 1;
    assert SellGain(s, 2) == 3;
    assert LastMinIndex(s, 2) == 0;
    assert BestProfit(s, 2) == 3;
    assert FirstBestSell(s, 2) == 2;
    assert SellGain(s, 3) == 2;
    assert LastMinIndex(s, 3) == 0;
    assert BestProfit(s, 3) == 3;
    assert FirstBestSell(s, 3) == 2;
    assert SellGain(s, 4) == 4;
    assert LastMinIndex(s, 4) == 0;
    assert BestProfit(s, 4) == 4;
    assert FirstBestSell(s, 4) == 4;
    assert SellGain(s, 5) == 5;
    assert LastMinIndex(s, 5) == 0;
    assert BestProfit(s, 5) == 5;
    assert FirstBestSell(s, 5) == 5;
    assert SellGain(s, 6) == 2;
    assert LastMinIndex(s, 6) == 0;
    assert BestProfit(s, 6) == 5;
    assert FirstBestSell(s, 6) == 5;
    assert SellGain(s, 7) == 4;
    assert LastMinIndex(s, 7) == 0;
    assert BestProfit(s, 7) == 5;
    assert FirstBestSell(s, 7) == 5;
    assert SellGain(s, 8) == 5;
    assert LastMinIndex(s, 8) == 0;
    assert BestProfit(s, 8) == 5;
    assert FirstBestSell(s, 8) == 5;
    assert SellGain(s, 9) == 3;
    assert LastMinIndex(s, 9) == 0;
    assert BestProfit(s, 9) == 5;
    assert FirstBestSell(s, 9) == 5;
    assert SellGain(s, 10) == 8;
    assert LastMinIndex(s, 10) == 0;
    assert BestProfit(s, 10) == 8;
    assert FirstBestSell(s, 10) == 10;
    assert SellGain(s, 11) == 5;
    assert LastMinIndex(s, 11) == 0;
    assert BestProfit(s, 11) == 8;
    assert FirstBestSell(s, 11) == 10;
    assert SellGain(s, 12) == 7;
    assert LastMinIndex(s, 12) == 0;
    assert BestProfit(s, 12) == 8;
    assert FirstBestSell(s, 12) == 10;
    assert SellGain(s, 13) == 3;
    assert LastMinIndex(s, 13) == 0;
    assert BestProfit(s, 13) == 8;
    assert FirstBestSell(s, 13) == 10;
    assert SellGain(s, 14) == 8;
    assert LastMinIndex(s, 14) == 0;
    assert BestProfit(s, 14) == 8;
    assert FirstBestSell(s, 14) == 10;
    BestTradeIffOrdered(s);
  }

  /** Prices 1, 6, -4, -2: the scan answers (2, 1), a sell day before the
      buy day, although buying on day 0 and selling on day 1 earns 5. */
  lemma InvertedPairAfterRebound(s: seq<int>)
    requires s == [1, 5, -10, 2]
    ensures LastMinIndex(s, |s| - 1) == 2
    ensures FirstBestSell(s, |s| - 1) == 1
    ensures BestProfit(s, |s| - 1) == 5
    ensures !IsBestTrade(s, 2, 1) && IsBestTrade(s, 0, 1)
  {
    assert Prefix(s, 0) == 1;
    assert Prefix(s, 1) == 6;
    assert Prefix(s, 2) == -4;
    assert Prefix(s, 3) == -2;
    assert LastMinIndex(s, 0) == 0;
    assert SellGain(s, 1) == 5;
    assert LastMinIndex(s, 1) == 0;
    assert BestProfit(s, 1) == 5;
    assert FirstBestSell(s, 1) == 1;
    assert SellGain(s, 2) == -5;
    assert LastMinIndex(s, 2) == 2;
    assert BestProfit(s, 2) == 5;
    assert FirstBestSell(s, 2) == 1;
    assert SellGain(s, 3) == 2;
    assert LastMinIndex(s, 3) == 2;
    assert BestProfit(s, 3) == 5;
    assert FirstBestSell(s, 3) == 1;
    BestProfitIsOptimal(s, |s| - 1);
  }

  /** Prices 2, 3, 4, 5, 1: the scan answers (4, 3), not the best trade (0, 3). */
  lemma InvertedPairAfterLastDip(s: seq<int>)
    requires s == [2, 1, 1, 1, -4]
    ensures LastMinIndex(s, |s| - 1) == 4
    ensures FirstBestSell(s, |s| - 1) == 3
    ensures BestProfit(s, |s| - 1) == 3
    ensures !IsBestTrade(s, 4, 3) && IsBestTrade(s, 0, 3)
  {
    assert Prefix(s, 0) == 2;
    assert Prefix(s, 1) == 3;
    assert Prefix(s, 2) == 4;
    assert Prefix(s, 3) == 5;
    assert Prefix(s, 4) == 1;
    assert LastMinIndex(s, 0) == 0;
    assert SellGain(s, 1) == 1;
    assert LastMinIndex(s, 1) == 0;
    assert BestProfit(s, 1) == 1;
    assert FirstBestSell(s, 1) == 1;
    assert SellGain(s, 2) == 2;
    assert LastMinIndex(s, 2) == 0;
    assert BestProfit(s, 2) == 2;
    assert FirstBestSell(s, 2) == 2;
    assert SellGain(s, 3) == 3;
    assert LastMinIndex(s, 3) == 0;
    assert BestProfit(s, 3) == 3;
    assert FirstBestSell(s, 3) == 3;
    assert SellGain(s, 4) == -1;
    assert LastMinIndex(s, 4) == 4;
    assert BestProfit(s, 4) == 3;
    assert FirstBestSell(s, 4) == 3;
    BestProfitIsOptimal(s, |s| - 1);
  }

  /** Prices 0, -1, -3, -4, -6 never rise: the scan answers (4, 1). */
  lemma FallingPricesPair(s: seq<int>)
    requires s == [0, -1, -2, -1, -2]
    ensures LastMinIndex(s, |s| - 1) == 4
    ensures FirstBestSell(s, |s| - 1) == 1
    ensures BestProfit(s, |s| - 1) == 0
  {
    NoRiseNoProfit(s, |s| - 1);
  }
}
