/** Absolute prices over a series of day-over-day price deltas, and the
    best single buy-then-sell trade over such a series. Every function here
    speaks about the days 0..n of the series, so that a forward scan can be
    described by what it has seen so far; the lemmas after each function say
    what its value means. */
module PriceSeries {

  /** The absolute price on day i: the sum of the deltas of days 0 through i
      (the delta of day 0 is the starting price). */
  function Prefix(s: seq<int>, i: nat): int
    requires i < |s|
  {
    if i == 0 then s[0] else Prefix(s, i - 1) + s[i]
  }

  /** The sum of a sequence of deltas, taken from the front. */
  function Sum(s: seq<int>): int
  {
    if s == [] then 0 else s[0] + Sum(s[1..])
  }

  lemma {:induction false} SumSnoc(t: seq<int>, x: int)
    ensures Sum(t + [x]) == Sum(t) + x
  {
    if t != [] {
      assert (t + [x])[1..] == t[1..] + [x];
      SumSnoc(t[1..], x);
    }
  }

  /** The running price is the total of all deltas up to and including day i. */
  lemma {:induction false} PrefixIsSumOfDeltas(s: seq<int>, i: nat)
    requires i < |s|
    ensures Prefix(s, i) == Sum(s[..i + 1])
  {
    if i == 0 {
      assert s[..1] == [s[0]];
      assert Sum(s[..1]) == s[0] + Sum([]);
    } else {
      PrefixIsSumOfDeltas(s, i - 1);
      assert s[..i + 1] == s[..i] + [s[i]];
      SumSnoc(s[..i], s[i]);
    }
  }

  /** What buying on day i and selling on day j earns. */
  function Profit(s: seq<int>, i: nat, j: nat): int
    requires i < |s| && j < |s|
  {
    Prefix(s, j) - Prefix(s, i)
  }

  /** The last day among 0..n on which the price is at its lowest over 0..n. */
  function LastMinIndex(s: seq<int>, n: nat): (r: nat)
    requires n < |s|
    ensures r <= n
  {
    if n == 0 then 0
    else
      var p := LastMinIndex(s, n - 1);
      if Prefix(s, n) <= Prefix(s, p) then n else p
  }

  lemma {:induction false} LastMinIndexIsLastMinimum(s: seq<int>, n: nat)
    requires n < |s|
    ensures forall k | 0 <= k <= n :: Prefix(s, LastMinIndex(s, n)) <= Prefix(s, k)
    ensures forall k | LastMinIndex(s, n) < k <= n :: Prefix(s, LastMinIndex(s, n)) < Prefix(s, k)
  {
    if n > 0 {
      LastMinIndexIsLastMinimum(s, n - 1);
    }
  }

  /** The most that a trade selling on day j can earn: the price of day j
      minus the lowest price of an earlier day. */
  function SellGain(s: seq<int>, j: nat): int
    requires 1 <= j < |s|
  {
    Profit(s, LastMinIndex(s, j - 1), j)
  }

  lemma SellGainIsBestSaleOn(s: seq<int>, j: nat)
    requires 1 <= j < |s|
    ensures forall i | 0 <= i < j :: Profit(s, i, j) <= SellGain(s, j)
    ensures exists i | 0 <= i < j :: Profit(s, i, j) == SellGain(s, j)
  {
    LastMinIndexIsLastMinimum(s, j - 1);
    assert Profit(s, LastMinIndex(s, j - 1), j) == SellGain(s, j);
  }

  /** The best profit of one trade that buys on a day and sells on a later
      day, both among 0..n, where not trading earns 0. */
  function BestProfit(s: seq<int>, n: nat): (p: int)
    requires n < |s|
    ensures p >= 0
  {
    if n == 0 then 0
    else
      var q := BestProfit(s, n - 1);
      var g := SellGain(s, n);
      if g > q then g else q
  }

  /** BestProfit bounds every buy-before-sell trade over 0..n, and some trade
      earns it when it is positive. */
  lemma {:induction false} BestProfitIsOptimal(s: seq<int>, n: nat)
    requires n < |s|
    ensures forall i, j | 0 <= i < j <= n :: Profit(s, i, j) <= BestProfit(s, n)
    ensures BestProfit(s, n) > 0 ==> exists i, j | 0 <= i < j <= n :: Profit(s, i, j) == BestProfit(s, n)
  {
    if n > 0 {
      BestProfitIsOptimal(s, n - 1);
      SellGainIsBestSaleOn(s, n);
      if SellGain(s, n) > BestProfit(s, n - 1) {
        var i :| 0 <= i < n && Profit(s, i, n) == SellGain(s, n);
        assert Profit(s, i, n) == BestProfit(s, n);
      }
    }
  }

  /** BestProfit never decreases as more days are seen. */
  lemma {:induction false} BestProfitMonotone(s: seq<int>, m: nat, n: nat)
    requires m <= n < |s|
    ensures BestProfit(s, m) <= BestProfit(s, n)
  {
    if m < n {
      BestProfitMonotone(s, m, n - 1);
    }
  }

  /** The earliest day among 1..n on which the best profit over 0..n can be
      realised by selling; 1 when no trade over 0..n is profitable. */
  function FirstBestSell(s: seq<int>, n: nat): (r: nat)
    requires n < |s|
    ensures 1 <= r
    ensures n >= 1 ==> r <= n
  {
    if n == 0 then 1
    else if SellGain(s, n) > BestProfit(s, n - 1) then n
    else FirstBestSell(s, n - 1)
  }

  lemma {:induction false} FirstBestSellIsEarliest(s: seq<int>, n: nat)
    requires n < |s|
    ensures BestProfit(s, n) == 0 ==> FirstBestSell(s, n) == 1
    ensures BestProfit(s, n) > 0 ==>
              var r := FirstBestSell(s, n);
              && r <= n
              && SellGain(s, r) == BestProfit(s, n)
              && forall i, j | 0 <= i < j < r :: Profit(s, i, j) < BestProfit(s, n)
  {
    if n > 0 {
      FirstBestSellIsEarliest(s, n - 1);
      if SellGain(s, n) > BestProfit(s, n - 1) {
        BestProfitIsOptimal(s, n - 1);
      }
    }
  }

  /** (b, sl) is a buy day before a sell day that earns the most of any
      buy-before-sell pair in the series. */
  ghost predicate IsBestTrade(s: seq<int>, b: nat, sl: nat)
  {
    && b < sl < |s|
    && forall i, j | 0 <= i < j < |s| :: Profit(s, i, j) <= Profit(s, b, sl)
  }

  /** Pairing the last lowest day with the earliest best sell day yields the
      best trade exactly when the buy day comes first; the trade then earns
      the best profit, which is strictly positive. */
  lemma BestTradeIffOrdered(s: seq<int>)
    requires |s| >= 2
    ensures var b, sl := LastMinIndex(s, |s| - 1), FirstBestSell(s, |s| - 1);
            IsBestTrade(s, b, sl) <==> b < sl
    ensures var b, sl := LastMinIndex(s, |s| - 1), FirstBestSell(s, |s| - 1);
            b < sl ==> Profit(s, b, sl) == BestProfit(s, |s| - 1) > 0
  {
    var n := |s| - 1;
    var b, sl := LastMinIndex(s, n), FirstBestSell(s, n);
    if b < sl {
      var p := BestProfit(s, n);
      LastMinIndexIsLastMinimum(s, n);
      BestProfitIsOptimal(s, n);
      FirstBestSellIsEarliest(s, n);
      if sl == 1 {
        // b == 0 is the last lowest day, so day 1 is dearer than day 0
        assert Prefix(s, 0) < Prefix(s, 1);
        assert Profit(s, 0, 1) > 0;
      }
      assert p > 0;
      SellGainIsBestSaleOn(s, sl);
      var i :| 0 <= i < sl && Profit(s, i, sl) == SellGain(s, sl);
      assert Prefix(s, b) <= Prefix(s, i);
      assert Profit(s, b, sl) == p;
    }
  }

  /** Any buy-before-sell pair that earns the best profit is a best trade. */
  lemma EarnsBestProfitIsBestTrade(s: seq<int>, b: nat, sl: nat)
    requires b < sl < |s|
    requires Profit(s, b, sl) == BestProfit(s, |s| - 1)
    ensures IsBestTrade(s, b, sl)
  {
    BestProfitIsOptimal(s, |s| - 1);
  }

  /** Day n does not undercut the lowest earlier price: the lowest day stays,
      and selling on day n earns its price minus that lowest price. */
  lemma StepAboveLow(s: seq<int>, n: nat)
    requires 1 <= n < |s|
    requires Prefix(s, n) > Prefix(s, LastMinIndex(s, n - 1))
    ensures LastMinIndex(s, n) == LastMinIndex(s, n - 1)
    ensures SellGain(s, n) == Prefix(s, n) - Prefix(s, LastMinIndex(s, n - 1))
    ensures BestProfit(s, n) == if SellGain(s, n) > BestProfit(s, n - 1) then SellGain(s, n) else BestProfit(s, n - 1)
    ensures FirstBestSell(s, n) == if SellGain(s, n) > BestProfit(s, n - 1) then n else FirstBestSell(s, n - 1)
  {
  }

  /** Day n is a new lowest price: it becomes the lowest day, and selling on
      it earns nothing, so the best profit and its sell day stay. */
  lemma StepAtOrBelowLow(s: seq<int>, n: nat)
    requires 1 <= n < |s|
    requires Prefix(s, n) <= Prefix(s, LastMinIndex(s, n - 1))
    ensures LastMinIndex(s, n) == n
    ensures BestProfit(s, n) == BestProfit(s, n - 1)
    ensures FirstBestSell(s, n) == FirstBestSell(s, n - 1)
  {
  }

  /** When no delta after day 0 is positive the price never rises: nothing
      can be earned, the lowest price is on the last day, and the sell day
      stays at 1. */
  lemma {:induction false} NoRiseNoProfit(s: seq<int>, n: nat)
    requires n < |s|
    requires forall i | 1 <= i <= n :: s[i] <= 0
    ensures BestProfit(s, n) == 0
    ensures FirstBestSell(s, n) == 1
    ensures LastMinIndex(s, n) == n
  {
    if n > 0 {
      NoRiseNoProfit(s, n - 1);
      assert Prefix(s, n) <= Prefix(s, n - 1);
    }
  }
}
