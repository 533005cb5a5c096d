# Best buy and sell day over relative stock prices

This project models `find_sell_buy` from `src/main.rs`. The function takes a
series of day-over-day price changes (`relative_stocks`). The change of day 0
is the starting price. It makes one forward pass and returns a pair
`(buy_idx, sell_idx)`. On each day the pass:

- adds the day's change to the running absolute price (`curr_price`);
- if the price is above the buy price, compares `curr_price - buy_price`
  with the best profit so far and, when it is strictly larger, records it
  and the day as `sell_idx`;
- otherwise (price at or below the buy price) moves `buy_idx` and
  `buy_price` to the current day.

The model has two modules.

- `PriceSeries` (`price_series.dfy`) holds the specification, as functions of the
  series and the last day seen so far, `n`:
  - `Prefix`: the absolute price of a day.
  - `Profit`: what a buy on one day and a sell on a later day earns.
  - `LastMinIndex`: the last day among `0..n` with the lowest price.
  - `SellGain`: the most a sale on day `j` can earn.
  - `BestProfit`: the best single-trade profit over `0..n`, or 0 if no trade earns money.
  - `FirstBestSell`: the earliest day on which that best profit can be taken.

  Each function gets a lemma that says what its value means. The lemmas do
  not use the scan. They only use the prices of the days.
- `SellBuy` (`sell_buy.dfy`) holds `FindSellBuy`. It is the loop as written,
  with the same five locals, the same `continue` on day 0, and the same
  strict `>` and non-strict `<=` comparisons. Its loop invariants tie each
  local to the specification functions. The module also holds the program's
  two unit tests as lemmas, plus the inputs on which the returned pair is not
  a best trade.

What is proved:

- The running profit is the best single buy-before-sell profit. It is 0 when
  the price never rises.
- The returned buy day is the **last** day of the lowest price over the whole
  series.
- The returned sell day is the **earliest** day on which the best profit can
  be taken. It is 1 when nothing can be earned.
- The pair is a best trade exactly when the buy day comes before the sell
  day. The trade then earns the best profit, which is strictly positive.
- When the buy day comes after the sell day, the pair is inverted. The doc
  comment's claim that the pair is "best" then fails (see Findings).

The model follows the code in `src/main.rs`. Several things are not part of this
model: a later variant of this function, an optional result, and a
"candidate buy" day that is promoted when it would earn more. On
`[2, 1, 1, 1, -4]` the code returns `(4, 3)`. On `[0, -1, -2, -1, -2]` it
returns `(4, 1)` and not "no result". On a one-element series it returns
`(0, 1)`, so `sell_idx` is outside the series.

## Model

| member | source | states |
|---|---|---|
| `SellBuy.FindSellBuy` | src/main.rs:67-96 | For a non-empty series, the buy index is the last lowest-price day and the sell index is the earliest best sell day. The buy index is inside the series. A one-element series gives (0, 1). With two or more days the sell index is in 1..len-1, and the pair is a best trade exactly when buy < sell. |
| `PriceSeries.PrefixIsSumOfDeltas` | src/main.rs:80-81 | The running price of day i is the sum of the deltas of days 0..i. |
| `PriceSeries.LastMinIndexIsLastMinimum` | src/main.rs:83-92 | The buy day's price is at most that of every day seen. It is strictly below every later day seen, because a tie moves the buy day. |
| `PriceSeries.SellGainIsBestSaleOn` | src/main.rs:83-84 | `curr_price - buy_price` is the most any earlier buy can earn on a sale that day, and some earlier day earns it. |
| `PriceSeries.BestProfitIsOptimal` | src/main.rs:72-88 | The profit bounds every buy-before-sell trade over the days seen. When it is positive, some such trade earns it. |
| `PriceSeries.BestProfitMonotone` | src/main.rs:85-87 | The best profit never decreases as more days are seen. |
| `PriceSeries.FirstBestSellIsEarliest` | src/main.rs:71-88 | With no profit the sell day stays 1. Otherwise a sale on that day earns the best profit, and no trade that sells earlier earns it. |
| `PriceSeries.BestTradeIffOrdered` | src/main.rs:66-95 | The pair (last lowest day, earliest best sell day) is a best trade if and only if buy < sell. It then earns the best profit, which is positive. |
| `PriceSeries.EarnsBestProfitIsBestTrade` | src/main.rs:66 | Any buy-before-sell pair that earns the best profit is a best trade. |
| `PriceSeries.NoRiseNoProfit` | src/main.rs:83-92 | When no delta after day 0 is positive, the profit is 0, the sell day is 1 and the buy day is the last day. |
| `SellBuy.TestVectorOne` | src/main.rs:104-108 | `[3, 5, -7, 3, 3, -2]` gives buy 2 and sell 4 with profit 6, and (2, 4) is a best trade. |
| `SellBuy.TestVectorTwo` | src/main.rs:112-116 | `[0, 1, 2, -1, 2, 1, -3, 2, 1, -2, 5, -3, 2, -4, 5]` gives buy 0 and sell 10 with profit 8, and (0, 10) is a best trade. |
| `SellBuy.InvertedPairAfterRebound` | src/main.rs:89-95 | `[1, 5, -10, 2]` gives (2, 1), which is not a best trade. The best trade is (0, 1), earning 5. |
| `SellBuy.InvertedPairAfterLastDip` | src/main.rs:89-95 | `[2, 1, 1, 1, -4]` gives (4, 3), which is not a best trade. The best trade is (0, 3), earning 3. |
| `SellBuy.FallingPricesPair` | src/main.rs:83-95 | `[0, -1, -2, -1, -2]` gives (4, 1) with profit 0. |
| `SellBuy.FindSellBuyCorrected` | src/main.rs:66-95 | The loop also records the buy day at the moment it records the sell day. When some trade earns money, the result is a best trade that earns the best profit. Otherwise it is (0, 1). The sell day is the earliest best sell day. |

## Left out

- `main` (src/main.rs:14-53): a timing loop with console table output. It is benchmarking I/O with no behaviour to verify.
- `create_rnd_rel_stocks` (src/main.rs:61-64): a wrapper over a random number generator. It is nondeterministic and calls a foreign library.
- The `Run` report row and its table derive (src/main.rs:6-11): a formatting type only.
- FindSellBuy: does not model `i32` overflow. Prices and differences are unbounded integers, and `usize` indices are `nat`. For long or extreme inputs, `curr_price += price` and `curr_price - buy_price` can overflow in the source: a panic in a debug build, wrap-around in a release build.
- FindSellBuy: the source panics on an empty vector, because it reads `relative_stocks[0]` first. The model states this as the precondition `|s| >= 1`.
- The vector is passed by value and dropped at return. The model takes the series as an immutable sequence.

## Findings

| source | as written | input that shows it | evidently intended | confidence | as-written member | corrected member |
|---|---|---|---|---|---|---|
| src/main.rs:66-95 | The doc comment promises the best (buy, sell) pair. But `buy_idx` keeps following every later running minimum after `sell_idx` is fixed, so the pair can come out with the sell day before the buy day. | `[1, 5, -10, 2]` (prices 1, 6, -4, -2) returns `(2, 1)` | `(0, 1)`, the best buy-before-sell pair, earning 5 | high (proved about the model; not executed) | `SellBuy.InvertedPairAfterRebound` | `SellBuy.FindSellBuyCorrected` |
