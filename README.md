# Day-trading game: order accounting, valuation and bar cursor

`trading_game.py` is a single-player paper-trading game. It loads a month of
five-minute bars for a randomly chosen stock and hides the name. The bars are
replayed one at a time, by hand or on auto-play. The player buys and sells
against ten million in cash; shorts are allowed, and an order larger than the
open position flips it to the other side. This project models the part of the
game with real rules:

- `Orders` is the trade executor as a pure function on the accounting state.
  `Execute` takes the cash, signed position and average entry price (a `Book`)
  to the new book, the outcome shown to the player, and the log entries written.
  `Apply` adds the trade log and the chart markers. `Replay` and `Filled` run a
  sequence of orders.
- `Valuation` is the equity panel: unrealised profit, estimated total assets and
  return on the starting capital. It also states how one order at the current
  close moves the estimated assets.
- `Cursor` holds the bar-cursor rules: the random starting bar, the clamp when a
  render reads a bar, the guarded next-bar button, and the unguarded auto-play step.
- `Chart` holds the 101-bar display window, the marker filter and the split of
  markers by side, plus the masked stock name.
- `Game.Session` is the session state as a class whose methods update its fields
  in place, as the source does. The order, reset, read, next-bar and render
  methods are proved equal to the matching functions above; the play/pause and
  auto-advance methods state their effect directly.

Money is an exact `real`, share counts are integers, and log lines are an
`Entry` datatype rather than formatted text.

The code behaves in these ways, which one might not expect:

- `avg_cost` is not reset when a close brings the position to zero. It stays
  stale until the next opening overwrites it; opening from flat gives exactly the
  fill price (`AddToSide`).
- Covering a short pays the price and the fee, then credits the price and the
  profit back. Cash therefore moves only by profit − fee. The notional taken from
  cash when the short was opened is never returned, so valuation and settlement
  do not agree for shorts. `ShortCoverLosesNotional` proves the exact gap:
  average price × covered shares. `ShortRoundTripScenario` shows the loss on a
  zero-profit round trip.
- Only buys are checked for funds, against the principal without the fee. A sell
  that opens or adds to a short is never rejected (`SellsAlwaysFill`).
- The fee is computed once, on the full order quantity. A flip charges it twice:
  in the close leg and again in the opening leg.
- The game keeps no list of per-trade returns; the log records the profit of each close.
- Auto-play increments the cursor without a bound, so the cursor can reach one
  past the last bar. The next render clamps the read and stops auto-play, so the
  cursor never goes further (`RendersStayInBounds`, `AutoPlayRunsToEnd`).

## Model

| member | source | states |
|---|---|---|
| Orders.Execute | trading_game.py:169-227 | The order is rejected exactly when it is a buy and cash is below price × qty. A rejected order leaves the book unchanged and logs nothing. An accepted order logs one or two entries. "Reversal skipped" only happens for a closing order larger than the position. |
| Orders.CloseOut | trading_game.py:197-214 | The close leg covers min(\|pos\|, qty) shares and moves the position toward zero by that much. A long sale credits proceeds − fee. A short cover changes cash by (avg − price) × cover − fee. avg_cost is unchanged. |
| Orders.Apply | trading_game.py:169-233 | A rejected order leaves the whole ledger unchanged. Otherwise exactly one marker (bar index, price, side) is appended. Earlier log entries are never rewritten. |
| Orders.AddToSide | trading_game.py:186-194 | Adding to a side or opening from flat: cash falls by price × qty + fee; the position moves qty in the order's direction and its size grows by qty. avg_cost becomes (avg × \|pos\| + price × qty)/(\|pos\| + qty), so open cost grows by the principal. From flat, avg_cost equals the price whatever the stale value. One Added entry is logged. |
| Orders.AddedAverageBetween | trading_game.py:189-191 | The new average lies between the old average and the fill price. |
| Orders.CloseWithoutFlip | trading_game.py:197-215 | An order no larger than the position: long cash +price × qty − fee, short cash +(avg − price) × qty − fee. The position moves by qty without crossing zero. avg_cost is kept, even at zero. One Closed entry is logged. |
| Orders.Flip | trading_game.py:198-227 | An order larger than the position closes all of it first. If the cash left covers price × remaining: position = remaining in the order's direction, avg = price, a second fee is charged, and Closed and Reversed are logged. Otherwise: flat, avg kept, only Closed logged, outcome ReversalSkipped. |
| Orders.LogPerCall | trading_game.py:186-230 | An accepted call appends one marker and one or two log entries. It appends two exactly when a flip opened the opposite side. |
| Orders.PositionMoves | trading_game.py:174-222 | An executed order moves the position by its full signed quantity. A skipped reversal leaves it at zero. |
| Orders.AvgCostStaysNonNegative | trading_game.py:186-223 | With non-negative prices, avg_cost never becomes negative. |
| Orders.ReplaySnoc | trading_game.py:169-233 | Replaying one more order is the executor applied to the book the earlier calls left. That order is among the filled orders exactly when that call did not reject it. |
| Orders.Filled | trading_game.py:181-183 | The orders of a sequence that passed the funds check: no more of them than there were orders, and each one is from the sequence. |
| Orders.SameSideAccumulates | trading_game.py:186-192 | For a run of same-side orders, the position grows by the filled shares and the open cost grows by the filled notional. |
| Orders.WeightedMeanFromFlat | trading_game.py:186-192 | From flat, after a run of same-side orders, avg_cost is the size-weighted mean of the filled prices. |
| Orders.SellsAlwaysFill | trading_game.py:181 | Sells are never rejected for funds. |
| Orders.LongRoundTripScenario | trading_game.py:186-215 | Buy 1000 @ 100 then sell 1000 @ 110 from a fresh game: cash 9,899,800 then 10,009,580. avg_cost stays 100. The log and markers are as expected. |
| Orders.ShortRoundTripScenario | trading_game.py:186-211 | Short 1000 @ 100, cover @ 100: cash ends at 9,899,600 with the position flat. |
| Orders.FlipScenario | trading_game.py:197-227 | Long 10 @ 100, sell 15 @ 90: a loss of 100 on 10 shares, then a fresh short of 5 @ 90, with two fees charged. |
| Valuation.Value | trading_game.py:306-324 | Unrealised P&L is what closing the whole position now would realise. Assets = cash + open cost + unrealised; a long is valued at market and a flat book at its cash. roi × 10,000,000 = (assets − 10,000,000) × 100, so roi ≥ 0 exactly when assets ≥ 10,000,000. |
| Valuation.FreshGame | trading_game.py:306-324 | Valued on the ledger `reset_game` sets up, a fresh game shows 10,000,000 in assets, no unrealised P&L and zero return. |
| Valuation.AssetsAfterOrder | trading_game.py:181-227 | Estimated assets as the valuation block computes them, valued at the fill price: a rejected order changes assets by nothing. Adding or selling a long costs exactly the fee (two fees on a flip). A short cover also loses avg × covered shares. |
| Valuation.AddingCostsTheFee | trading_game.py:186-194 | Adding to either side costs exactly one fee in assets. |
| Valuation.LongCloseCostsTheFee | trading_game.py:202-223 | Selling out of a long costs one fee, or two when it flips short. |
| Valuation.ShortCoverLosesNotional | trading_game.py:207-223 | Covering a short costs the fee(s) plus avg × covered shares. |
| Valuation.ShortPartialCover | trading_game.py:207-214 | Covering up to the short size costs avg × qty + fee. |
| Valuation.ShortCoverAndFlip | trading_game.py:207-223 | Covering a whole short and flipping long costs avg × \|pos\| plus one or two fees. |
| Valuation.LongRoundTrip | trading_game.py:186-205 | Buy then sell the same qty from flat: cash changes by (sell − buy) × qty minus both fees, and the position ends flat. |
| Cursor.StartIndex | trading_game.py:140-144 | A start exists exactly when there are at least 200 bars. Then 50 ≤ start and start + 150 ≤ n. The start is the random pick whenever n − 150 > 50. |
| Cursor.ReadIndex | trading_game.py:293-297 | The bar read is < n and ≤ step. It is the step when that is on the chart, else n − 1. |
| Cursor.ManualStep | trading_game.py:371-374 | The step advances by one only while step < n − 1, so it never leaves the chart. |
| Cursor.Render | trading_game.py:451-454 | After the read clamp at lines 295-297, auto-play survives a render exactly when it was on and step < n. It then moves the cursor one bar. A cursor at most n stays at most n. |
| Cursor.RendersStayInBounds | trading_game.py:451-454 | Any number of renders keep a cursor at most n. |
| Cursor.AutoPlayRunsToEnd | trading_game.py:451-454 | Auto-play from bar s reaches bar s + k after k renders. The render after reaching n switches it off with the cursor at n. |
| Cursor.PausedStaysPut | trading_game.py:451 | With auto-play off, renders leave the cursor in place. |
| Cursor.ManualStepsStayOnChart | trading_game.py:372-373 | k presses from a readable bar land on min(step + k, n − 1). |
| Chart.DisplayStart | trading_game.py:401 | The window start is ≤ the current bar and at most 100 bars back. It is exactly 100 back unless it is the first bar. |
| Chart.Visible | trading_game.py:421 | A marker is kept exactly when its bar lies in [start, current], and no marker is kept more often than it was placed. |
| Chart.Side | trading_game.py:422-425 | A marker goes to a side exactly when it is of that side, and no marker is kept more often than it occurs. |
| Chart.VisibleAppend | trading_game.py:421 | Filtering after a new marker gives the old visible markers plus the new one if it is in the window. |
| Chart.SidesPartition | trading_game.py:422-425 | The buy and sell lists together have as many markers as are visible. |
| Chart.NewMarkerVisible | trading_game.py:421 | In the window from `display_start` to the current bar, an accepted order's marker is visible at once, after all markers already visible. |
| Chart.Masked | trading_game.py:303-304 | A name longer than one character shows its first character and two full-width O's. A shorter name is shown as is. |
| Game.Session.constructor | trading_game.py:71-89 | The defaults: fresh ledger, cursor 0, no chart, auto-play off. |
| Game.Session.ExecuteTrade | trading_game.py:169-233 | The fields end as `Orders.Apply` of the old ledger, and the outcome matches. |
| Game.Session.AddLeg | trading_game.py:186-194 | The add branch in place: the book becomes `Execute`'s book and one entry is logged. |
| Game.Session.CloseLeg | trading_game.py:197-227 | The close branch in place, including the flip: the book, the entries and the outcome are `Execute`'s. |
| Game.Session.CoverLeg | trading_game.py:198-215 | The close leg in place: the book becomes `CloseOut` of the old one, the short cover adjusts cash in two steps, and one Closed entry is logged. |
| Game.Session.ResetGame | trading_game.py:140-161 | Fresh ledger and auto-play off. On a successful load the chart is stored and the cursor is set to `StartIndex`, so 50 ≤ step and step + 150 ≤ n. On a failed load the cursor keeps its value. |
| Game.Session.ReadCursor | trading_game.py:293-297 | Returns `ReadIndex` and that bar's close, and turns auto-play off when step ≥ n. |
| Game.Session.NextBar | trading_game.py:371-374 | The step becomes `ManualStep`, and a cursor in range stays in range. |
| Game.Session.SetAutoPlay | trading_game.py:362-370 | The play and pause buttons set the flag. |
| Game.Session.AutoAdvance | trading_game.py:451-454 | With auto-play on, the step goes up by one, unguarded. |
| Game.Session.Refresh | trading_game.py:451-454 | One render, i.e. the read clamp at lines 295-297 followed by the auto-play step, equals `Cursor.Render`, and a cursor in range stays in range. |
| Game.Session.Trade | trading_game.py:293-352 | A button press fills at the close of the bar the render read and places the marker on that bar. The render's read clamp has turned auto-play off exactly when step ≥ n, and left it unchanged otherwise. |

## Left out

- Streamlit page flow, CSS, toasts and error banners. Rejections and the skipped reversal are returned as `Outcome` values instead.
- The wording of log lines ("take profit" versus "stop loss") and number formatting. The `Entry` datatype keeps side, quantity, price and profit.
- Market data: `yf.download`, the random ticker choice, the retry loop in `load_data` and the 300-bar raw-length filter. A loaded chart is a `Round` passed to `ResetGame`. The random start draw is the parameter `pick`, with the range of `random.randint` as a precondition.
- `calculate_technical_indicators`: pandas rolling and exponential windows, not part of this model.
- Leaderboard and feedback CSV files, the settle button's save, and the chart drawing, including the 0.99/1.01 marker offsets.
- The `time.sleep(0.5)` pacing of auto-play; only its unguarded step is kept.
- Floating point: money is an exact real, so rounding of `balance` and `price` is not modelled.
- The `try/except` around `execute_trade`: the model assumes no exception on valid inputs.
- Orders.Execute: requires qty > 0. The quantity box only allows 1000 to 100000, so the source never executes an empty order.
- The nickname, first-load hint and "slow down" button, which only display text.
