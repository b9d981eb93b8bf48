# Local order book of the Ready Trader One auto-trader

This project models the `OrderBook` class of `goodtrader.py`. The auto-trader keeps it
as a local mirror of its own resting orders on the exchange:

- two lists of resting orders, `bids` and `asks`, each `[price, vol, order_id]` and each
  kept in ascending price order;
- six counters: the filled `position`, the `position_after_orders` the trader would hold
  if every resting order filled, the total resting `volume`, the number of resting orders
  and the resting volume of each side.

Five operations change the book:

- `add_bid` / `add_ask` admit a new order. They refuse it when ten orders already rest.
  Otherwise they clamp its volume to the 200-lot resting-volume limit and the 1000-lot
  position limit, refuse it when nothing is left, and insert it in price order.
- `amend_order` applies a fill.
- `remove_order` applies a cancellation.
- `remove_least_useful_order` evicts the order at one end of the book to make room.

The model also covers the auto-trader's integer price estimate `get_last_traded_price`.

The model is imperative, like `goodtrader.py`:

- `Book.OrderBook` is a class with the same fields. The lists are `seq<Order>` fields
  that the methods reassign.
- `Valid()` holds the bookkeeping identities that every method keeps for any arguments:
  - `volume == volBids + volAsks`;
  - `numOrders == |bids| + |asks| <= ORDER_LIMIT`;
  - each side's counter is the sum of that side's volumes;
  - `positionAfterOrders == position + volBids - volAsks`;
  - both lists are sorted.
- `WithinLimits()` adds the risk limits:
  - every resting volume is positive;
  - `volume <= VOLUME_LIMIT`;
  - `position + volBids <= POSITION_LIMIT` and `position - volAsks >= -POSITION_LIMIT`.
  These last two are the position caps that every operation actually preserves. Together
  they bound `|position|` by the limit (`OrderBook.LimitsBound`). A fill needs to be
  legal (positive, and at most the matched order's remaining volume) for them to survive:
  `amend_order` does not check the fill volume.
- The `for i in range(len(...))` searches are the read-only loop methods
  `Orders.FindInsertionPoint` and `Orders.FindOrder`. Each is proved equal to a recursive
  specification function whose contract characterises the index it finds.
- The volume clamp is the pure function pair `Limits.ClampBid` / `Limits.ClampAsk`.

The model keeps these behaviours of the code as written:

- The bid clamp is triggered by `position + vol_bids + vol > POSITION_LIMIT` but subtracts
  `abs(position)`. For a short position this makes admission non-monotone: asking for
  more can admit less (`Limits.BidClampNotMonotone`). The ask test and the ask clamp both
  use `abs(position)`, so an ask always gets `min(vol, room under the volume cap, room
  under the position cap)`.
- Every rejection is `[False, 0]`.
- An unknown id in `amend_order` or `remove_order` changes nothing. When ids repeat, the
  first match wins, bids before asks.
- A new order goes before existing orders at the same price.
- Eviction takes the lowest bid or the highest ask, in the order of preference the side
  argument selects.
- `Book.FillScenario` is a small client. It shows that the contracts determine the outcome
  of a bid on an empty book followed by its complete fill.

## Model

| member | source | states |
|---|---|---|
| `Limits.ClampBid` | goodtrader.py:336-339 | the admitted bid volume never exceeds the request; a positive one keeps `volume` within VOLUME_LIMIT and `position + vol_bids` within POSITION_LIMIT; a request that fits both caps passes unchanged; when flat or long the result is the minimum of the request and both remaining rooms |
| `Limits.ClampAsk` | goodtrader.py:364-367 | the admitted ask volume is exactly the minimum of the request, the room under VOLUME_LIMIT and the room under POSITION_LIMIT after `abs(position) + vol_asks`; a positive one respects both caps |
| `Limits.BidClampNotMonotone` | goodtrader.py:336-337 | with 950 lots short and nothing resting, a 150-lot bid is admitted whole while a 250-lot bid is clamped to 50 lots |
| `Orders.InsertionPoint` | goodtrader.py:342-348 | the insertion index is the first entry priced at least the new price (all before it are cheaper), or the end of the list |
| `Orders.IndexOfId` | goodtrader.py:390-392 | the search index is the first entry carrying the id, or the end of the list when no entry does |
| `Orders.InsertAt` | goodtrader.py:344-348 | `list.insert` adds exactly the new order at the given index: the entries before it stay in place, those from it on shift up by one, and the multiset gains just the order |
| `Orders.RemoveAt` | goodtrader.py:426 | `list.pop(i)` drops exactly entry i; the entries before it stay in place and those after it shift down by one, keeping their relative order |
| `Orders.WithVol` | goodtrader.py:399-400 | `bid[1] -= vol` (and `ask[1] -= vol` at line 413) sets exactly the matched order's volume to the new value; the length, that order's price and id, and every other entry are unchanged |
| `Orders.InsertAtKeeps` | goodtrader.py:342-348 | inserting at the insertion point keeps a side sorted ascending by price, and keeps all volumes positive when the new volume is |
| `Orders.RemoveAtKeeps` | goodtrader.py:397 | removing any entry keeps a side sorted and its volumes positive |
| `Orders.WithVolKeeps` | goodtrader.py:399-400 | reducing one order's volume in place keeps the side sorted, and positive when the new volume is |
| `Orders.SumVolInsertAt` | goodtrader.py:350-353 | inserting an order raises the side's total volume by exactly that order's volume |
| `Orders.SumVolRemoveAt` | goodtrader.py:423-426 | removing an order lowers the side's total volume by exactly its remaining volume |
| `Orders.SumVolWithVol` | goodtrader.py:395-400 | changing one order's volume changes the side's total by the same amount |
| `Orders.SumVolLowerBound` | goodtrader.py:325-326 | with positive volumes a side's total volume is at least its number of orders, so never negative |
| `Orders.FindInsertionPoint` | goodtrader.py:342-346 | the insertion search loop returns exactly `InsertionPoint` |
| `Orders.FindOrder` | goodtrader.py:419-421 | the id search loop returns exactly `IndexOfId` |
| `Book.OrderBook.LimitsBound` | goodtrader.py:33-34 | within the limits the resting volume is in `[0, VOLUME_LIMIT]`, both side totals are non-negative, `abs(position) <= POSITION_LIMIT`, and `abs(position_after_orders) <= POSITION_LIMIT` as well |
| `Book.OrderBook.constructor` | goodtrader.py:304-326 | a new book is empty with every counter 0 and satisfies all invariants and limits |
| `Book.OrderBook.AddBid` | goodtrader.py:328-355 | accepted iff fewer than ORDER_LIMIT orders rest and the clamped volume is positive; a rejection returns `(false, 0)` and changes nothing; an acceptance returns `0 < v <= vol`, inserts the bid at its insertion point, raises `volume`, `vol_bids` and `position_after_orders` by v and `num_orders` by 1, leaves `volume <= VOLUME_LIMIT` and `position + vol_bids <= POSITION_LIMIT`, and keeps every invariant and limit |
| `Book.OrderBook.AddAsk` | goodtrader.py:357-383 | as AddBid on the ask side, with `position_after_orders` lowered by v and `abs(position) + vol_asks <= POSITION_LIMIT` afterwards |
| `Book.OrderBook.AmendOrder` | goodtrader.py:385-414 | a fill of the first matching bid (else ask) moves `position` by +vol (bid) or -vol (ask), lowers `volume` and the side total by vol, and reduces the order's volume. It removes the order and decrements `num_orders` exactly when the volume reaches 0. `position_after_orders` does not move. An unknown id changes nothing. The invariants always hold afterwards, and the limits do too after a legal fill |
| `Book.OrderBook.FillBidAt` | goodtrader.py:390-401 | the bid branch of a fill: the new state in full, with the invariants kept and the limits kept for a legal fill |
| `Book.OrderBook.FillAskAt` | goodtrader.py:403-414 | the ask branch of a fill: the new state in full, with the invariants kept and the limits kept for a legal fill |
| `Book.OrderBook.RemoveOrder` | goodtrader.py:418-437 | cancelling removes only the first entry with the id (bids searched first), lowers `num_orders` by 1 and `volume` and the side total by its remaining volume, and moves `position_after_orders` back by that volume; an absent id changes nothing; invariants and limits are kept |
| `Book.OrderBook.RemoveLeastUsefulOrder` | goodtrader.py:439-471 | on a non-empty book, Buy evicts the lowest bid if any, else the highest ask; Sell evicts the highest ask if any, else the lowest bid; returns the evicted id, releases its volume from the counters, and keeps invariants and limits |
| `Book.OrderBook.PopLowestBid` | goodtrader.py:451-453 | `bids.pop(0)` returns the first bid and releases its volume from `vol_bids` and `position_after_orders` |
| `Book.OrderBook.PopHighestAsk` | goodtrader.py:455-457 | `asks.pop()` returns the last ask and releases its volume from `vol_asks` and `position_after_orders` |
| `Book.PopFront` | goodtrader.py:451 | dropping the first order lowers the total by its volume and keeps sortedness and positivity |
| `Book.PopBack` | goodtrader.py:455 | dropping the last order lowers the total by its volume and keeps sortedness and positivity |
| `MarketPrice.HalfRoundEven` | goodtrader.py:224 | the result is within one half of s/2, and an exact half goes to the even neighbour: Python's `round(s / 2.0)` |
| `MarketPrice.LastNonzero` | goodtrader.py:231-232 | the result is 0 exactly when every level is 0; otherwise it is a level value with only zeros after it |
| `MarketPrice.LastTradedPrice` | goodtrader.py:220-238 | both best prices quoted and uncrossed: the half-even midpoint, which lies between them; crossed: the best bid; no best ask: the last non-zero bid level, or 0; otherwise the last non-zero ask level |

## Left out

- The `AutoTrader` event handlers (`on_error_message`, `on_order_book_update_message`, `on_order_filled_message`, `on_trade_ticks_message`) are left out. They are exchange I/O over the trading framework and its event loop, and their retry policy depends on floating-point support and resistance levels.
- `calculate_market_price`, `calculate_vwap`, `calculate_resist`, `calculate_support` and `calculate_regression` are left out: they are floating-point and numpy/scipy numerics.
- `calculate_sma` is left out: it reads an attribute that the class never defines.
- The `print` logging inside the `OrderBook` methods is left out: it has no effect on the book.
- `data_analysis.py` is not part of this model: it is a plotting script.
- `MarketPrice.HalfRoundEven` rounds the exact rational `s / 2`. `get_last_traded_price` divides by `2.0` in floating point, which is exact only while the sum of the two prices stays below 2^53.
- Integers are unbounded in the model, as they are in Python.
- `Book.OrderBook.RemoveLeastUsefulOrder` requires a non-empty book. On an empty book `remove_least_useful_order` reads an unbound variable and raises an error, and the model has no value to return there.
- `MarketPrice.LastTradedPrice` requires both price lists to be non-empty, because `get_last_traded_price` indexes their first element. The exchange always sends five levels.
- `Book.OrderBook.AmendOrder` keeps the risk limits only for a legal fill: positive, and at most the matched order's remaining volume. `amend_order` does not check the fill; with an over-fill the order keeps a negative volume, exactly as the model states.
