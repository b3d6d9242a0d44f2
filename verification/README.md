# Durian ledger in Dafny

A model of the inventory ledger of a durian trading application. Purchases
are recorded as inventory lots of a variation (weight left, cost per
kilogram). Recording a resale consumes that variation's lots oldest first
(`consume_inventory_cost`): the oldest lots are used up and deleted, at most
one lot is left partly used, and the sale gets the weighted average purchase
cost of the weight it took as its cost basis. The dashboard adds up profit
over all sales and, per (species, purchased variation, sold variation), the
weight, revenue and profit of the sales made under that mapping.

Files:

- `wrappers.dfy` (module `Wrappers`): `Option`, standing for Python's `None`
  or a value.
- `models.dfy` (module `Models`): the `Inventory` row (`Lot`), the `Sale` row,
  and the sale's `revenue`, `cost` and `profit` properties.
- `ledger.dfy` (module `Ledger`): the Inventory table as a class
  `InventoryTable` whose field `lots` holds the rows in primary-key order.
  Its method `ConsumeInventoryCost` is the source's loop. It is proved
  against the specification function `Consume`, which is defined through the
  row-by-row walk `Fifo`.
- `fifo_properties.dfy` (module `FifoProperties`): what consumption
  guarantees, proved about `Consume` and `Fifo`. It covers:
  - refusal and exact removal;
  - oldest-first order in closed form;
  - selling the whole stock;
  - weights that never go negative;
  - other variations left untouched;
  - the cost basis as a weighted average;
  - two worked examples.
- `dashboard.dfy` (module `Dashboard`): the dashboard's two passes over the
  sales, as methods with loops. They are proved against per-key sums and
  the first-seen key order, with the lemma that the mapping records add up
  to the overall totals.

Weights, prices and costs are exact reals. The row the source deletes when
its weight "reaches 0" is therefore the row whose weight is exactly zero
after the draw.

`add_sale` (app.py:85) only checks that the weight field is non-empty, so
any request weight reaches `consume_inventory_cost`. A negative request
takes nothing and returns 0.0, or `None` when the stock is below even that
request (`FifoProperties.ConsumeNegativeRequest`). A zero request returns
`None` when the stock is negative (app.py:116-117), and otherwise reaches
the division `total_cost / weight_needed` (app.py:129) and fails there; the
model admits a zero request exactly in the first case.

## Model

| member | source | states |
|---|---|---|
| Models.Revenue | models.py:51-53 | an empty sale earns nothing; with a non-negative price and weight revenue is non-negative |
| Models.Cost | models.py:55-57 | an empty sale costs nothing; with a non-negative cost basis and weight the cost is non-negative |
| Models.Profit | models.py:59-61 | profit is the per-kilogram margin times the weight; it is non-negative when the price covers the cost basis and negative when it does not and the weight is positive |
| Ledger.Min | app.py:123 | `min` is at most each argument and equals one of them |
| Ledger.Taken | app.py:123 | a lot of another variation, or one reached once nothing is needed, gives nothing; otherwise `used` is at most the need and at most the lot's weight, and equals one of the two |
| Ledger.Matching | app.py:110-114 | the query result: the table's rows of the variation, in table order (its members are stated by `FifoProperties.MatchingMembers`) |
| Ledger.Available | app.py:115 | `total_available`: the summed weight of the query result (unfolded row by row by `FifoProperties.AvailableCons`) |
| Ledger.Next | app.py:126 | a row not drawn from leaves `remaining` as it is; a draw leaves it non-negative, and strictly smaller exactly when the lot's weight is positive |
| Ledger.Charge | app.py:124 | a row nothing is taken from adds nothing to the total cost; from a drawn row of non-negative weight and price it adds a non-negative amount, at most the request at the row's price and at most the row's whole value |
| Ledger.Remains | app.py:125-128 | a row becomes either nothing or itself with its weight reduced by what was taken; it is deleted exactly when it was drawn from and its whole weight was taken; a row not drawn from is kept unchanged |
| Ledger.Fifo | app.py:118-128 | the loop, row by row: new table, `total_cost` and `remaining` (its properties are the `FifoProperties` lemmas below) |
| Ledger.Consume | app.py:109-129 | returns `None` exactly when the variation's stock is below the request, and then leaves the table unchanged; a zero request is admitted only in that case |
| Ledger.FifoNothingNeeded | app.py:121-122 | once nothing more is needed the walk stops: the table is unchanged and nothing is charged |
| Ledger.WalkSkip | app.py:110-114 | a row of another variation (not in the query result) is kept as it is and costs nothing |
| Ledger.WalkTake | app.py:123-128 | one turn of the loop: cost grows by `used * cost_per_kg`, `remaining` falls by `used`, the row is kept reduced unless its weight becomes exactly 0 |
| Ledger.WalkDone | app.py:120-122 | where the loop stops (end of the rows, or nothing more needed) the rows not yet visited stay as they were |
| Ledger.FifoKeepsIds | app.py:125-128 | consumption only shrinks and deletes rows: every remaining row id was in the table before |
| Ledger.FifoKeepsOrder | app.py:110-113 | rows stay in primary-key order after consumption, so the next query is still oldest first |
| Ledger.InventoryTable.constructor | models.py:24-29 | a table of rows in primary-key order |
| Ledger.InventoryTable.ConsumeInventoryCost | app.py:109-129 | returns `None` exactly when the variation's stock is below the request, and then leaves the table unchanged; otherwise the new table and the result are those of the oldest-first walk, with the average `total_cost / weight_needed`; rows stay in id order |
| FifoProperties.MatchingMembers | app.py:110-114 | the query returns exactly the table's rows of the variation |
| FifoProperties.MatchingOrdered | app.py:110-113 | on a table in primary-key order the query result is in id order, oldest first |
| FifoProperties.AvailableCons | app.py:115 | `total_available` is the first row's weight (when of the variation) plus the stock of the rest |
| FifoProperties.FifoAccounting | app.py:118-128 | the variation's stock falls by exactly what was taken, and nothing stays unmet when the stock covered the request, whatever the sign of the weights |
| FifoProperties.ConsumeNegativeRequest | app.py:115-129 | a negative request changes nothing and returns 0.0, or `None` when the stock is below it |
| FifoProperties.ConsumeRemovesExactly | app.py:115-129 | a served request lowers the variation's total weight by exactly the weight sold |
| FifoProperties.FifoOtherVariations | app.py:110-114 | the walk for one variation leaves the lots of every other variation as they were |
| FifoProperties.ConsumeLeavesOtherVariations | app.py:109-129 | recording a sale (any request `Consume` admits) never changes another variation's lots |
| FifoProperties.FifoMatchingView | app.py:110-120 | walking the whole table does to the variation's lots what walking the query result does, at the same cost |
| FifoProperties.FifoKeepsWeights | app.py:123-128 | non-negative lots stay non-negative; positive lots stay positive, because a lot emptied to 0 is deleted |
| FifoProperties.ConsumeKeepsWeights | app.py:109-129 | on non-negative lots, after a sale no lot of the variation has a negative weight, and given positive weights no lot is left at 0 |
| FifoProperties.FifoFirstCovers | app.py:123-128 | a request the oldest lot covers is taken from it alone, deleting it exactly when it held just the request |
| FifoProperties.FifoFirstUsedUp | app.py:123-128 | a positive request beyond the oldest lot's weight (of any sign) uses that lot up, deletes it, and goes on with the others, needing `remaining - weight` |
| FifoProperties.UniformOldestFirst | app.py:118-128 | on one variation's lots, whatever the sign of their weights (a zero or negative lot before the stopping point is reached, emptied and deleted), there is a `k` where the request runs out: the lots before `k` are gone, lot `k` keeps what it holds beyond the request (or is gone), later lots are untouched, and the cost is the value of the first `k` lots plus the rest of the request at lot `k`'s price |
| FifoProperties.ConsumeOldestFirst | app.py:109-129 | for a served positive request, the variation's lots after the sale and the returned average are those of that oldest-first closed form, over the query result, which is in id order when the table is |
| FifoProperties.UniformExhaust | app.py:118-128 | on positive lots, taking a variation's whole stock deletes every lot and costs the full value `sum(w * c)` |
| FifoProperties.ConsumeAllStock | app.py:109-129 | selling the whole stock leaves no lot of the variation and returns `sum(w * c) / sum(w)` |
| FifoProperties.FifoCostBounds | app.py:123-124 | on non-negative lots, the accumulated cost lies between the cheapest and dearest price per kilogram times the weight taken |
| FifoProperties.ConsumeAverageBounds | app.py:118-129 | on non-negative lots, the returned cost basis lies between the cheapest and dearest price of the variation's lots |
| FifoProperties.RecordedSaleCost | app.py:86-98 | the sale recorded with the returned cost basis has a `cost` equal to the cost of the lots consumed |
| FifoProperties.ScenarioTwoLots | app.py:109-129 | 10 kg at 2 and 5 kg at 3: selling 12 kg deletes the first lot, leaves 3 kg of the second, leaves the other variation alone and returns 26/12 |
| FifoProperties.ScenarioShortStock | app.py:115-117 | 10 kg in stock: selling 15 kg returns `None` and changes nothing |
| Dashboard.TotalProfit | app.py:20 | `sum(s.profit for s in sales)`; it is non-negative when every sale's profit is |
| Dashboard.Keys | app.py:21-23 | the keys `setdefault` has inserted: every sale's mapping is among them |
| Dashboard.GroupTotals | app.py:21-26 | the record of one mapping after the sales; a mapping without sales has the all-zero record in the model (such a key is absent from `mapping_totals`) |
| Dashboard.FirstSeen | app.py:22 | the dictionary's key order: a mapping is appended when its first sale is seen |
| Dashboard.FirstSeenLists | app.py:21-23 | that order lists every mapping with sales exactly once, and nothing else |
| Dashboard.Summarize | app.py:18-28 | `total_profit` is the sum of all profits; `mapping_totals` has exactly the keys of the sales, each key's record is the summed weight, revenue and profit of that key's sales, its keys come in first-seen order, and the listed records' profits add up to `total_profit` |
| Dashboard.GroupByMapping | app.py:21-26 | the grouping loop builds the per-key records and the first-seen key order |
| Dashboard.OrderStep | app.py:22 | one turn of the grouping loop appends the sale's mapping to the key order exactly when it is new |
| Dashboard.MappingStep | app.py:21-26 | one turn of the grouping loop (`setdefault` and the three `+=`) extends the per-key records by one sale |
| Dashboard.KeysMembers | app.py:22-23 | a mapping is on the dashboard exactly when some sale was made under it |
| Dashboard.TotalProfitIsOverall | app.py:20 | `total_profit` is the profit column of the overall totals |
| Dashboard.SumGroupsSnoc | app.py:21-26 | one more sale adds its figures to the listed mappings once if its own mapping is listed, and not at all otherwise |
| Dashboard.GroupsAddUp | app.py:19-27 | the per-mapping records, each mapping listed once, add up to the total weight, revenue and profit of all sales |
| Dashboard.GroupedProfitsAddUp | app.py:20-27 | the grouped profits add up to `total_profit` |

## Left out

- Web routes, forms, templates and flash messages are not modelled. The
  same holds for adding species, variations and inventory lots, which are
  plain inserts.
- Database sessions and commits are not modelled. The table is handed to
  the model as rows already in primary-key order.
- Receipt files (`generate_receipt`) and the spreadsheet sync
  (`sync_sale_to_google_sheets`) are I/O and are not modelled.
- Timestamps and `__repr__` are not modelled. A sale's relationships are
  not modelled either; the sale carries the names they resolve to.
- Floating point is not modelled. Weights and prices are exact reals, so a
  lot left with rounding dust (where the source's `== 0` test fails) does
  not arise in the model.
- Concurrent requests are not modelled.
- Ledger.InventoryTable.ConsumeInventoryCost: requires a non-zero weight
  unless the stock is below it. A zero request against a stock of at least
  zero reaches `total_cost / weight_needed` and raises a division-by-zero
  error, which the model does not represent.
- Ledger.InventoryTable.ConsumeInventoryCost: computes `total_available`
  with a call to the function `Available` instead of a loop, because the
  source uses a one-line `sum` over the query.
- Ledger.InventoryTable.ConsumeInventoryCost: walks all rows of the table
  and passes over other variations' rows, instead of fetching the query
  result first. `FifoProperties.FifoMatchingView` proves the two walks give
  the same result.
- FifoProperties.ConsumeAllStock: assumes positive weights, because a
  trailing zero-weight lot is not reached once the request is met and
  survives.
- FifoProperties.ConsumeRemovesExactly: stated for positive requests only.
  A negative request changes nothing (`FifoProperties.ConsumeNegativeRequest`).
- Dashboard.Summarize: replaces the per-key record with a new value
  instead of updating the dictionary's inner dict in place. It starts the
  sums at the real 0.0, not the integer 0. A `map` has no order, so the
  dictionary's insertion order is returned beside it as the key sequence
  `order` (`Dashboard.FirstSeen`).
