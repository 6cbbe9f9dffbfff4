# BarApp order and inventory ledger, in Dafny

This project models the order and inventory ledger of the BarApp backend, a point-of-sale
server for a bar. The ledger lives in the Express handlers of `server.js`. Read as a
sequence of SQL statements, each handler is a short, deterministic update of five
relations:

- `products`: name and price;
- `inventory`: stock per product;
- `orders`: open or closed, per table;
- `order_items`: quantity and the price at the moment of sale;
- `inventory_movements`: signed delta and the stock after the change.

Two more relations are only referred to: `tables` and `users`.

- `ledger.dfy` (module `Ledger`) holds the relations as one value, `State`. It has the
  handlers' queries (stock with a default of 0, the latest open order, occupancy, an order's
  items and total), and one transition function per handler: `CreateProduct`,
  `UpdateProduct`, `DeleteProduct`, `MoveStock`, `EnsureOrder`, `ApplyItem`, `ApplyItems`,
  `AddItems` and `CloseTable`. It also holds `Valid`, the invariants every reachable state
  keeps, and `HistoryKept`, what no operation may undo.
- `invariants.dfy` (module `Invariants`) proves that every handler keeps `Valid` and
  `HistoryKept`. It also proves what each handler's answer promises.
- `store.dfy` (module `BarStore`) is the database as an object, class `Store`, whose fields
  are the relations. Each method performs its handler's reads and writes one statement at a
  time. Each method is proved to reach exactly the state, and give exactly the answer, of
  the matching `Ledger` function. `ReserveLines` keeps the handler's `remaining` counter in
  a loop over the requested lines. For a user id that names no user, `MoveStock` and
  `ReserveLine` follow the corrected `Ledger` functions and refuse before any write, where
  the handlers write first (see Findings).
- `findings.dfy` (module `Findings`) models two handlers exactly as written, which can store
  a stock change without its movement (see Findings).
- `scenarios.dfy` (module `Scenarios`) holds worked runs on the seeded database.

Modelling decisions:

- Prices and totals are integers. The SQL columns are REAL, but every seeded price is a
  whole number.
- Orders, order items and movements are never deleted. They are sequences in id order, and
  an order is identified by its position (its SQL id minus one).
- Product ids come from AUTOINCREMENT, so a deleted id is never handed out again
  (`nextProductId`, which `HistoryKept` never lets go back).
- Foreign keys are enforced, because db.js switches them on. So the model refuses:
  - an order for an unknown table or user;
  - an inventory row, order item or movement for an unknown product;
  - a movement for an unknown user.
- An order's `total` is 0 until closing, which is the column default.
- Product update rewrites both the name and the price.

Where the code behaves differently from what a reader of the handlers might expect, the
model follows the code:

- The lines of one add-items request are independent. A failing line does not stop the
  later ones (the handler starts all of them), and lines that went through stay committed.
  The answer is the first failure, or the order when every line went through.
- The insufficient-stock error names only the product, not the requested and available
  quantities.
- Closing a table whose order is already closed gives the same "no open order" error as a
  table that never had one. There is no separate invalid-state error.
- "Replaying all movements from 0 reproduces the stock" does not hold:
  - the move handler records the requested delta but stores the stock clamped at 0;
  - the seeded stock of 20 has no movement.
  
  What holds, and is proved, is that the latest movement of a product carries its current
  stock, and that the recorded delta equals the change whenever no clamping happens.
- Prices are not checked to be non-negative. Quantities may be negative: a negative line
  raises stock and lowers the total.

## Model

| member | source | states |
|---|---|---|
| `Ledger.LatestOpenOrder` | server.js:288-290 | the result is an open order of the table, and no later order is open for it; none means the table has no open order |
| `Ledger.Occupied` | server.js:231-246 | a table is occupied exactly when the open-order lookup finds an order for it |
| `Ledger.CurrentOrder` | server.js:249-277 | the current order is absent exactly when the table is free; otherwise it is an open order of that table, and its items hold every stored item of that order as many times as it is stored, and nothing else |
| `Ledger.ItemsOf` | server.js:381-386 | an order's items are the stored items that name that order, each as many times as it is stored (equal multisets), and no other item |
| `Ledger.RequestedQty` | server.js:319 | an absent or zero quantity becomes 1; a given non-zero quantity is used unchanged; the result is never 0 |
| `Ledger.StockOf` | server.js:182 | the stock the handlers read: exactly the row's value when there is a row, 0 without a row (also at server.js:326), never negative when no row is |
| `Ledger.Total` | server.js:388-391 | the close fold over the lines; never negative when no line has a negative quantity or price (additivity is `Invariants.TotalConcat`) |
| `Ledger.OrderTotal` | server.js:381-391 | the total of exactly one order's items; never negative when no stored line has a negative quantity or price (how each new line moves it is `Invariants.OrderTotalAppend`) |
| `Ledger.LastMovement` | server.js:196 | the movement returned names the product and is the last one that does: no later movement names it; none exactly when no movement names it |
| `Ledger.Referenced` | server.js:104-122 | a product is referenced exactly when some order item names it or it has a latest movement |
| `Ledger.IsOpenFor` | server.js:289 | the `table_id = ? AND status = 'open'` filter itself (also at server.js:237, 253 and 374), with no contract of its own; what it selects is stated by the contracts of `Ledger.LatestOpenOrder`, `Ledger.Occupied` and `Ledger.CurrentOrder` |
| `Ledger.Attribution` | server.js:297-298 | the stored user id is absent exactly when the request gives no user or user 0; any other id is kept, so a stored id is never 0 (the same `user_id \|\| null` at server.js:197 and 345) |
| `Ledger.KnownUser` | db.js:54 | the users foreign key of orders accepts a request exactly when it gives no user, user 0, or an existing user (the same key guards movements at db.js:79) |
| `Ledger.ProductFieldsGiven` | server.js:50 | the `!name \|\| price == null` guard itself (also at server.js:81), with no contract of its own; its effect is stated by `Ledger.CreateProduct`, `Invariants.CreateProductEffect` and `Invariants.UpdateProductKeepsSales` (refused exactly when the guard fails, with nothing changed) |
| `Ledger.Seed` | db.js:84-117 | the seeded database has no occupied table (that it is valid is `Invariants.SeedValid`) |
| `Ledger.CreateProduct` | server.js:48-76 | success exactly when the fields are given; a refusal changes nothing; the new id holds the given product with stock 0; history is kept |
| `Ledger.UpdateProduct` | server.js:78-95 | a refusal or an unknown id changes nothing; an answered row is the stored row; the set of ids is unchanged; history is kept |
| `Ledger.DeleteProduct` | server.js:97-154 | a refusal changes nothing; a deletion happens only for an unreferenced product, whose product and inventory rows are then gone; history is kept |
| `Ledger.MoveStock` | server.js:172-209 | a refusal changes nothing; the answered stock is non-negative, is the product's stock afterwards, and is carried by its latest movement; history is kept |
| `Ledger.EnsureOrder` | server.js:288-311 | a refusal changes nothing and happens only for a free table; otherwise the answer is an open order of the table; history is kept |
| `Ledger.ApplyItem` | server.js:318-357 | a failed line changes nothing; a reserved line reports the stock minus the requested quantity, which is non-negative, appends exactly its order item at the product's price, and leaves the orders alone |
| `Ledger.ApplyItems` | server.js:317-360 | the batch reports at most one failure per line and does not touch the orders |
| `Ledger.AddItems` | server.js:280-365 | a missing or empty list is refused with no change; a success answers with an open order of the table |
| `Ledger.CloseTable` | server.js:371-403 | refused, with no change, exactly when the table is free; otherwise the answered total is the stored total of the now closed order and equals its items' total; history is kept |
| `Invariants.TotalConcat` | server.js:388-391 | the close fold is additive: the sum over two runs of lines is the sum of their sums |
| `Invariants.OrderTotalAppend` | server.js:388-391 | a new line changes only its own order's total, by qty times price |
| `Invariants.LatestOpenOrderIsTheOpenOrder` | server.js:289 | with at most one open order per table, the lookup's "latest" open order is that table's only open order |
| `Invariants.SeedValid` | db.js:84-117 | the seeded database satisfies every invariant |
| `Invariants.CreateProductPreservesValid` | server.js:48-76 | product creation keeps every invariant and all history |
| `Invariants.CreateProductEffect` | server.js:49-61 | creation succeeds exactly when a non-empty name and a price are given; it adds the product under a fresh id with stock 0 and no movements, and changes nothing else; otherwise nothing changes |
| `Invariants.UpdateProductPreservesValid` | server.js:78-95 | product update keeps every invariant and all history |
| `Invariants.UpdateProductKeepsSales` | server.js:81-91 | update fails exactly on missing fields; for an existing id the new state is the old one with only that catalog row rewritten, and the answer is that stored row; an unknown id is answered with nothing; recorded sales, stock, orders and movements are never touched |
| `Invariants.DeleteProductPreservesValid` | server.js:97-154 | product deletion keeps every invariant and all history |
| `Invariants.DeleteProductEffect` | server.js:98-149 | deletion succeeds exactly for a non-zero id that no order item and no movement names, and then removes exactly that product and its inventory row; id 0 and a referenced product are refused with no change |
| `Invariants.MoveStockPreservesValid` | server.js:172-209 | a manual stock move keeps every invariant, including stock >= 0 and the audit trail |
| `Invariants.MoveStockEffect` | server.js:177-200 | a move stores max(0, stock + delta), creates the row if absent, and appends exactly one movement carrying the requested delta and the stored stock; no other stock changes; without clamping the delta is the change in stock |
| `Invariants.MoveStockClampsAtZero` | server.js:183-197 | when clamping happens, the stock becomes 0 and the recorded delta differs from the change in stock |
| `Invariants.MoveStockRejectsMissingData` | server.js:173-176 | a move without a product id or without a non-zero delta is refused, exactly then, with no change |
| `Invariants.ShortStockChangesNothing` | server.js:321-331 | a line asking for more than the stock (0 without a row) is refused for that product and changes nothing |
| `Invariants.ReserveEffect` | server.js:326-345 | a line goes through exactly when stock covers it and the product and user exist; it sets stock to current - qty >= 0, leaves other stocks alone, appends exactly one order item priced from the product now and one movement of -qty carrying the new stock; a failed line changes nothing |
| `Invariants.ApplyItemPreservesValid` | server.js:321-357 | applying one line to an open order keeps every invariant and all history |
| `Invariants.ApplyItemsPreservesValid` | server.js:317-360 | applying every line of a batch keeps every invariant and all history, and creates no order |
| `Invariants.BatchAccounting` | server.js:314-352 | each line not reported as failed adds exactly one order item, for the batch's order, and exactly one movement; earlier items and movements stay as they were |
| `Invariants.EnsureOrderPreservesValid` | server.js:294-311 | resolving or creating the order keeps "at most one open order per table" and every other invariant, and yields an open order of the table |
| `Invariants.AddItemsResolvesOrder` | server.js:283-311 | a missing or empty list is refused before any order exists; an open order is reused; a new open order is added only when the table has none; afterwards the table is occupied |
| `Invariants.AddItemsPreservesValid` | server.js:280-365 | the add-items handler keeps every invariant and all history |
| `Invariants.CloseTablePreservesValid` | server.js:371-403 | closing keeps every invariant, including "a closed order's total is the sum over its items" |
| `Invariants.CloseTableEffect` | server.js:373-397 | closing fails, with no change, exactly when the table has no open order; otherwise the new state is the old one with only that order closed, with total = sum of qty times price over exactly its items; the table is freed, and a second close fails |
| `Invariants.SalePriceFrozen` | server.js:339 | an item sold at the product's price keeps that price after the product gets a new price |
| `Invariants.ClosedTotalStaysCorrect` | server.js:393 | once closed, an order stays closed and its total keeps matching its items under any later history-keeping change |
| `BarStore.Store.constructor` | db.js:84-117 | the new store holds the seeded database and is valid |
| `BarStore.Store.CreateProduct` | server.js:48-76 | the product insert and then the inventory insert, ending in `Ledger.CreateProduct`'s state and answer, keeping `Valid()` |
| `BarStore.Store.UpdateProduct` | server.js:78-95 | the update and then the re-read, equal to `Ledger.UpdateProduct`, keeping `Valid()` |
| `BarStore.Store.DeleteProduct` | server.js:97-154 | the reference checks, then both deletes, equal to `Ledger.DeleteProduct`, keeping `Valid()` |
| `BarStore.Store.MoveStock` | server.js:172-209 | the stock read, row creation, stock update and movement insert, equal to `Ledger.MoveStock`, keeping `Valid()` |
| `BarStore.Store.EnsureOrder` | server.js:288-311 | the lookup or the insert of the open order, equal to `Ledger.EnsureOrder`, keeping `Valid()` |
| `BarStore.Store.ReserveLine` | server.js:318-357 | one line on an open order: stock read, check, stock update, item insert and movement insert, equal to `Ledger.ApplyItem`, keeping `Valid()` |
| `BarStore.Store.ReserveLines` | server.js:313-360 | the loop over all lines of an open order, ending in the state of `Ledger.ApplyItems`; `remaining` ends at the number of failed lines and the first failure is kept; `Valid()` is kept |
| `BarStore.Store.AddItems` | server.js:280-365 | resolve the order, then the lines, equal to `Ledger.AddItems` (success exactly when `remaining` reaches zero), keeping `Valid()` |
| `BarStore.Store.CloseTable` | server.js:371-403 | the lookup, the fold over the order's items and the status update, equal to `Ledger.CloseTable`, keeping `Valid()` |
| `Findings.MoveStockAsWritten` | server.js:177-200 | the move as written: whenever it succeeds, it agrees with the corrected `Ledger.MoveStock`; a failure that leaves a trace never touches the products or the movements |
| `Findings.ApplyItemAsWritten` | server.js:321-345 | one line as written: whenever it goes through, it agrees with the corrected `Ledger.ApplyItem`; a failure that leaves a trace never records a movement or touches the orders |
| `Findings.MoveStockAsWrittenSkipsMovement` | server.js:190-197 | as written, a move with a user id that names no user stores the new stock, answers with an error and records no movement, breaking the audit trail |
| `Findings.MoveStockAsWrittenOnSeed` | server.js:190-197 | on the seed, a move of +5 for product 1 by user 99 leaves stock 25 and no movement |
| `Findings.ApplyItemAsWrittenSkipsMovement` | server.js:333-345 | as written, a line on an open order with a user id that names no user lowers stock and adds the order item but records no movement |
| `Findings.MoveStockAsWrittenAgreesForKnownUsers` | server.js:177-200 | the move as written and the corrected move agree whenever the user is known |
| `Findings.ApplyItemAsWrittenAgreesForKnownUsers` | server.js:321-345 | the line as written and the corrected line agree whenever the user is known |
| `Findings.MoveStockRefusesUnknownUser` | server.js:196-197 | the corrected move refuses an unknown user with no change |
| `Findings.ApplyItemRefusesUnknownUser` | server.js:344-345 | the corrected line refuses an unknown user with no change |
| `Scenarios.SellFive` | server.js:280-365 | on the seed, 5 units of product 1 leave stock 15, one movement (-5, 15) and one item (5 at 45) on a new open order, and nothing else changes |
| `Scenarios.ThirtyOnFifteen` | server.js:321-331 | on any database where table 1's only order is open and 15 units of product 1 remain, 30 units are refused for product 1 with no change |
| `Scenarios.SellMoreThanInStock` | server.js:321-331 | then 30 more units are refused for product 1 and nothing changes |
| `Scenarios.PartialBatch` | server.js:317-331 | 3 of product 1 and 1000 of product 2: the first line stays committed, the answer names product 2, the order has one line |
| `Scenarios.ServeTwoLines` | server.js:280-365 | on the seed, 5 of product 1 and 2 of product 2 on table 1 both go through: stock 15 and 18, two items at 45 and 80 on new order 0, two movements |
| `Scenarios.TwoLineTotal` | server.js:388-391 | 5 at 45 and 2 at 80 on one order come to 385 |
| `Scenarios.CloseTwoLineOrder` | server.js:371-403 | on any database whose only order is table 1's open order with those two lines, closing stores that order closed with 385 and changes nothing else; the table is then free and a second close is refused |
| `Scenarios.CloseAfterTwoLines` | server.js:371-403 | 5 at 45 plus 2 at 80 close with total 385, the table is freed, and a second close is refused |
| `Scenarios.CloseUnoccupiedTable` | server.js:378-380 | closing a table with no open order is refused with no change |

## Left out

- Express routing, body parsing, CORS, HTTP status codes and JSON bodies, and the logging in
  `handleError`. Each outcome is a `Result` value instead.
- Repeated answers in add-items. With two or more failing lines in one request, the handler
  answers once per failure. A second answer makes Express throw inside a database callback,
  and nothing in server.js catches that, so the server process can stop before the later
  lines are written. The model applies every line (`Ledger.ApplyItems`), as a server that
  keeps running would.
- Login: a credential lookup with nothing to verify.
- The read-only listings (products, inventory, movements, table list) and the four report
  queries. They are joins and groupings over the ledger that change nothing.
- Concurrency. All lines of a batch read their stock before any of them writes, and
  requests interleave, so updates can be lost. Each line is modelled as one atomic step,
  applied in the order submitted.
- Timestamps (`created_at`, `closed_at`): they depend on the clock.
- Floating-point prices: prices are integers.
- Values that JavaScript coerces: non-numeric strings, `NaN` ids, fractional quantities
  truncated by `parseInt`, and the string `"0"` as a quantity. Ids, quantities and deltas
  are integers. A missing or zero quantity means 1, a zero user id means no user, and a
  missing item product id behaves like an id with no product.
- Storage failures other than the foreign-key and NOT NULL refusals listed above (disk or
  driver errors).
- The schema and seeding statements of db.js. Only the seeded state is modelled, as
  `Ledger.Seed` and the `Store` constructor.
- `Ledger.MoveStock`, `Ledger.ApplyItem`, `Ledger.ApplyItems`, `Ledger.AddItems`: for a user
  id that names no user, these model the corrected behaviour, which refuses the request (or
  the line) before writing; `ApplyItems` and `AddItems` inherit it through `ApplyItem`. The handlers as written
  are `Findings.MoveStockAsWritten` and `Findings.ApplyItemAsWritten`. The same holds for
  `BarStore.Store.MoveStock`, `BarStore.Store.ReserveLine`, `BarStore.Store.ReserveLines`
  and `BarStore.Store.AddItems`, which are proved equal to the corrected functions.

## Findings

| source | as written | input that shows it | evidently intended | confidence | as-written member | corrected member |
|---|---|---|---|---|---|---|
| server.js:185-197 | The move handler stores the new stock, then inserts the movement. The movement's `user_id` references `users`, so an unknown user makes that insert fail after the stock is already committed. | `POST /api/inventory/move` with `{product_id: 1, delta: 5, user_id: 99}` on the seeded database: stock becomes 25, the answer is a server error, and no movement is recorded | every stock change has exactly one movement; a refused request changes nothing | medium, not executed | `Findings.MoveStockAsWrittenSkipsMovement` (with `Findings.MoveStockAsWrittenOnSeed`) | `Ledger.MoveStock`, whose audit invariant is proved in `Invariants.MoveStockPreservesValid` |
| server.js:333-345 | For each line, the handler updates stock and inserts the order item before the movement. An unknown `user_id` fails only the movement insert, so the sale and the stock change stay with no movement. Order creation refuses the same user, so this happens on a table whose order is already open. | an open order on table 1, then `POST /api/tables/1/order/items` with `{items: [{product_id: 1, qty: 2}], user_id: 99}`: stock drops by 2 and an item is added, with no movement | the order item, stock change and movement are written together or not at all | medium, not executed | `Findings.ApplyItemAsWrittenSkipsMovement` | `Ledger.ApplyItem`, whose audit invariant is proved in `Invariants.ApplyItemPreservesValid` |
