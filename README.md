# Product stocks: write side, stock table and stock cache

This project models the write side of a product-stock service
(`src/stocks/commands/write_stock.py`). The service keeps two stores in step:

- the `stocks` table is the store of record. It maps a product id (its unique key) to a quantity;
- a cache holds one hash per product under `stock:<product_id>`, with the fields `quantity`, `name`, `sku` and `price`.

A read-only `products` table supplies name, sku and price.

`WriteStock.StockService` is a class with fields `stocks`, `products` (a constant) and `cache`. Its methods follow the source's functions:

- `SetStockForProduct` is an upsert. It runs an update, then an insert when no row matched. It then does a field-level merge into the product's cache entry.
- `UpdateStockMysql` applies a signed delta with one statement per item, in order. `CheckInItemsToStock` and `CheckOutItemsFromStock` call it with `+` and `-`.
- `UpdateStockRedis` is the batch adjustment of the cache. It does nothing for no items and rehydrates a cache that holds no stock entry. It then reads every current quantity and queues one write per item in a pipeline, which it executes after all the reads.
- `PopulateRedisFromMysql` is the rehydration. It writes one four-field entry per row of the inner join of stocks with products.

Cache writes are field-level merges (`StockCache.Merge`): fields the mapping does not carry keep their values. A pipeline is a sequence of queued writes (`StockCache.Write`). Executing it applies them in queue order (`StockCache.ApplyWrites`). The specification functions `StockTable.AdjustAll`, `StockCache.Rehydrated` and `StockCache.RedisBatch` give the state each operation leaves. The methods are proved against them, and the lemmas state what those states mean entry by entry.

Three behaviours of the code are modelled as it is written:

- A cache write (`hset` with a mapping, lines 41, 130 and 155) merges fields into the hash. It does not replace the whole hash.
- The table path reads every item with the shape (object or dictionary) of the first item (line 53). A later item of the other shape raises after the statements for the earlier items have run. The model returns `ShapeError(index)` and keeps those earlier updates. The cache path reads each item by its own shape.
- In one cache batch (lines 110-132), every item reads the quantity the cache held before the pipeline ran. When several items name the same product, the last one's write wins and the deltas do not add up (`StockCache.DuplicateItemsDoNotCompound`). The table path runs its statements one after another, so there repeated ids do compound (`StockTable.AdjustAllAt`).

## Model

| member | source | states |
|---|---|---|
| `WriteStock.StockService.SetStockForProduct` | src/stocks/commands/write_stock.py:11-42 | afterwards the table maps the product to exactly the given quantity and every other row is unchanged; the status is "rows updated: 1" when a row existed and "rows added: pid" otherwise; the product's cache entry gets `quantity`, plus `name`/`sku`/`price` exactly when the product exists; unwritten fields keep their old values; every other cache key is untouched |
| `WriteStock.StockService.UpdateQuantity` | src/stocks/commands/write_stock.py:15-23 | the update-by-key matches one row when the product has a row (which then holds the new quantity) and none otherwise (nothing changes) |
| `WriteStock.StockService.InsertRow` | src/stocks/commands/write_stock.py:24-28 | a product without a row gains one with the given quantity; no other row changes |
| `WriteStock.StockService.WriteEntry` | src/stocks/commands/write_stock.py:40-41 | an `hset` with a mapping merges the mapping's fields into the key's hash and leaves every other key as it was |
| `WriteStock.StockService.UpdateStockMysql` | src/stocks/commands/write_stock.py:49-68 | the statements for the items up to the first one whose shape differs from the first item's have run, in order; the outcome is `Done` when there is no such item and `ShapeError` at its index otherwise |
| `WriteStock.StockService.AdjustQuantity` | src/stocks/commands/write_stock.py:59-66 | one `quantity = quantity op qty` statement: an existing row moves by the delta, a missing row is neither changed nor inserted |
| `WriteStock.StockService.CheckOutItemsFromStock` | src/stocks/commands/write_stock.py:70-72 | the table path with subtraction |
| `WriteStock.StockService.CheckInItemsToStock` | src/stocks/commands/write_stock.py:74-76 | the table path with addition |
| `StockTable.FirstMismatch` | src/stocks/commands/write_stock.py:52-58 | the index of the first item whose shape differs from the first item's (every earlier item shares it), or the number of items when all share it |
| `StockTable.AdjustAllAt` | src/stocks/commands/write_stock.py:52-66 | the statements never insert or remove a row; every existing row moves by the total quantity the items carry for it, so repeated ids compound |
| `StockTable.UnnamedRowsUnchanged` | src/stocks/commands/write_stock.py:59-66 | a row that no item names keeps its quantity |
| `StockTable.OppositeAdjustmentsCancel` | src/stocks/commands/write_stock.py:70-76 | checking the same items in and then out (or out and then in) leaves the table as it was |
| `WriteStock.StockService.UpdateStockRedis` | src/stocks/commands/write_stock.py:78-134 | the cache becomes `RedisBatch` of the old cache: unchanged for no items; otherwise rehydrated first when empty, then the queued writes applied after all reads |
| `WriteStock.NormalizeItems` | src/stocks/commands/write_stock.py:86-98 | each item, object or dictionary, is read into its (product id, quantity, unit price) tuple in order; the id set is exactly the ids the items name |
| `WriteStock.StockService.FetchProducts` | src/stocks/commands/write_stock.py:100-107 | the product map holds exactly the products whose ids were asked for, with their table values |
| `WriteStock.StockService.PlanWrites` | src/stocks/commands/write_stock.py:109-130 | one queued write per item, in order; its quantity is the cached one (0 when absent) plus or minus the item's quantity, all read from the cache as it was before any queued write runs |
| `StockCache.Payload` | src/stocks/commands/write_stock.py:119-128 | the mapping always carries the new quantity; it carries name and sku exactly when the product exists; it carries a price when the product exists or a unit price is given, and the product's price wins over the unit price |
| `WriteStock.StockService.ExecutePipeline` | src/stocks/commands/write_stock.py:130-132 | executing the pipeline applies the queued writes in queue order |
| `StockCache.ApplyWritesWellFormed` | src/stocks/commands/write_stock.py:130-132 | a pipeline whose every mapping carries a field leaves every present key holding a field, as a Redis hash exists only while it has one |
| `StockCache.RedisBatchWellFormed` | src/stocks/commands/write_stock.py:82-132 | a batch, with its rehydration, keeps every present key holding a field, so "no `stock:` key" stays "empty cache" |
| `StockCache.ApplyWritesAt` | src/stocks/commands/write_stock.py:130-132 | after a pipeline, each key's hash is its old hash with the writes addressed to it merged on in order; a key exists exactly when it existed before or some write addressed it |
| `StockCache.RedisBatchAt` | src/stocks/commands/write_stock.py:109-132 | for the last item naming a product, the entry exists and its quantity is the pre-call quantity moved by that item alone; a known product's entry holds exactly the product's four fields; for an unknown product, name and sku are never written and the item's unit price, when given, becomes the price |
| `StockCache.RedisBatchUntouched` | src/stocks/commands/write_stock.py:109-132 | entries that no item names are left as the read-before-write cache had them; an unknown product whose items give no unit price keeps its price field |
| `StockCache.DuplicateItemsDoNotCompound` | src/stocks/commands/write_stock.py:110-132 | two items adding 3 to a cached 10 leave 13, not 16 |
| `StockCache.OppositeBatchesRestoreQuantity` | src/stocks/commands/write_stock.py:114-117 | two isolated batches with the same items and opposite operations restore every product's cached quantity |
| `StockCache.ColdCacheScenario` | src/stocks/commands/write_stock.py:82-84 | an empty cache is rehydrated before the reads: stock 10 and a known product, checking 3 in, gives quantity 13 next to the product's name, sku and price |
| `WriteStock.StockService.JoinStocksWithProducts` | src/stocks/commands/write_stock.py:140-146 | the join yields one row per product that has both a stock row and a product, carrying that stock quantity and product, and no other row |
| `WriteStock.StockService.PopulateRedisFromMysql` | src/stocks/commands/write_stock.py:136-172 | the cache becomes `Rehydrated` of the old cache: every joined product's entry receives its four fields, and every other entry is unchanged |
| `StockCache.RowPipelineRehydrates` | src/stocks/commands/write_stock.py:152-165 | queuing one four-field write per joined row and executing the pipeline yields exactly `Rehydrated`, whatever order the rows come in |
| `StockCache.DistinctWritesAt` | src/stocks/commands/write_stock.py:154-165 | when the queued writes address distinct keys, each addressed key ends with its old fields merged with its one mapping |
| `StockCache.RehydrateEmpty` | src/stocks/commands/write_stock.py:154-163 | rehydrating an empty cache yields one entry per joined product, with exactly its quantity, name, sku and price |
| `StockCache.RehydrateNothingJoined` | src/stocks/commands/write_stock.py:148-150 | when the join yields no rows, rehydration leaves the cache unchanged |

## Left out

- Sessions and connections are not modelled: commit, rollback, close and flush, the Redis connection, and the SQL text. A call acts directly on the model's state. The table path's caller owns the transaction, so after a `ShapeError` the model keeps the earlier updates the caller would roll back.
- Failures of the database or the cache (exceptions that the code re-raises) are not modelled; every statement and cache write succeeds. The one failure modelled is the shape mismatch in the table path.
- A dictionary item missing `product_id` or `quantity` (a `KeyError`) is not modelled: every item carries both. An item without a unit price carries `None`, as both `getattr(..., None)` and `.get` give.
- `WriteStock.StockService.SetStockForProduct`: the status is a datatype (`RowsUpdated(count)` or `RowsAdded(pid)`), not the formatted string. The row count is the count of matched rows, as MySQL reports with the found-rows client flag; with a unique key it is 0 or 1.
- `StockCache.CachedQuantity` reads stored values as typed fields rather than their string encoding. A stored quantity is always an integer, so `int(...)` never fails in the model.
- `StockCache.Warm` models the `stock:*` key scan as "the cache map is empty". This holds because every present key holds at least one field (`StockCache.WellFormed`), which every cache-writing method keeps; glob matching itself is not modelled.
- Prices are integers in hundredths; the `float(...)` conversions are not modelled.
- The `print` logging in rehydration is not modelled.
- The operation symbol is a two-value type (`Plus`, `Minus`). The cache path treats every symbol other than `+` as minus; the table path interpolates the symbol into SQL. Any other symbol is not modelled.
- `StockCache.OppositeBatchesRestoreQuantity` restores the quantity field only. The first batch may add name, sku or price fields that the entry lacked before.
- Races between concurrent callers are not modelled. These include the upsert race and lost cache updates across calls; only the behaviour within one call is modelled.
