/**
 * The write side of product stocks: the stock table (store of record), the
 * read-only products table and the stock cache, and the operations that
 * keep the first and the last in step.
 */
module WriteStock {
  import opened StockTypes
  import opened StockTable
  import opened StockCache

  /** What `set_stock_for_product` reports: rows updated, or the id of the row added. */
  datatype SetStatus = RowsUpdated(count: nat) | RowsAdded(productId: ProductId)

  /**
   * Reads every order item by its own shape into the canonical tuple and
   * collects the distinct product ids.
   */
  method NormalizeItems(items: seq<OrderItem>) returns (normalized: seq<NormItem>, ids: set<ProductId>)
    ensures |normalized| == |items|
    ensures forall i :: 0 <= i < |items| ==> normalized[i] == Normalize(items[i])
    ensures forall pid :: pid in ids <==> exists i :: 0 <= i < |items| && items[i].productId == pid
  {
    normalized, ids := [], {};
    for i := 0 to |items|
      invariant |normalized| == i
      invariant forall k :: 0 <= k < i ==> normalized[k] == Normalize(items[k])
      invariant forall pid :: pid in ids <==> exists k :: 0 <= k < i && items[k].productId == pid
    {
      var item := items[i];
      var norm := match item.shape
        case Object => NormItem(item.productId, item.quantity, item.unitPrice)
        case Mapping => NormItem(item.productId, item.quantity, item.unitPrice);
      normalized := normalized + [norm];
      ids := ids + {norm.productId};
    }
  }

  /** Some element of a non-empty set: the order in which a query returns rows is not specified. */
  method PickFrom(todo: set<ProductId>) returns (pid: ProductId)
    requires todo != {}
    ensures pid in todo
  {
    HasElement(todo);
    pid :| pid in todo;
  }

  lemma HasElement(s: set<ProductId>)
    requires s != {}
    ensures exists pid :: pid in s
  {
    if forall pid :: pid !in s {
      assert false;
    }
  }

  class StockService {
    /** The `stocks` table: product id to quantity. */
    var stocks: Stocks
    /** The `products` table, which this code only reads. */
    const products: map<ProductId, Product>
    /** The `stock:<product_id>` hashes. */
    var cache: Cache

    constructor (stocks: Stocks, products: map<ProductId, Product>, cache: Cache)
      requires WellFormed(cache)
      ensures WellFormed(this.cache)
      ensures this.stocks == stocks && this.products == products && this.cache == cache
    {
      this.stocks := stocks;
      this.products := products;
      this.cache := cache;
    }

    /** `UPDATE stocks SET quantity = :qty WHERE product_id = :pid`, returning the matched row count. */
    method UpdateQuantity(pid: ProductId, quantity: int) returns (rowcount: nat)
      modifies this`stocks
      ensures rowcount == if pid in old(stocks) then 1 else 0
      ensures stocks == if pid in old(stocks) then old(stocks)[pid := quantity] else old(stocks)
    {
      if pid in stocks {
        stocks := stocks[pid := quantity];
        rowcount := 1;
      } else {
        rowcount := 0;
      }
    }

    /** Inserting a new `Stock` row; product_id is the table's unique key. */
    method InsertRow(pid: ProductId, quantity: int)
      requires pid !in stocks
      modifies this`stocks
      ensures stocks == old(stocks)[pid := quantity]
    {
      stocks := stocks[pid := quantity];
    }

    /** `UPDATE stocks SET quantity = quantity op :qty WHERE product_id = :pid`. */
    method AdjustQuantity(pid: ProductId, op: Op, qty: int)
      modifies this`stocks
      ensures stocks == AdjustRow(old(stocks), pid, op, qty)
    {
      if pid in stocks {
        stocks := stocks[pid := Apply(op, stocks[pid], qty)];
      }
    }

    /** `HSET stock:<pid> mapping=m`. */
    method WriteEntry(pid: ProductId, m: Entry)
      requires WellFormed(cache) && HasField(m)
      modifies this`cache
      ensures cache == Hset(old(cache), pid, m)
      ensures WellFormed(cache)
    {
      cache := cache[pid := Merge(EntryAt(cache, pid), m)];
    }

    /** `pipeline.execute()`: the queued writes, applied in queue order. */
    method ExecutePipeline(pending: seq<Write>)
      requires WellFormed(cache)
      requires forall i :: 0 <= i < |pending| ==> HasField(pending[i].mapping)
      modifies this`cache
      ensures cache == ApplyWrites(old(cache), pending)
      ensures WellFormed(cache)
    {
      for i := 0 to |pending|
        invariant cache == ApplyWrites(old(cache), pending[..i])
        invariant WellFormed(cache)
      {
        assert pending[..i + 1][..i] == pending[..i];
        WriteEntry(pending[i].key, pending[i].mapping);
      }
      assert pending[..|pending|] == pending;
    }

    /**
     * Sets the quantity of one product: an update, then an insert when no
     * row matched; then merges the quantity, and the product's name, sku
     * and price when the product exists, into its cache entry.
     */
    method SetStockForProduct(pid: ProductId, quantity: int) returns (status: SetStatus)
      requires WellFormed(cache)
      modifies this
      ensures WellFormed(cache)
      ensures stocks == old(stocks)[pid := quantity]
      ensures status == if pid in old(stocks) then RowsUpdated(1) else RowsAdded(pid)
      ensures cache == Hset(old(cache), pid, Payload(quantity, Lookup(products, pid), None))
      ensures cache.Keys == old(cache).Keys + {pid}
      ensures cache[pid].quantity == Some(quantity)
      ensures pid in products ==>
        cache[pid] == Entry(Some(quantity), Some(products[pid].name), Some(products[pid].sku), Some(products[pid].price))
      ensures pid !in products ==> cache[pid] == EntryAt(old(cache), pid).(quantity := Some(quantity))
      ensures forall k :: k in old(cache) && k != pid ==> cache[k] == old(cache)[k]
    {
      var rowcount := UpdateQuantity(pid, quantity);
      status := RowsUpdated(rowcount);
      if rowcount == 0 {
        InsertRow(pid, quantity);
        status := RowsAdded(pid);
      }
      var product := Lookup(products, pid);
      var payload := Payload(quantity, product, None);
      WriteEntry(pid, payload);
    }

    /**
     * Applies `quantity op item.quantity` to each item's row, one statement
     * per item in order. Every item is read with the shape of the first one;
     * an item of the other shape raises, after the statements for the items
     * before it have run.
     */
    method UpdateStockMysql(items: seq<OrderItem>, op: Op) returns (outcome: Outcome)
      modifies this`stocks
      ensures var k := FirstMismatch(items);
        && outcome == (if k == |items| then Done else ShapeError(k))
        && stocks == AdjustAll(old(stocks), items[..k], op)
    {
      var i := 0;
      while i < |items|
        invariant i <= FirstMismatch(items)
        invariant stocks == AdjustAll(old(stocks), items[..i], op)
      {
        var item := items[i];
        if item.shape != items[0].shape {
          return ShapeError(i);
        }
        AdjustQuantity(item.productId, op, item.quantity);
        assert items[..i + 1][..i] == items[..i];
        i := i + 1;
      }
      assert items[..|items|] == items;
      outcome := Done;
    }

    /** Decreases the stock of each item's product. */
    method CheckOutItemsFromStock(items: seq<OrderItem>) returns (outcome: Outcome)
      modifies this`stocks
      ensures var k := FirstMismatch(items);
        && outcome == (if k == |items| then Done else ShapeError(k))
        && stocks == AdjustAll(old(stocks), items[..k], Minus)
    {
      outcome := UpdateStockMysql(items, Minus);
    }

    /** Increases the stock of each item's product. */
    method CheckInItemsToStock(items: seq<OrderItem>) returns (outcome: Outcome)
      modifies this`stocks
      ensures var k := FirstMismatch(items);
        && outcome == (if k == |items| then Done else ShapeError(k))
        && stocks == AdjustAll(old(stocks), items[..k], Plus)
    {
      outcome := UpdateStockMysql(items, Plus);
    }

    /** The products whose ids are in `ids`, by id (no query when `ids` is empty). */
    method FetchProducts(ids: set<ProductId>) returns (productMap: map<ProductId, Product>)
      ensures productMap.Keys == ids * products.Keys
      ensures forall pid :: pid in productMap ==> productMap[pid] == products[pid]
    {
      if ids == {} {
        productMap := map[];
      } else {
        productMap := map pid | pid in ids && pid in products :: products[pid];
      }
    }

    /**
     * Queues one write per normalized item: the cached quantity (0 when
     * absent) moved by the item's quantity, with the enrichment `Payload`
     * gives. Every read sees the cache as it was before the pipeline runs.
     */
    method PlanWrites(normalized: seq<NormItem>, productMap: map<ProductId, Product>, op: Op)
      returns (pending: seq<Write>)
      ensures |pending| == |normalized|
      ensures forall i :: 0 <= i < |normalized| ==> pending[i] == PlannedWrite(cache, productMap, normalized[i], op)
    {
      pending := [];
      for i := 0 to |normalized|
        invariant |pending| == i
        invariant forall k :: 0 <= k < i ==> pending[k] == PlannedWrite(cache, productMap, normalized[k], op)
      {
        var item := normalized[i];
        var current := CachedQuantity(cache, item.productId);
        var newQuantity;
        if op == Plus {
          newQuantity := current + item.quantity;
        } else {
          newQuantity := current - item.quantity;
        }
        var mapping := Payload(newQuantity, Lookup(productMap, item.productId), item.unitPrice);
        pending := pending + [Write(item.productId, mapping)];
      }
    }

    /**
     * Adjusts each item's cached quantity. Nothing happens for no items; a
     * cache with no stock entry is rehydrated first; the writes are queued
     * and the pipeline runs after every read.
     */
    method UpdateStockRedis(items: seq<OrderItem>, op: Op)
      requires WellFormed(cache)
      modifies this`cache
      ensures WellFormed(cache)
      ensures cache == RedisBatch(old(cache), stocks, products, items, op)
      ensures items == [] ==> cache == old(cache)
    {
      if |items| == 0 {
        return;
      }
      if cache == map[] {
        PopulateRedisFromMysql();
      }
      ghost var warm := cache;
      assert warm == Warm(old(cache), stocks, products);
      var normalized, ids := NormalizeItems(items);
      var productMap := FetchProducts(ids);
      var pending := PlanWrites(normalized, productMap, op);
      assert pending == Planned(warm, products, items, op) by {
        forall i | 0 <= i < |items|
          ensures pending[i] == Planned(warm, products, items, op)[i]
        {
          assert items[i].productId in ids;
          assert Lookup(productMap, items[i].productId) == Lookup(products, items[i].productId);
        }
      }
      ExecutePipeline(pending);
    }

    /** The inner join of stocks with products, in an unspecified row order. */
    method JoinStocksWithProducts() returns (rows: seq<JoinedRow>)
      ensures IsJoin(rows, stocks, products)
    {
      rows := [];
      var todo := Joined(stocks, products);
      ghost var done: set<ProductId> := {};
      while todo != {}
        invariant todo !! done && todo + done == Joined(stocks, products)
        invariant forall a, b :: 0 <= a < b < |rows| ==> rows[a].productId != rows[b].productId
        invariant forall i :: 0 <= i < |rows| ==>
          rows[i].productId in done &&
          rows[i] == JoinedRow(rows[i].productId, stocks[rows[i].productId], products[rows[i].productId])
        invariant forall pid :: pid in done ==> exists i :: 0 <= i < |rows| && rows[i].productId == pid
        decreases todo
      {
        var pid := PickFrom(todo);
        ghost var before := rows;
        rows := rows + [JoinedRow(pid, stocks[pid], products[pid])];
        todo, done := todo - {pid}, done + {pid};
        forall q | q in done
          ensures exists i :: 0 <= i < |rows| && rows[i].productId == q
        {
          if q == pid {
            assert rows[|before|].productId == q;
          } else {
            var i :| 0 <= i < |before| && before[i].productId == q;
            assert rows[i].productId == q;
          }
        }
      }
      assert done == Joined(stocks, products);
      forall pid | pid in stocks && pid in products
        ensures exists i :: 0 <= i < |rows| && rows[i].productId == pid
      {
        assert pid in done;
      }
    }

    /**
     * Rehydration: one four-field write per joined row, queued and then
     * executed; nothing is written when the join is empty.
     */
    method PopulateRedisFromMysql()
      requires WellFormed(cache)
      modifies this`cache
      ensures WellFormed(cache)
      ensures cache == Rehydrated(old(cache), stocks, products)
    {
      var rows := JoinStocksWithProducts();
      if |rows| == 0 {
        RowPipelineRehydrates(cache, stocks, products, rows, []);
        return;
      }
      var pending: seq<Write> := [];
      for i := 0 to |rows|
        invariant |pending| == i
        invariant forall k :: 0 <= k < i ==> pending[k] == RowWrite(rows[k])
      {
        pending := pending + [RowWrite(rows[i])];
      }
      RowPipelineRehydrates(cache, stocks, products, rows, pending);
      ExecutePipeline(pending);
    }
  }
}
