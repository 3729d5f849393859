/**
 * The stock cache: one hash per product under `stock:<product_id>`, holding
 * the fields `quantity`, `name`, `sku` and `price`. The functions here say
 * what each cache write, each rehydration and each batch adjustment leaves
 * in the cache; the lemmas say what that means entry by entry.
 */
module StockCache {
  import opened StockTypes
  import opened StockTable

  /** The fields of one `stock:<product_id>` hash; a field that is absent is `None`. */
  datatype Entry = Entry(quantity: Option<int>, name: Option<string>, sku: Option<string>, price: Option<Price>)

  const NoFields := Entry(None, None, None, None)

  /** The cache, keyed by product id (the `stock:` prefix is implicit). */
  type Cache = map<ProductId, Entry>

  /** All four fields are present. */
  predicate Full(e: Entry)
  {
    e.quantity.Some? && e.name.Some? && e.sku.Some? && e.price.Some?
  }

  function Override<T>(kept: Option<T>, written: Option<T>): Option<T>
  {
    if written.Some? then written else kept
  }

  /**
   * `HSET key mapping=m` on an entry: each field of `m` replaces its
   * namesake and the fields `m` does not carry keep their values.
   */
  function Merge(e: Entry, m: Entry): Entry
  {
    Entry(Override(e.quantity, m.quantity), Override(e.name, m.name),
          Override(e.sku, m.sku), Override(e.price, m.price))
  }

  /** The entry holds at least one field. */
  predicate HasField(e: Entry)
  {
    e.quantity.Some? || e.name.Some? || e.sku.Some? || e.price.Some?
  }

  /**
   * Every present key holds at least one field: a hash with no field does
   * not exist, so "some `stock:` key exists" is "the cache is not empty".
   */
  predicate WellFormed(c: Cache)
  {
    forall pid :: pid in c ==> HasField(c[pid])
  }

  /** The hash stored under a key; a key that is absent reads as a hash with no fields. */
  function EntryAt(c: Cache, pid: ProductId): Entry
  {
    if pid in c then c[pid] else NoFields
  }

  /** `HSET stock:<pid> mapping=m` on the whole cache. */
  function Hset(c: Cache, pid: ProductId, m: Entry): Cache
  {
    c[pid := Merge(EntryAt(c, pid), m)]
  }

  /** `HGET stock:<pid> quantity` read as an integer, with a missing field read as 0. */
  function CachedQuantity(c: Cache, pid: ProductId): int
  {
    match EntryAt(c, pid).quantity
    case Some(q) => q
    case None => 0
  }

  /**
   * The field mapping written for a product: `quantity` always; `name`,
   * `sku` and `price` from the product when it exists; otherwise `price`
   * alone from the unit price when one was given.
   */
  function Payload(quantity: int, product: Option<Product>, unitPrice: Option<Price>): (m: Entry)
    ensures m.quantity == Some(quantity)
    ensures m.name.Some? <==> product.Some?
    ensures m.sku.Some? <==> product.Some?
    ensures m.price.Some? <==> product.Some? || unitPrice.Some?
    ensures product.Some? ==> Full(m) && m.name.value == product.value.name && m.sku.value == product.value.sku
    ensures m.price.Some? ==> m.price.value == if product.Some? then product.value.price else unitPrice.value
  {
    match product
    case Some(p) => Entry(Some(quantity), Some(p.name), Some(p.sku), Some(p.price))
    case None =>
      match unitPrice
      case Some(u) => Entry(Some(quantity), None, None, Some(u))
      case None => Entry(Some(quantity), None, None, None)
  }

  /** One queued pipeline command: `HSET stock:<key> mapping=mapping`. */
  datatype Write = Write(key: ProductId, mapping: Entry)

  /** Executing a pipeline: the queued writes applied in the order they were queued. */
  function ApplyWrites(c: Cache, ws: seq<Write>): Cache
    decreases |ws|
  {
    if ws == [] then c
    else
      var w := ws[|ws| - 1];
      Hset(ApplyWrites(c, ws[..|ws| - 1]), w.key, w.mapping)
  }

  /** A pipeline whose every mapping carries a field keeps the cache well formed. */
  lemma {:induction false} ApplyWritesWellFormed(c: Cache, ws: seq<Write>)
    requires WellFormed(c)
    requires forall i :: 0 <= i < |ws| ==> HasField(ws[i].mapping)
    ensures WellFormed(ApplyWrites(c, ws))
  {
    if ws != [] {
      ApplyWritesWellFormed(c, ws[..|ws| - 1]);
    }
  }

  /** The mappings of the queued writes addressed to `pid`, in queue order. */
  function MappingsFor(ws: seq<Write>, pid: ProductId): seq<Entry>
    decreases |ws|
  {
    if ws == [] then []
    else
      var w := ws[|ws| - 1];
      MappingsFor(ws[..|ws| - 1], pid) + (if w.key == pid then [w.mapping] else [])
  }

  /** The field-level merge of several mappings, in order, onto one entry. */
  function MergeAll(e: Entry, ms: seq<Entry>): Entry
    decreases |ms|
  {
    if ms == [] then e else Merge(MergeAll(e, ms[..|ms| - 1]), ms[|ms| - 1])
  }

  /**
   * Each key's hash after a pipeline is its hash before, with the writes
   * addressed to that key merged onto it in order; a key exists afterwards
   * exactly when it existed before or some write addressed it.
   */
  lemma {:induction false} ApplyWritesAt(c: Cache, ws: seq<Write>, pid: ProductId)
    ensures pid in ApplyWrites(c, ws) <==> pid in c || MappingsFor(ws, pid) != []
    ensures EntryAt(ApplyWrites(c, ws), pid) == MergeAll(EntryAt(c, pid), MappingsFor(ws, pid))
  {
    if ws != [] {
      var prefix := ws[..|ws| - 1];
      ApplyWritesAt(c, prefix, pid);
      var w := ws[|ws| - 1];
      if w.key == pid {
        var ms := MappingsFor(prefix, pid);
        assert MappingsFor(ws, pid) == ms + [w.mapping];
        assert (ms + [w.mapping])[..|ms|] == ms;
      } else {
        assert MappingsFor(ws, pid) == MappingsFor(prefix, pid) + [];
        assert MappingsFor(ws, pid) == MappingsFor(prefix, pid);
        assert EntryAt(ApplyWrites(c, ws), pid) == EntryAt(ApplyWrites(c, prefix), pid);
      }
    }
  }

  /** No write addressed to `pid` leaves nothing to merge into its entry. */
  lemma {:induction false} MappingsForNone(ws: seq<Write>, pid: ProductId)
    requires forall i :: 0 <= i < |ws| ==> ws[i].key != pid
    ensures MappingsFor(ws, pid) == []
  {
    if ws != [] {
      MappingsForNone(ws[..|ws| - 1], pid);
    }
  }

  /** The last mapping addressed to `pid` is that of the last write addressed to it. */
  lemma {:induction false} MappingsForLast(ws: seq<Write>, pid: ProductId, j: nat)
    requires j < |ws| && ws[j].key == pid
    requires forall i :: j < i < |ws| ==> ws[i].key != pid
    ensures MappingsFor(ws, pid) != []
    ensures MappingsFor(ws, pid)[|MappingsFor(ws, pid)| - 1] == ws[j].mapping
  {
    if j < |ws| - 1 {
      MappingsForLast(ws[..|ws| - 1], pid, j);
    }
  }

  /** Every mapping addressed to `pid` comes from some write addressed to `pid`. */
  lemma {:induction false} MappingsForFrom(ws: seq<Write>, pid: ProductId, k: nat)
    requires k < |MappingsFor(ws, pid)|
    ensures exists i :: 0 <= i < |ws| && ws[i].key == pid && ws[i].mapping == MappingsFor(ws, pid)[k]
  {
    var prefix := ws[..|ws| - 1];
    var ms := MappingsFor(prefix, pid);
    if k < |ms| {
      MappingsForFrom(prefix, pid, k);
      var i :| 0 <= i < |prefix| && prefix[i].key == pid && prefix[i].mapping == ms[k];
      assert ws[i] == prefix[i];
    } else {
      assert ws[|ws| - 1].mapping == MappingsFor(ws, pid)[k];
    }
  }

  /** A field that none of the mappings carries keeps the entry's value. */
  lemma {:induction false} MergeAllKeeps(e: Entry, ms: seq<Entry>)
    ensures (forall k :: 0 <= k < |ms| ==> ms[k].name.None?) ==> MergeAll(e, ms).name == e.name
    ensures (forall k :: 0 <= k < |ms| ==> ms[k].sku.None?) ==> MergeAll(e, ms).sku == e.sku
    ensures (forall k :: 0 <= k < |ms| ==> ms[k].price.None?) ==> MergeAll(e, ms).price == e.price
  {
    if ms != [] {
      MergeAllKeeps(e, ms[..|ms| - 1]);
    }
  }

  /**
   * A pipeline whose writes address distinct keys leaves each addressed key
   * holding its old fields merged with its one mapping.
   */
  lemma DistinctWritesAt(c: Cache, ws: seq<Write>, j: nat)
    requires forall a, b :: 0 <= a < b < |ws| ==> ws[a].key != ws[b].key
    requires j < |ws|
    ensures ws[j].key in ApplyWrites(c, ws)
    ensures ApplyWrites(c, ws)[ws[j].key] == Merge(EntryAt(c, ws[j].key), ws[j].mapping)
  {
    var pid := ws[j].key;
    ApplyWritesAt(c, ws, pid);
    MappingsForOnce(ws, pid, j);
  }

  /** A key addressed by one write only has one mapping addressed to it. */
  lemma {:induction false} MappingsForOnce(ws: seq<Write>, pid: ProductId, j: nat)
    requires j < |ws| && ws[j].key == pid
    requires forall i :: 0 <= i < |ws| && i != j ==> ws[i].key != pid
    ensures MappingsFor(ws, pid) == [ws[j].mapping]
  {
    var prefix := ws[..|ws| - 1];
    if j == |ws| - 1 {
      MappingsForNone(prefix, pid);
    } else {
      MappingsForOnce(prefix, pid, j);
    }
  }

  // Rehydration

  /** The product ids the inner join of `stocks` with `products` yields. */
  function Joined(s: Stocks, p: map<ProductId, Product>): set<ProductId>
  {
    s.Keys * p.Keys
  }

  /** A row of the join: the stock's product id and quantity with its product. */
  datatype JoinedRow = JoinedRow(productId: ProductId, quantity: int, product: Product)

  /** The write queued for one joined row: all four fields. */
  function RowWrite(row: JoinedRow): Write
  {
    Write(row.productId, Payload(row.quantity, Some(row.product), None))
  }

  /**
   * The cache after rehydration: every joined product's entry receives its
   * stock quantity and product fields; every other entry is left alone.
   */
  function Rehydrated(c: Cache, s: Stocks, p: map<ProductId, Product>): Cache
  {
    map pid | pid in c.Keys + Joined(s, p) ::
      if pid in s && pid in p then Merge(EntryAt(c, pid), Payload(s[pid], Some(p[pid]), None)) else c[pid]
  }

  /**
   * The rows of the join, in whatever order the query returns them: one row
   * per joined product id, carrying that product's stock quantity and
   * product.
   */
  predicate IsJoin(rows: seq<JoinedRow>, s: Stocks, p: map<ProductId, Product>)
  {
    && (forall a, b :: 0 <= a < b < |rows| ==> rows[a].productId != rows[b].productId)
    && (forall i :: 0 <= i < |rows| ==>
          rows[i].productId in s && rows[i].productId in p &&
          rows[i].quantity == s[rows[i].productId] && rows[i].product == p[rows[i].productId])
    && (forall pid :: pid in s && pid in p ==> exists i :: 0 <= i < |rows| && rows[i].productId == pid)
  }

  /**
   * Queuing one four-field write per joined row and executing the pipeline
   * is the rehydration `Rehydrated` describes, whatever order the rows come
   * in; with no joined row it leaves the cache as it was.
   */
  lemma RowPipelineRehydrates(c: Cache, s: Stocks, p: map<ProductId, Product>, rows: seq<JoinedRow>, ws: seq<Write>)
    requires IsJoin(rows, s, p)
    requires |ws| == |rows| && forall i :: 0 <= i < |rows| ==> ws[i] == RowWrite(rows[i])
    ensures ApplyWrites(c, ws) == Rehydrated(c, s, p)
  {
    var r, h := ApplyWrites(c, ws), Rehydrated(c, s, p);
    forall pid
      ensures (pid in r <==> pid in h) && (pid in r ==> r[pid] == h[pid])
    {
      ApplyWritesAt(c, ws, pid);
      if pid in s && pid in p {
        var i :| 0 <= i < |rows| && rows[i].productId == pid;
        DistinctWritesAt(c, ws, i);
      } else {
        MappingsForNone(ws, pid);
      }
    }
    assert r.Keys == h.Keys;
  }

  /** The cache as the batch adjustment reads it: rehydrated first when it holds no entry. */
  function Warm(c: Cache, s: Stocks, p: map<ProductId, Product>): Cache
  {
    if c == map[] then Rehydrated(c, s, p) else c
  }

  /**
   * Rehydrating an empty cache yields one entry per joined row with exactly
   * the four fields of that row, and nothing else; an empty join leaves the
   * cache empty.
   */
  lemma RehydrateEmpty(s: Stocks, p: map<ProductId, Product>)
    ensures Rehydrated(map[], s, p).Keys == Joined(s, p)
    ensures forall pid :: pid in Rehydrated(map[], s, p) ==>
      Rehydrated(map[], s, p)[pid] == Entry(Some(s[pid]), Some(p[pid].name), Some(p[pid].sku), Some(p[pid].price))
  {
  }

  /** When the join yields no row, rehydration writes nothing. */
  lemma RehydrateNothingJoined(c: Cache, s: Stocks, p: map<ProductId, Product>)
    requires Joined(s, p) == {}
    ensures Rehydrated(c, s, p) == c
  {
    forall pid | pid in s
      ensures pid !in p
    {
      assert pid !in Joined(s, p);
    }
  }

  // Batch adjustment of the cache

  /**
   * The write queued for one item: the new quantity is the cached one (0 if
   * absent) moved by the item's quantity, with the enrichment of `Payload`.
   */
  function PlannedWrite(c: Cache, p: map<ProductId, Product>, item: NormItem, op: Op): Write
  {
    Write(item.productId,
          Payload(Apply(op, CachedQuantity(c, item.productId), item.quantity), Lookup(p, item.productId), item.unitPrice))
  }

  /** The writes queued for the items, each computed from the cache as it was before the pipeline ran. */
  function Planned(c: Cache, p: map<ProductId, Product>, items: seq<OrderItem>, op: Op): seq<Write>
  {
    seq(|items|, i requires 0 <= i < |items| => PlannedWrite(c, p, Normalize(items[i]), op))
  }

  /** The cache after a batch adjustment of `items`. */
  function RedisBatch(c: Cache, s: Stocks, p: map<ProductId, Product>, items: seq<OrderItem>, op: Op): Cache
  {
    if items == [] then c
    else
      var w := Warm(c, s, p);
      ApplyWrites(w, Planned(w, p, items, op))
  }

  /**
   * For the last item naming a product: its entry exists, its quantity is
   * the pre-call quantity (after rehydration) moved by that item alone, so
   * earlier items for the same product do not compound; a known product
   * leaves exactly its four fields; an unknown one never gets a name or sku
   * written, and gets the item's unit price when it carries one.
   */
  lemma RedisBatchAt(c: Cache, s: Stocks, p: map<ProductId, Product>, items: seq<OrderItem>, op: Op, j: nat)
    requires j < |items|
    requires forall i :: j < i < |items| ==> items[i].productId != items[j].productId
    ensures var pid, w, r := items[j].productId, Warm(c, s, p), RedisBatch(c, s, p, items, op);
      var q := Apply(op, CachedQuantity(w, pid), items[j].quantity);
      && pid in r
      && r[pid].quantity == Some(q)
      && (pid in p ==> r[pid] == Entry(Some(q), Some(p[pid].name), Some(p[pid].sku), Some(p[pid].price)))
      && (pid !in p ==> r[pid].name == EntryAt(w, pid).name && r[pid].sku == EntryAt(w, pid).sku)
      && (pid !in p && items[j].unitPrice.Some? ==> r[pid].price == items[j].unitPrice)
  {
    var pid, w := items[j].productId, Warm(c, s, p);
    var ws := Planned(w, p, items, op);
    ApplyWritesAt(w, ws, pid);
    MappingsForLast(ws, pid, j);
    var ms := MappingsFor(ws, pid);
    assert ms[|ms| - 1] == ws[j].mapping;
    if pid !in p {
      forall k | 0 <= k < |ms|
        ensures ms[k].name.None? && ms[k].sku.None?
      {
        MappingsForFrom(ws, pid, k);
      }
      MergeAllKeeps(EntryAt(w, pid), ms[..|ms| - 1]);
    }
  }

  /**
   * A batch leaves every entry no item names as the read-before-write cache
   * had it (rehydrated if it was empty); for an unknown product that no item
   * gives a unit price, the price field is not written either.
   */
  lemma RedisBatchUntouched(c: Cache, s: Stocks, p: map<ProductId, Product>, items: seq<OrderItem>, op: Op, pid: ProductId)
    requires items != []
    ensures var w, r := Warm(c, s, p), RedisBatch(c, s, p, items, op);
      && ((forall i :: 0 <= i < |items| ==> items[i].productId != pid) ==>
            (pid in r <==> pid in w) && EntryAt(r, pid) == EntryAt(w, pid))
      && (pid !in p && (forall i :: 0 <= i < |items| && items[i].productId == pid ==> items[i].unitPrice.None?) ==>
            EntryAt(r, pid).price == EntryAt(w, pid).price)
  {
    var w := Warm(c, s, p);
    var ws := Planned(w, p, items, op);
    ApplyWritesAt(w, ws, pid);
    if forall i :: 0 <= i < |items| ==> items[i].productId != pid {
      MappingsForNone(ws, pid);
    }
    var ms := MappingsFor(ws, pid);
    if pid !in p && (forall i :: 0 <= i < |items| && items[i].productId == pid ==> items[i].unitPrice.None?) {
      forall k | 0 <= k < |ms|
        ensures ms[k].price.None?
      {
        MappingsForFrom(ws, pid, k);
      }
      MergeAllKeeps(EntryAt(w, pid), ms);
    }
  }

  /**
   * A cold cache is rehydrated before the first read: with stock 10 for a
   * known product and an empty cache, checking 3 in leaves quantity 13 next
   * to the product's fields.
   */
  lemma ColdCacheScenario()
    ensures var s, p := map[1 := 10], map[1 := Product("Widget", "W1", 999)];
      RedisBatch(map[], s, p, [OrderItem(Mapping, 1, 3, None)], Plus)
        == map[1 := Entry(Some(13), Some("Widget"), Some("W1"), Some(999))]
  {
    var s, p := map[1 := 10], map[1 := Product("Widget", "W1", 999)];
    var items := [OrderItem(Mapping, 1, 3, None)];
    var w := Warm(map[], s, p);
    assert w == map[1 := Entry(Some(10), Some("Widget"), Some("W1"), Some(999))];
    RedisBatchAt(map[], s, p, items, Plus, 0);
    RedisBatchUntouched(map[], s, p, items, Plus, 0);
  }

  /**
   * Two items for the same product in one batch: both read the quantity the
   * cache held before the pipeline ran, so the second write leaves 10 + 3,
   * not 10 + 3 + 3.
   */
  lemma DuplicateItemsDoNotCompound()
    ensures var c := map[1 := Entry(Some(10), None, None, None)];
      var items := [OrderItem(Object, 1, 3, None), OrderItem(Object, 1, 3, None)];
      RedisBatch(c, map[], map[], items, Plus)[1].quantity == Some(13)
  {
    var c := map[1 := Entry(Some(10), None, None, None)];
    var items := [OrderItem(Object, 1, 3, None), OrderItem(Object, 1, 3, None)];
    RedisBatchAt(c, map[], map[], items, Plus, 1);
  }

  /**
   * A batch keeps every present key holding a field: rehydration writes four
   * fields and every queued mapping carries the quantity.
   */
  lemma RedisBatchWellFormed(c: Cache, s: Stocks, p: map<ProductId, Product>, items: seq<OrderItem>, op: Op)
    requires WellFormed(c)
    ensures WellFormed(RedisBatch(c, s, p, items, op))
  {
    if items != [] {
      var w := Warm(c, s, p);
      assert WellFormed(w);
      ApplyWritesWellFormed(w, Planned(w, p, items, op));
    }
  }

  /**
   * Two isolated batches with the same items and opposite operations leave
   * every product's cached quantity as the first batch read it.
   */
  lemma OppositeBatchesRestoreQuantity(c: Cache, s: Stocks, p: map<ProductId, Product>, items: seq<OrderItem>, op: Op, pid: ProductId)
    requires items != []
    ensures var r1 := RedisBatch(c, s, p, items, op);
      CachedQuantity(RedisBatch(r1, s, p, items, Inverse(op)), pid) == CachedQuantity(Warm(c, s, p), pid)
  {
    var w, r1 := Warm(c, s, p), RedisBatch(c, s, p, items, op);
    var last := |items| - 1;
    RedisBatchAt(c, s, p, items, op, last);
    assert items[last].productId in r1;
    assert Warm(r1, s, p) == r1;
    if j :| 0 <= j < |items| && items[j].productId == pid && forall i :: j < i < |items| ==> items[i].productId != pid {
      RedisBatchAt(c, s, p, items, op, j);
      RedisBatchAt(r1, s, p, items, Inverse(op), j);
      var r2 := RedisBatch(r1, s, p, items, Inverse(op));
      assert CachedQuantity(r1, pid) == Apply(op, CachedQuantity(w, pid), items[j].quantity);
      assert CachedQuantity(r2, pid) == Apply(Inverse(op), CachedQuantity(r1, pid), items[j].quantity);
    } else {
      NamedHasLast(items, pid);
      RedisBatchUntouched(c, s, p, items, op, pid);
      RedisBatchUntouched(r1, s, p, items, Inverse(op), pid);
      assert EntryAt(r1, pid) == EntryAt(w, pid);
    }
  }

  /** A product some item names has a last item naming it. */
  lemma NamedHasLast(items: seq<OrderItem>, pid: ProductId)
    requires !exists j :: 0 <= j < |items| && items[j].productId == pid && forall i :: j < i < |items| ==> items[i].productId != pid
    ensures forall i :: 0 <= i < |items| ==> items[i].productId != pid
  {
    var k := |items|;
    while k > 0
      invariant 0 <= k <= |items|
      invariant forall i :: k <= i < |items| ==> items[i].productId != pid
    {
      k := k - 1;
      if items[k].productId == pid {
        assert false;
      }
    }
  }
}
