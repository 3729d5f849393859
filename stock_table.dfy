/**
 * The store of record: the `stocks` table as a map from product id to
 * quantity (product_id is its unique key), and the statements the batch
 * adjustment issues against it.
 */
module StockTable {
  import opened StockTypes

  type Stocks = map<ProductId, int>

  /** How the caller's order items were consumed by the batch adjustment. */
  datatype Outcome =
    | Done
      /** Reading the item at `index` with the first item's shape raised. */
    | ShapeError(index: nat)

  /** One `UPDATE stocks SET quantity = quantity op :qty WHERE product_id = :pid`. */
  function AdjustRow(s: Stocks, pid: ProductId, op: Op, qty: int): Stocks
  {
    if pid in s then s[pid := Apply(op, s[pid], qty)] else s
  }

  /** The statements for `items`, one per item, in order. */
  function AdjustAll(s: Stocks, items: seq<OrderItem>, op: Op): Stocks
    decreases |items|
  {
    if items == [] then s
    else
      var last := items[|items| - 1];
      AdjustRow(AdjustAll(s, items[..|items| - 1], op), last.productId, op, last.quantity)
  }

  /** The sum of the quantities the items carry for `pid`. */
  function QuantityFor(items: seq<OrderItem>, pid: ProductId): int
    decreases |items|
  {
    if items == [] then 0
    else
      var last := items[|items| - 1];
      QuantityFor(items[..|items| - 1], pid) + (if last.productId == pid then last.quantity else 0)
  }

  function Inverse(op: Op): Op
  {
    match op
    case Plus => Minus
    case Minus => Plus
  }

  /**
   * The statements run one after another, so repeated product ids compound:
   * every existing row moves by the total quantity the items carry for it,
   * and no row is inserted or removed.
   */
  lemma {:induction false} AdjustAllAt(s: Stocks, items: seq<OrderItem>, op: Op)
    ensures AdjustAll(s, items, op).Keys == s.Keys
    ensures forall pid :: pid in s ==> AdjustAll(s, items, op)[pid] == Apply(op, s[pid], QuantityFor(items, pid))
  {
    if items != [] {
      AdjustAllAt(s, items[..|items| - 1], op);
    }
  }

  /** Rows of products no item names are left as they were. */
  lemma UnnamedRowsUnchanged(s: Stocks, items: seq<OrderItem>, op: Op, pid: ProductId)
    requires pid in s
    requires forall i :: 0 <= i < |items| ==> items[i].productId != pid
    ensures pid in AdjustAll(s, items, op) && AdjustAll(s, items, op)[pid] == s[pid]
  {
    AdjustAllAt(s, items, op);
    QuantityForUnnamed(items, pid);
  }

  lemma {:induction false} QuantityForUnnamed(items: seq<OrderItem>, pid: ProductId)
    requires forall i :: 0 <= i < |items| ==> items[i].productId != pid
    ensures QuantityFor(items, pid) == 0
  {
    if items != [] {
      QuantityForUnnamed(items[..|items| - 1], pid);
    }
  }

  /**
   * Checking items in and then out (or out and then in) leaves the table as
   * it was.
   */
  lemma OppositeAdjustmentsCancel(s: Stocks, items: seq<OrderItem>, op: Op)
    ensures AdjustAll(AdjustAll(s, items, op), items, Inverse(op)) == s
  {
    var mid := AdjustAll(s, items, op);
    AdjustAllAt(s, items, op);
    AdjustAllAt(mid, items, Inverse(op));
    var back := AdjustAll(mid, items, Inverse(op));
    forall pid | pid in s
      ensures back[pid] == s[pid]
    {
      assert mid[pid] == Apply(op, s[pid], QuantityFor(items, pid));
    }
  }

  /**
   * The index of the first item whose shape differs from the first item's,
   * or `|items|` when they all share it.
   */
  function FirstMismatch(items: seq<OrderItem>): (k: nat)
    ensures k <= |items|
    ensures forall i :: 0 <= i < k ==> items[i].shape == items[0].shape
    ensures k < |items| ==> items[k].shape != items[0].shape
  {
    if items == [] then 0 else MismatchFrom(items, items[0].shape, 0)
  }

  function MismatchFrom(items: seq<OrderItem>, shape: Shape, i: nat): (k: nat)
    requires i <= |items|
    ensures i <= k <= |items|
    ensures forall j :: i <= j < k ==> items[j].shape == shape
    ensures k < |items| ==> items[k].shape != shape
    decreases |items| - i
  {
    if i == |items| || items[i].shape != shape then i else MismatchFrom(items, shape, i + 1)
  }
}
