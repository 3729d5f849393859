/**
 * Values shared by the stock table, the product catalogue and the stock cache.
 */
module StockTypes {

  type ProductId = int

  /** A decimal price, held as an integer number of hundredths. */
  type Price = int

  datatype Option<T> = None | Some(value: T)

  /** A row of the read-only products table: only what the cache copies. */
  datatype Product = Product(name: string, sku: string, price: Price)

  /** The adjustment an operation symbol stands for: `+` or anything else (`-`). */
  datatype Op = Plus | Minus

  /** The arithmetic `quantity op qty` shared by the SQL statement and the cache path. */
  function Apply(op: Op, current: int, qty: int): int
  {
    match op
    case Plus => current + qty
    case Minus => current - qty
  }

  /** An order item is either an object with attributes or a dictionary with keys. */
  datatype Shape = Object | Mapping

  /**
   * An order item as the caller passes it: its shape, and the `product_id`,
   * `quantity` and optional `unit_price` it carries under either shape.
   */
  datatype OrderItem = OrderItem(shape: Shape, productId: ProductId, quantity: int, unitPrice: Option<Price>)

  /** The canonical tuple an order item is read into on the cache path. */
  datatype NormItem = NormItem(productId: ProductId, quantity: int, unitPrice: Option<Price>)

  function Normalize(item: OrderItem): NormItem
  {
    NormItem(item.productId, item.quantity, item.unitPrice)
  }

  function Lookup(products: map<ProductId, Product>, pid: ProductId): (r: Option<Product>)
    ensures r.Some? <==> pid in products
    ensures r.Some? ==> r.value == products[pid]
  {
    if pid in products then Some(products[pid]) else None
  }
}
