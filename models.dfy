/** The storefront's records as the reservation core sees them: stock units,
    carts and their items, orders and their lines. Money is in integer cents,
    time in integer seconds. */
module Models {

  type ProductId = nat
  type SizeId = nat
  type InventoryId = nat
  type CartId = nat
  type ItemId = nat
  type UserId = nat
  type OrderId = nat

  datatype Option<T> = None | Some(value: T)

  /** A catalog entry; the core only reads its price (cents). */
  datatype Product = Product(price: int)

  /** A stock unit: one size of one product, with its available count. */
  datatype ProductInventory = ProductInventory(product: ProductId, size: SizeId, stock: nat)

  /** At most one stock unit per (product, size) pair. */
  predicate UniqueUnits(inv: map<InventoryId, ProductInventory>)
  {
    forall a, b :: a in inv && b in inv && inv[a].product == inv[b].product && inv[a].size == inv[b].size ==> a == b
  }

  /** A cart; its owner may be absent. */
  datatype Cart = Cart(user: Option<UserId>)

  /** A reservation: `quantity` units of `stockItem` held in `cart` since `createdAt`. */
  datatype CartItem = CartItem(
    id: ItemId,
    cart: CartId,
    product: ProductId,
    stockItem: Option<InventoryId>,
    quantity: nat,
    createdAt: int)

  /** A cart item's total, priced at the product's live price. */
  function CartItemTotal(x: CartItem, products: map<ProductId, Product>): int
    requires x.product in products
  {
    x.quantity * products[x.product].price
  }

  datatype Status = PendingTransfer | Confirmed | Cancelled

  /** The value a status is stored as. */
  function StatusValue(s: Status): string
  {
    match s
    case PendingTransfer => "pending_transfer"
    case Confirmed => "confirmed"
    case Cancelled => "cancelled"
  }

  /** Reads a stored status value back; anything outside the three choices is refused. */
  function ParseStatus(v: string): (r: Option<Status>)
    ensures r.Some? ==> StatusValue(r.value) == v
  {
    if v == "pending_transfer" then Some(PendingTransfer)
    else if v == "confirmed" then Some(Confirmed)
    else if v == "cancelled" then Some(Cancelled)
    else None
  }

  /** Every status is stored as a distinct value that reads back as itself. */
  lemma StatusRoundTrip(s: Status)
    ensures ParseStatus(StatusValue(s)) == Some(s)
    ensures forall t: Status :: StatusValue(t) == StatusValue(s) ==> t == s
  {
  }

  datatype Order = Order(user: Option<UserId>, total: int, status: Status)

  /** An order line: the price is a copy taken at checkout, not a link to the product. */
  datatype OrderItem = OrderItem(
    order: OrderId,
    product: ProductId,
    stockItem: Option<InventoryId>,
    quantity: nat,
    price: int)

  function OrderItemTotal(l: OrderItem): int
  {
    l.quantity * l.price
  }

  /** A cart item is priced live, an order line at its captured price: after the
      product's price changes, only the cart item's total moves. */
  lemma PriceChangeMovesCartNotOrder(x: CartItem, l: OrderItem, products: map<ProductId, Product>, newPrice: int)
    requires x.product in products
    requires l.product == x.product && l.quantity == x.quantity && l.price == products[x.product].price
    ensures OrderItemTotal(l) == CartItemTotal(x, products)
    ensures CartItemTotal(x, products[x.product := Product(newPrice)]) == x.quantity * newPrice
    ensures OrderItemTotal(l) == x.quantity * products[x.product].price
  {
  }

  /** Deleting user `u` keeps every order, with the owner cleared on `u`'s orders. */
  function DetachUser(orders: seq<Order>, u: UserId): (r: seq<Order>)
    ensures |r| == |orders|
    ensures forall i :: 0 <= i < |r| ==>
      r[i].total == orders[i].total && r[i].status == orders[i].status &&
      r[i].user == (if orders[i].user == Some(u) then None else orders[i].user)
  {
    if orders == [] then []
    else
      var o := orders[0];
      [o.(user := if o.user == Some(u) then None else o.user)] + DetachUser(orders[1..], u)
  }
}
