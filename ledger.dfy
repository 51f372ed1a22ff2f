/** The inventory table: available stock per stock unit, debited one unit when a
    reservation is made and credited back when a reservation expires. */
module Ledger {
  import opened Models

  type Inventory = map<InventoryId, ProductInventory>

  /** `b` has the same stock units as `a`, each for the same product and size;
      only the stock counts may differ. */
  predicate SameUnits(a: Inventory, b: Inventory)
  {
    a.Keys == b.Keys &&
    forall k :: k in a ==> a[k].product == b[k].product && a[k].size == b[k].size
  }

  /** Changing stock counts alone cannot create a second unit for a (product, size) pair. */
  lemma SameUnitsKeepUnique(a: Inventory, b: Inventory)
    requires SameUnits(a, b) && UniqueUnits(a)
    ensures UniqueUnits(b)
  {
  }

  /** Puts `qty` units back on unit `k`; a unit that no longer exists is skipped. */
  function Credit(inv: Inventory, k: InventoryId, qty: nat): (r: Inventory)
    ensures SameUnits(inv, r)
    ensures k in inv ==> r[k].stock == inv[k].stock + qty
    ensures forall j :: j in inv && j != k ==> r[j] == inv[j]
  {
    if k in inv then inv[k := inv[k].(stock := inv[k].stock + qty)] else inv
  }

  /** Takes one unit off `k`. Only possible while stock is above 0, so no count
      ever goes negative. */
  function TakeOne(inv: Inventory, k: InventoryId): (r: Inventory)
    requires k in inv && inv[k].stock > 0
    ensures SameUnits(inv, r)
    ensures r[k].stock + 1 == inv[k].stock
    ensures forall j :: j in inv && j != k ==> r[j] == inv[j]
  {
    inv[k := inv[k].(stock := inv[k].stock - 1)]
  }

  /** A credit of one exactly reverses a debit of one, and the other way round. */
  lemma CreditReversesTakeOne(inv: Inventory, k: InventoryId)
    requires k in inv
    ensures inv[k].stock > 0 ==> Credit(TakeOne(inv, k), k, 1) == inv
    ensures TakeOne(Credit(inv, k, 1), k) == inv
  {
  }

  /** The credit for one released cart item: its quantity back on its unit, or
      nothing when it has no unit. */
  function CreditItem(inv: Inventory, x: CartItem): Inventory
  {
    match x.stockItem
    case None => inv
    case Some(k) => Credit(inv, k, x.quantity)
  }

  /** The total quantity that the items `xs` hold on unit `k`. */
  function Held(xs: seq<CartItem>, k: InventoryId): nat
  {
    if xs == [] then 0
    else Held(xs[..|xs| - 1], k) + (if xs[|xs| - 1].stockItem == Some(k) then xs[|xs| - 1].quantity else 0)
  }

  /** Units that no item of `xs` refers to hold nothing from them. */
  lemma {:induction false} HeldNothing(xs: seq<CartItem>, k: InventoryId)
    requires forall x :: x in xs ==> x.stockItem != Some(k)
    ensures Held(xs, k) == 0
  {
    if xs != [] {
      assert xs[|xs| - 1] in xs;
      HeldNothing(xs[..|xs| - 1], k);
    }
  }

  /** What two batches of items hold on a unit adds up. */
  lemma {:induction false} HeldAppend(a: seq<CartItem>, b: seq<CartItem>, k: InventoryId)
    ensures Held(a + b, k) == Held(a, k) + Held(b, k)
  {
    if b == [] {
      assert a + b == a;
    } else {
      var init := b[..|b| - 1];
      assert (a + b)[..|a + b| - 1] == a + init;
      HeldAppend(a, init, k);
    }
  }

  /** Credits every item of `xs` in turn: each existing unit gains exactly what
      the items hold on it, and no unit appears, disappears or changes identity. */
  function CreditAll(inv: Inventory, xs: seq<CartItem>): (r: Inventory)
    ensures SameUnits(inv, r)
    ensures forall k :: k in inv ==> r[k].stock == inv[k].stock + Held(xs, k)
  {
    if xs == [] then inv
    else CreditItem(CreditAll(inv, xs[..|xs| - 1]), xs[|xs| - 1])
  }

  /** Debiting one unit of `k` and later crediting a batch that ends with an
      item holding one unit of `k` is crediting the batch without that item. */
  lemma CreditAllCancelsTakeOne(inv: Inventory, k: InventoryId, xs: seq<CartItem>, item: CartItem)
    requires k in inv && inv[k].stock > 0
    requires item.stockItem == Some(k) && item.quantity == 1
    ensures CreditAll(TakeOne(inv, k), xs + [item]) == CreditAll(inv, xs)
  {
    var lhs := CreditAll(TakeOne(inv, k), xs + [item]);
    var rhs := CreditAll(inv, xs);
    assert (xs + [item])[..|xs|] == xs;
    forall j | j in inv
      ensures lhs[j] == rhs[j]
    {
      HeldAppend(xs, [item], j);
      assert [item][..0] == [];
    }
  }
}
