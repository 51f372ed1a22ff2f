/** The storefront's reservation lifecycle: the expiry sweep, reserving a stock
    unit into the user's cart, the cart snapshot and checkout. Each operation is
    specified by a function from the database before to the database after, and
    carried out by a method of `Store` that updates the tables in place. */
module Views {
  import opened Models
  import opened Ledger
  import opened Reservations

  /** The tables the core reads and writes. Carts and orders are never deleted
      here, so a cart's id and an order's id are their positions. */
  datatype Db = Db(
    products: map<ProductId, Product>,
    inventory: Inventory,
    carts: seq<Cart>,
    items: seq<CartItem>,
    nextItemId: ItemId,
    orders: seq<Order>,
    lines: seq<OrderItem>)

  /** The database after an operation, with what the operation answered. */
  datatype Transition<O> = Transition(after: Db, outcome: O)

  /** A cart item's foreign keys resolve, and its unit is one of its own product. */
  predicate ItemRefsOk(db: Db, x: CartItem)
  {
    x.cart < |db.carts| && x.product in db.products && x.id < db.nextItemId &&
    (x.stockItem.Some? ==>
       x.stockItem.value in db.inventory && db.inventory[x.stockItem.value].product == x.product)
  }

  predicate LineRefsOk(db: Db, l: OrderItem)
  {
    l.order < |db.orders| && l.product in db.products &&
    (l.stockItem.Some? ==> l.stockItem.value in db.inventory)
  }

  /** A user owns at most one cart. */
  predicate OneCartPerUser(carts: seq<Cart>)
  {
    forall i, j :: 0 <= i < j < |carts| && carts[i].user.Some? ==> carts[i].user != carts[j].user
  }

  /** Every cart item's product is in the catalog, so it has a price. */
  predicate Priced(db: Db)
  {
    forall x :: x in db.items ==> x.product in db.products
  }

  /** `user` owns more than one cart. */
  predicate OwnsSeveralCarts(carts: seq<Cart>, user: UserId)
  {
    exists i, j :: 0 <= i < j < |carts| && carts[i].user == Some(user) && carts[j].user == Some(user)
  }

  /** The database's integrity: unique (product, size) units, foreign keys that
      resolve, distinct item ids, one cart per user. Stock counts are `nat`. */
  predicate Wf(db: Db)
  {
    UniqueUnits(db.inventory) &&
    (forall k :: k in db.inventory ==> db.inventory[k].product in db.products) &&
    (forall x :: x in db.items ==> ItemRefsOk(db, x)) &&
    DistinctIds(db.items) &&
    OneCartPerUser(db.carts) &&
    (forall l :: l in db.lines ==> LineRefsOk(db, l))
  }

  /** The first cart owned by `user`, if there is one. */
  function FindCart(carts: seq<Cart>, user: UserId): (r: Option<CartId>)
    ensures r.Some? ==> r.value < |carts| && carts[r.value].user == Some(user)
    ensures r.Some? ==> forall j :: 0 <= j < r.value ==> carts[j].user != Some(user)
    ensures r.None? ==> forall j :: 0 <= j < |carts| ==> carts[j].user != Some(user)
  {
    if carts == [] then None
    else
      match FindCart(carts[..|carts| - 1], user)
      case Some(i) => Some(i)
      case None => if carts[|carts| - 1].user == Some(user) then Some(|carts| - 1) else None
  }

  /** The expiry sweep at time `now`: every due item, in every cart, has its
      quantity credited back to its unit and is deleted. */
  function Swept(db: Db, now: int): Db
  {
    db.(inventory := CreditAll(db.inventory, Expired(db.items, now)), items := Live(db.items, now))
  }

  lemma SweptWf(db: Db, now: int)
    requires Wf(db)
    ensures Wf(Swept(db, now))
  {
    var s := Swept(db, now);
    SameUnitsKeepUnique(db.inventory, s.inventory);
    FilterDistinct(db.items, (x: CartItem) => !IsExpired(x, now));
    forall x | x in s.items ensures ItemRefsOk(s, x) {
      assert ItemRefsOk(db, x);
    }
  }

  /** One turn of the sweep's loop: crediting and deleting the next due item. */
  lemma SweepStep(inv0: Inventory, items0: seq<CartItem>, expired: seq<CartItem>, i: nat)
    requires i < |expired|
    ensures CreditAll(inv0, expired[..i + 1]) == CreditItem(CreditAll(inv0, expired[..i]), expired[i])
    ensures Keep(Keep(items0, IdsOf(expired[..i])), {expired[i].id}) == Keep(items0, IdsOf(expired[..i + 1]))
  {
    assert expired[..i + 1][..i] == expired[..i];
    KeepTwice(items0, IdsOf(expired[..i]), {expired[i].id});
    assert expired[..i + 1] == expired[..i] + [expired[i]];
    assert IdsOf(expired[..i + 1]) == IdsOf(expired[..i]) + {expired[i].id};
  }

  /** After the sweep's loop has visited every due item. */
  lemma SweepDone(items0: seq<CartItem>, now: int)
    requires DistinctIds(items0)
    ensures Keep(items0, IdsOf(Expired(items0, now)[..|Expired(items0, now)|])) == Live(items0, now)
    ensures Expired(items0, now)[..|Expired(items0, now)|] == Expired(items0, now)
  {
    var e := Expired(items0, now);
    assert e[..|e|] == e;
    DeletingExpiredLeavesLive(items0, now);
  }

  /** Every item of a cart has a product with a price. */
  lemma CartItemsPriced(db: Db, c: CartId)
    requires Priced(db)
    ensures forall x :: x in ItemsOf(db.items, c) ==> x.product in db.products
  {
  }

  /** What adding to the cart answers. `MultipleCarts` is the failure of looking
      up the user's one cart when the user owns several. */
  datatype AddOutcome = Added(item: ItemId) | NotPost | NoSelection | UnitNotFound | OutOfStock | MultipleCarts

  /** Reserving one unit of `selection` for `user` at time `now`, after the sweep.
      Only a POST that names an existing unit with stock above 0, by a user who
      owns at most one cart, changes anything. */
  function AddToCartStep(db: Db, user: UserId, isPost: bool, selection: Option<InventoryId>, now: int)
    : Transition<AddOutcome>
  {
    Reserve(Swept(db, now), user, isPost, selection, now)
  }

  /** The part of adding to the cart that follows the sweep, on the swept database `s`. */
  function Reserve(s: Db, user: UserId, isPost: bool, selection: Option<InventoryId>, now: int)
    : Transition<AddOutcome>
  {
    if !isPost then Transition(s, NotPost)
    else if selection.None? then Transition(s, NoSelection)
    else if selection.value !in s.inventory then Transition(s, UnitNotFound)
    else if s.inventory[selection.value].stock <= 0 then Transition(s, OutOfStock)
    else if OwnsSeveralCarts(s.carts, user) then Transition(s, MultipleCarts)
    else
      var k := selection.value;
      var found := FindCart(s.carts, user);
      var c := if found.Some? then found.value else |s.carts|;
      var carts := if found.Some? then s.carts else s.carts + [Cart(Some(user))];
      var item := CartItem(s.nextItemId, c, s.inventory[k].product, Some(k), 1, now);
      Transition(
        s.(carts := carts, items := s.items + [item], nextItemId := s.nextItemId + 1,
           inventory := TakeOne(s.inventory, k)),
        Added(item.id))
  }

  lemma AddToCartWf(db: Db, user: UserId, isPost: bool, selection: Option<InventoryId>, now: int)
    requires Wf(db)
    ensures Wf(AddToCartStep(db, user, isPost, selection, now).after)
  {
    SweptWf(db, now);
    ReserveWf(Swept(db, now), user, isPost, selection, now);
  }

  /** Adding to the cart on a swept database keeps its integrity. */
  lemma ReserveWf(s: Db, user: UserId, isPost: bool, selection: Option<InventoryId>, now: int)
    requires Wf(s)
    ensures Wf(Reserve(s, user, isPost, selection, now).after)
  {
    var t := Reserve(s, user, isPost, selection, now);
    if t.outcome.Added? {
      var a := t.after;
      var k := selection.value;
      var item := a.items[|a.items| - 1];
      assert a.items == s.items + [item];
      SameUnitsKeepUnique(s.inventory, a.inventory);
      forall x | x in a.items ensures ItemRefsOk(a, x) {
        if x != item {
          assert x in s.items && ItemRefsOk(s, x);
        }
      }
      forall i, j | 0 <= i < j < |a.items| ensures a.items[i].id != a.items[j].id {
        if j < |s.items| {
          assert a.items[i] == s.items[i] && a.items[j] == s.items[j];
        } else {
          assert a.items[i] == s.items[i] && s.items[i] in s.items && ItemRefsOk(s, s.items[i]);
        }
      }
      forall l | l in a.lines ensures LineRefsOk(a, l) {
        assert LineRefsOk(s, l);
      }
    }
  }

  datatype CheckoutOutcome = EmptyCart | Review(total: int) | Placed(order: OrderId, total: int)

  /** Checkout for `user` at time `now`, after the sweep. A missing or empty cart
      is refused; a GET only shows the total; a POST records one pending order
      with a line per item at today's prices and empties the cart. Stock is not
      touched. */
  function CheckoutStep(db: Db, user: UserId, isPost: bool, now: int): Transition<CheckoutOutcome>
    requires Priced(db)
  {
    var s := Swept(db, now);
    assert Priced(s);
    PlaceOrder(s, user, isPost)
  }

  /** The part of checkout that follows the sweep, on the swept database `s`. */
  function PlaceOrder(s: Db, user: UserId, isPost: bool): Transition<CheckoutOutcome>
    requires Priced(s)
  {
    var found := FindCart(s.carts, user);
    if found.None? then Transition(s, EmptyCart)
    else
      var mine := ItemsOf(s.items, found.value);
      if mine == [] then Transition(s, EmptyCart)
      else
        CartItemsPriced(s, found.value);
        var total := CartTotal(mine, s.products);
        if !isPost then Transition(s, Review(total))
        else
          var o := |s.orders|;
          Transition(
            s.(orders := s.orders + [Order(Some(user), total, PendingTransfer)],
               lines := s.lines + Promote(mine, s.products, o),
               items := DropCartItems(s.items, found.value)),
            Placed(o, total))
  }

  lemma CheckoutWf(db: Db, user: UserId, isPost: bool, now: int)
    requires Wf(db)
    ensures Wf(CheckoutStep(db, user, isPost, now).after)
  {
    SweptWf(db, now);
    PlaceOrderWf(Swept(db, now), user, isPost);
  }

  /** Checkout on a swept database keeps its integrity. */
  lemma PlaceOrderWf(s: Db, user: UserId, isPost: bool)
    requires Wf(s)
    ensures Wf(PlaceOrder(s, user, isPost).after)
  {
    var t := PlaceOrder(s, user, isPost);
    if t.outcome.Placed? {
      var a := t.after;
      var c := FindCart(s.carts, user).value;
      var mine := ItemsOf(s.items, c);
      var o := |s.orders|;
      FilterDistinct(s.items, (x: CartItem) => x.cart != c);
      forall x | x in a.items ensures ItemRefsOk(a, x) {
        assert x in s.items && ItemRefsOk(s, x);
      }
      forall l | l in a.lines ensures LineRefsOk(a, l) {
        if l in s.lines {
          assert LineRefsOk(s, l);
        } else {
          var p := Promote(mine, s.products, o);
          assert l in p;
          var i :| 0 <= i < |p| && p[i] == l;
          PromoteCopies(mine, s.products, o, i);
          assert mine[i] in mine && ItemRefsOk(s, mine[i]);
        }
      }
    }
  }

  /** One turn of checkout's loop: the line for the next item. */
  lemma PromoteStep(s: seq<CartItem>, products: map<ProductId, Product>, o: OrderId, i: nat)
    requires i < |s| && forall x :: x in s ==> x.product in products
    ensures Promote(s[..i + 1], products, o) == Promote(s[..i], products, o) + [Captured(s[i], products, o)]
  {
    assert s[..i + 1][..i] == s[..i];
  }

  /** What the cart page shows: the cart, its items, their live total and when
      the countdown ends. */
  datatype CartView = CartView(cart: Option<CartId>, items: seq<CartItem>, total: int, expiresAt: Option<int>)

  /** The cart page for `user`, read from an already swept database. */
  function CartSnapshot(db: Db, user: UserId): CartView
    requires Priced(db)
  {
    match FindCart(db.carts, user)
    case None => CartView(None, [], 0, None)
    case Some(c) =>
      var mine := ItemsOf(db.items, c);
      CartItemsPriced(db, c);
      CartView(Some(c), mine, CartTotal(mine, db.products), ExpiresAt(mine))
  }

  /** The storefront's tables, updated in place by the views. */
  class Store {
    var products: map<ProductId, Product>
    var inventory: Inventory
    var carts: seq<Cart>
    var items: seq<CartItem>
    var nextItemId: ItemId
    var orders: seq<Order>
    var lines: seq<OrderItem>

    function State(): Db
      reads this
    {
      Db(products, inventory, carts, items, nextItemId, orders, lines)
    }

    predicate Valid()
      reads this
    {
      Wf(State())
    }

    /** A store with a catalog and stock units, and no carts or orders yet. */
    constructor (products: map<ProductId, Product>, inventory: Inventory)
      requires Wf(Db(products, inventory, [], [], 0, [], []))
      ensures Valid() && State() == Db(products, inventory, [], [], 0, [], [])
    {
      this.products := products;
      this.inventory := inventory;
      carts := [];
      items := [];
      nextItemId := 0;
      orders := [];
      lines := [];
    }

    /** The expiry sweep: credits and deletes each due item in turn. */
    method ReleaseExpiredStock(now: int)
      requires Valid()
      modifies this
      ensures Valid()
      ensures State() == Swept(old(State()), now)
    {
      ghost var db0 := State();
      var expired := Expired(items, now);
      ghost var items0, inv0 := items, inventory;
      KeepNothing(items0);
      assert IdsOf(expired[..0]) == {};
      var i := 0;
      while i < |expired|
        invariant 0 <= i <= |expired|
        invariant State() == db0.(inventory := CreditAll(inv0, expired[..i]), items := Keep(items0, IdsOf(expired[..i])))
      {
        var item := expired[i];
        SweepStep(inv0, items0, expired, i);
        if item.stockItem.Some? {
          inventory := Credit(inventory, item.stockItem.value, item.quantity);
        }
        items := Keep(items, {item.id});
        i := i + 1;
      }
      SweepDone(items0, now);
      SweptWf(db0, now);
    }

    /** Reserves one unit of `selection` for `user`. */
    method AddToCart(user: UserId, isPost: bool, selection: Option<InventoryId>, now: int) returns (r: AddOutcome)
      requires Valid()
      modifies this
      ensures Valid()
      ensures Transition(State(), r) == AddToCartStep(old(State()), user, isPost, selection, now)
    {
      ReleaseExpiredStock(now);
      ghost var swept := State();
      assert AddToCartStep(old(State()), user, isPost, selection, now) == Reserve(swept, user, isPost, selection, now);
      if !isPost {
        return NotPost;
      }
      if selection.None? {
        return NoSelection;
      }
      var k := selection.value;
      if k !in inventory {
        return UnitNotFound;
      }
      if inventory[k].stock <= 0 {
        return OutOfStock;
      }
      // The store's integrity keeps one cart per user, so the lookup of the
      // user's cart cannot find several.
      assert !OwnsSeveralCarts(carts, user);
      var c;
      match FindCart(carts, user) {
        case Some(found) =>
          c := found;
        case None =>
          c := |carts|;
          carts := carts + [Cart(Some(user))];
      }
      var id := nextItemId;
      var item := CartItem(id, c, inventory[k].product, Some(k), 1, now);
      items, nextItemId := items + [item], nextItemId + 1;
      inventory := TakeOne(inventory, k);
      r := Added(id);
      assert State() == Reserve(swept, user, isPost, selection, now).after;
      ReserveWf(swept, user, isPost, selection, now);
    }

    /** The cart page: sweeps, then reads the user's cart. */
    method CartDetail(user: UserId, now: int) returns (v: CartView)
      requires Valid()
      modifies this
      ensures Valid()
      ensures State() == Swept(old(State()), now)
      ensures v == CartSnapshot(State(), user)
    {
      ReleaseExpiredStock(now);
      v := CartSnapshot(State(), user);
    }

    /** Creates the order lines of order `o`, one per item of `mine`, in turn. */
    method CreateLines(mine: seq<CartItem>, o: OrderId)
      requires forall x :: x in mine ==> x.product in products
      modifies this`lines
      ensures lines == old(lines) + Promote(mine, products, o)
    {
      var i := 0;
      while i < |mine|
        invariant 0 <= i <= |mine|
        invariant lines == old(lines) + Promote(mine[..i], products, o)
      {
        PromoteStep(mine, products, o, i);
        lines := lines + [Captured(mine[i], products, o)];
        i := i + 1;
      }
      assert mine[..i] == mine;
    }

    /** Checkout: records the cart as one pending order and empties the cart. */
    method Checkout(user: UserId, isPost: bool, now: int) returns (r: CheckoutOutcome)
      requires Valid()
      modifies this
      ensures Valid()
      ensures Transition(State(), r) == CheckoutStep(old(State()), user, isPost, now)
    {
      ReleaseExpiredStock(now);
      ghost var swept := State();
      assert CheckoutStep(old(State()), user, isPost, now) == PlaceOrder(swept, user, isPost);
      PlaceOrderWf(swept, user, isPost);
      var found := FindCart(carts, user);
      if found.None? {
        return EmptyCart;
      }
      var c := found.value;
      var mine := ItemsOf(items, c);
      if mine == [] {
        return EmptyCart;
      }
      CartItemsPriced(swept, c);
      var total := CartTotal(mine, products);
      if !isPost {
        return Review(total);
      }
      var o := |orders|;
      orders := orders + [Order(Some(user), total, PendingTransfer)];
      CreateLines(mine, o);
      items := DropCartItems(items, c);
      r := Placed(o, total);
      assert State() == PlaceOrder(swept, user, isPost).after;
    }
  }
}
