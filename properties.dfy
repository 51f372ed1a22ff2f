/** What the reservation lifecycle promises, stated over the operations'
    specifications in `Views`. */
module Properties {
  import opened Models
  import opened Ledger
  import opened Reservations
  import opened Views

  // ---------------------------------------------------------------------------
  // The expiry sweep

  /** A sweep at `now` keeps exactly the items created at or after
      `now - Window`; the boundary is strict, so an item exactly 15 minutes old
      stays. */
  lemma SweepKeepsExactlyLive(db: Db, now: int, x: CartItem)
    ensures x in Swept(db, now).items <==> x in db.items && x.createdAt >= now - Window
  {
  }

  /** An item created at `t` survives a sweep at `t + Window` and is released by
      a sweep at `t + Window + 1`. */
  lemma ExpiryBoundary(db: Db, x: CartItem)
    requires x in db.items
    ensures x in Swept(db, x.createdAt + Window).items
    ensures x !in Swept(db, x.createdAt + Window + 1).items
  {
    SweepKeepsExactlyLive(db, x.createdAt + Window, x);
    SweepKeepsExactlyLive(db, x.createdAt + Window + 1, x);
  }

  /** Each unit gains exactly the quantity that the released items held on it,
      and keeps its product and size. */
  lemma SweepCreditsHeldStock(db: Db, now: int, k: InventoryId)
    requires k in db.inventory
    ensures k in Swept(db, now).inventory
    ensures Swept(db, now).inventory[k]
         == db.inventory[k].(stock := db.inventory[k].stock + Held(Expired(db.items, now), k))
  {
  }

  /** A unit that no released item refers to keeps its count. */
  lemma SweepSparesUnheldUnits(db: Db, now: int, k: InventoryId)
    requires k in db.inventory
    requires forall x :: x in db.items && IsExpired(x, now) ==> x.stockItem != Some(k)
    ensures Swept(db, now).inventory[k] == db.inventory[k]
  {
    HeldNothing(Expired(db.items, now), k);
  }

  /** An expired item without a stock unit, wherever it sits in the table, is
      deleted and credits nothing: the sweep ends as if it had never been there. */
  lemma SweepDropsUnitlessItem(db: Db, a: seq<CartItem>, x: CartItem, b: seq<CartItem>, now: int)
    requires IsExpired(x, now) && x.stockItem.None?
    ensures Swept(db.(items := a + [x] + b), now) == Swept(db.(items := a + b), now)
  {
    var ea, eb := Expired(a, now), Expired(b, now);
    ExpiredAppend(a + [x], b, now);
    ExpiredAppend(a, [x], now);
    ExpiredAppend(a, b, now);
    FilterKeepsAll([x], (y: CartItem) => IsExpired(y, now));
    HeldExpiredOne(x, now, 0);
    assert Expired(a + [x] + b, now) == (ea + [x]) + eb;
    assert Live(a + [x] + b, now) == Live(a + b, now);
    var lhs := Swept(db.(items := a + [x] + b), now).inventory;
    var rhs := Swept(db.(items := a + b), now).inventory;
    forall j | j in db.inventory
      ensures lhs[j] == rhs[j]
    {
      HeldAppend(ea + [x], eb, j);
      HeldAppend(ea, [x], j);
      HeldAppend(ea, eb, j);
      HeldNothing([x], j);
    }
  }

  /** Sweeping twice at the same time changes nothing the second time. */
  lemma SweepIdempotent(db: Db, now: int)
    ensures Swept(Swept(db, now), now) == Swept(db, now)
    ensures Expired(Swept(db, now).items, now) == []
  {
    LiveIsStable(db.items, now);
  }

  // ---------------------------------------------------------------------------
  // Reserving a unit

  /** A reservation is made exactly on a POST that names an existing unit with
      stock above 0, by a user who owns at most one cart; every other request
      leaves the swept database as it is: no item, no cart, no stock change. */
  lemma AddToCartSucceedsOnlyWithStock(db: Db, user: UserId, isPost: bool, selection: Option<InventoryId>, now: int)
    ensures var s := Swept(db, now);
            AddToCartStep(db, user, isPost, selection, now).outcome.Added? <==>
              isPost && selection.Some? && selection.value in s.inventory && s.inventory[selection.value].stock > 0 &&
              !OwnsSeveralCarts(s.carts, user)
    ensures var t := AddToCartStep(db, user, isPost, selection, now);
            !t.outcome.Added? ==> t.after == Swept(db, now)
    ensures !isPost ==> AddToCartStep(db, user, isPost, selection, now).outcome == NotPost
    ensures isPost && selection.None? ==> AddToCartStep(db, user, isPost, selection, now).outcome == NoSelection
    ensures var s := Swept(db, now);
            isPost && selection.Some? && selection.value in s.inventory && s.inventory[selection.value].stock > 0 &&
            OwnsSeveralCarts(s.carts, user) ==>
              AddToCartStep(db, user, isPost, selection, now).outcome == MultipleCarts
  {
  }

  /** While the database keeps its integrity, a user owns at most one cart, so
      adding to the cart never fails on finding several. */
  lemma AddToCartNeverFindsSeveralCarts(db: Db, user: UserId, isPost: bool, selection: Option<InventoryId>, now: int)
    requires Wf(db)
    ensures !OwnsSeveralCarts(Swept(db, now).carts, user)
    ensures AddToCartStep(db, user, isPost, selection, now).outcome != MultipleCarts
  {
    SweptWf(db, now);
  }

  /** A successful reservation appends one item of quantity 1 on the chosen unit
      to the user's only cart (made if missing), takes exactly one unit of stock
      from that unit and leaves every other unit, and the orders, alone. */
  lemma AddToCartReservesOne(db: Db, user: UserId, k: InventoryId, now: int)
    requires Wf(db)
    requires k in Swept(db, now).inventory && Swept(db, now).inventory[k].stock > 0
    ensures var s := Swept(db, now);
            var t := AddToCartStep(db, user, true, Some(k), now);
            var a := t.after;
            && t.outcome.Added?
            && |a.items| == |s.items| + 1 && a.items[..|s.items|] == s.items
            && a.items[|s.items|].id == t.outcome.item
            && a.items[|s.items|].quantity == 1
            && a.items[|s.items|].stockItem == Some(k)
            && a.items[|s.items|].product == s.inventory[k].product
            && a.items[|s.items|].createdAt == now
            && (FindCart(s.carts, user).Some? ==> a.carts == s.carts)
            && (FindCart(s.carts, user).None? ==> a.carts == s.carts + [Cart(Some(user))])
            && (forall j :: 0 <= j < |a.carts| && a.carts[j].user == Some(user) <==> j == a.items[|s.items|].cart)
            && a.inventory.Keys == s.inventory.Keys
            && a.inventory[k].stock + 1 == s.inventory[k].stock
            && (forall j :: j in s.inventory && j != k ==> a.inventory[j] == s.inventory[j])
            && a.orders == s.orders && a.lines == s.lines
  {
    var s := Swept(db, now);
    SweptWf(db, now);
    var a := AddToCartStep(db, user, true, Some(k), now).after;
    var found := FindCart(s.carts, user);
    var item := a.items[|s.items|];
    assert a.items == s.items + [item];
    if found.None? {
      assert a.carts == s.carts + [Cart(Some(user))];
      assert forall j :: 0 <= j < |s.carts| ==> a.carts[j] == s.carts[j];
    } else {
      assert OneCartPerUser(s.carts);
    }
  }

  /** What a one-item batch holds on a unit, once filtered by a due-query. */
  lemma HeldExpiredOne(x: CartItem, t: int, k: InventoryId)
    ensures Held(Expired([x], t), k) == if IsExpired(x, t) && x.stockItem == Some(k) then x.quantity else 0
    ensures Live([x], t) == if IsExpired(x, t) then [] else [x]
  {
    assert [x][1..] == [];
    assert Held([x], k) == Held([x][..0], k) + (if x.stockItem == Some(k) then x.quantity else 0);
  }

  /** A sweep at `later` releases what a sweep at the earlier `now` released,
      plus what a sweep at `later` releases from the items that survived `now`. */
  lemma {:induction false} HeldLaterSweep(s: seq<CartItem>, now: int, later: int, k: InventoryId)
    requires now <= later
    ensures Held(Expired(s, later), k) == Held(Expired(s, now), k) + Held(Expired(Live(s, now), later), k)
  {
    if s != [] {
      var init, x := s[..|s| - 1], s[|s| - 1];
      assert s == init + [x];
      ExpiredAppend(init, [x], now);
      ExpiredAppend(init, [x], later);
      ExpiredAppend(Live(init, now), Live([x], now), later);
      HeldAppend(Expired(init, later), Expired([x], later), k);
      HeldAppend(Expired(init, now), Expired([x], now), k);
      HeldAppend(Expired(Live(init, now), later), Expired(Live([x], now), later), k);
      HeldExpiredOne(x, now, k);
      HeldExpiredOne(x, later, k);
      assert Expired([], later) == [];
      HeldLaterSweep(init, now, later, k);
    }
  }

  /** A sweep at `now` followed by one at a later time is the later sweep alone. */
  lemma SweepsCompose(db: Db, now: int, later: int)
    requires now <= later
    ensures Swept(Swept(db, now), later) == Swept(db, later)
  {
    LiveLater(db.items, now, later);
    var lhs := Swept(Swept(db, now), later).inventory;
    var rhs := Swept(db, later).inventory;
    forall j | j in db.inventory
      ensures lhs[j] == rhs[j]
    {
      HeldLaterSweep(db.items, now, later, j);
    }
  }

  /** A reservation that expires before checkout gives back exactly the stock it
      took: reserving at `now` and sweeping at `later`, more than 15 minutes on,
      leaves every unit as sweeping at `later` alone does. */
  lemma ExpiredReservationRestoresStock(db: Db, user: UserId, k: InventoryId, now: int, later: int)
    requires Wf(db)
    requires k in Swept(db, now).inventory && Swept(db, now).inventory[k].stock > 0
    requires now < later - Window
    ensures AddToCartStep(db, user, true, Some(k), now).outcome.Added?
    ensures Swept(AddToCartStep(db, user, true, Some(k), now).after, later).inventory == Swept(db, later).inventory
  {
    AddToCartReservesOne(db, user, k, now);
    var s := Swept(db, now);
    var a := AddToCartStep(db, user, true, Some(k), now).after;
    var item := a.items[|a.items| - 1];
    assert a.items == s.items + [item] && a.inventory == TakeOne(s.inventory, k);
    ExpiredAppend(s.items, [item], later);
    FilterKeepsAll([item], (y: CartItem) => IsExpired(y, later));
    assert Expired(a.items, later) == Expired(s.items, later) + [item];
    CreditAllCancelsTakeOne(s.inventory, k, Expired(s.items, later), item);
    SweepsCompose(db, now, later);
  }

  // ---------------------------------------------------------------------------
  // Checkout

  /** Checkout is refused exactly when, after the sweep, the user has no cart or
      an empty one; a refused checkout and a GET record no order and change
      nothing beyond the sweep. */
  lemma CheckoutRefusesEmptyCart(db: Db, user: UserId, isPost: bool, now: int)
    requires Priced(db)
    ensures var s := Swept(db, now);
            var found := FindCart(s.carts, user);
            CheckoutStep(db, user, isPost, now).outcome == EmptyCart <==>
              found.None? || ItemsOf(s.items, found.value) == []
    ensures var t := CheckoutStep(db, user, isPost, now);
            !t.outcome.Placed? ==> t.after == Swept(db, now)
    ensures !isPost ==> !CheckoutStep(db, user, isPost, now).outcome.Placed?
  {
  }

  /** A POST checkout on a non-empty cart records one pending order for the
      user, followed by one line per cart item; the lines add up to the
      order's total. */
  lemma CheckoutPlacesOrder(db: Db, user: UserId, now: int, c: CartId)
    requires Priced(db)
    requires FindCart(Swept(db, now).carts, user) == Some(c)
    requires ItemsOf(Swept(db, now).items, c) != []
    ensures var s := Swept(db, now);
            var mine := ItemsOf(s.items, c);
            var t := CheckoutStep(db, user, true, now);
            var a := t.after;
            && t.outcome.Placed? && t.outcome.order == |s.orders|
            && a.orders == s.orders + [Order(Some(user), t.outcome.total, PendingTransfer)]
            && |a.lines| == |s.lines| + |mine| && a.lines[..|s.lines|] == s.lines
            && LinesTotal(a.lines[|s.lines|..]) == t.outcome.total
  {
    var s := Swept(db, now);
    var mine := ItemsOf(s.items, c);
    assert Priced(s);
    CartItemsPriced(s, c);
    var a := CheckoutStep(db, user, true, now).after;
    var p := Promote(mine, s.products, |s.orders|);
    assert a.lines == s.lines + p;
    assert a.lines[|s.lines|..] == p;
    PromotedTotal(mine, s.products, |s.orders|);
  }

  /** The same checkout's i-th new line copies the i-th cart item's product,
      unit and quantity, at its product's price of the moment. */
  lemma CheckoutCopiesItems(db: Db, user: UserId, now: int, c: CartId)
    requires Priced(db)
    requires FindCart(Swept(db, now).carts, user) == Some(c)
    requires ItemsOf(Swept(db, now).items, c) != []
    ensures forall x :: x in ItemsOf(Swept(db, now).items, c) ==> x.product in Swept(db, now).products
    ensures var s := Swept(db, now);
            var mine := ItemsOf(s.items, c);
            var a := CheckoutStep(db, user, true, now).after;
            && |a.lines| == |s.lines| + |mine|
            && forall i :: 0 <= i < |mine| ==>
                 a.lines[|s.lines| + i] == OrderItem(|s.orders|, mine[i].product, mine[i].stockItem, mine[i].quantity,
                                                     s.products[mine[i].product].price)
  {
    var s := Swept(db, now);
    var mine := ItemsOf(s.items, c);
    assert Priced(s);
    CartItemsPriced(s, c);
    var a := CheckoutStep(db, user, true, now).after;
    var p := Promote(mine, s.products, |s.orders|);
    assert a.lines == s.lines + p;
    forall i | 0 <= i < |mine|
      ensures a.lines[|s.lines| + i] == OrderItem(|s.orders|, mine[i].product, mine[i].stockItem, mine[i].quantity,
                                                  s.products[mine[i].product].price)
    {
      PromoteCopies(mine, s.products, |s.orders|, i);
    }
  }

  /** The same checkout deletes every item of the user's cart and no other, and
      touches no stock count and no cart. */
  lemma CheckoutEmptiesCart(db: Db, user: UserId, now: int, c: CartId)
    requires Priced(db)
    requires FindCart(Swept(db, now).carts, user) == Some(c)
    requires ItemsOf(Swept(db, now).items, c) != []
    ensures var s := Swept(db, now);
            var t := CheckoutStep(db, user, true, now);
            var a := t.after;
            && t.outcome.Placed?
            && ItemsOf(a.items, c) == []
            && (forall x :: x in a.items <==> x in s.items && x.cart != c)
            && a.inventory == s.inventory && a.carts == s.carts && a.products == s.products
  {
    var a := CheckoutStep(db, user, true, now).after;
    FilterDropsAll(a.items, (x: CartItem) => x.cart == c);
  }

  // ---------------------------------------------------------------------------
  // The cart page

  /** The cart page lists exactly the user's items; its countdown ends at the
      oldest item's deadline, and there is none for an empty cart. */
  lemma CartSnapshotShowsOwnItems(db: Db, user: UserId)
    requires Priced(db)
    ensures var v := CartSnapshot(db, user);
            && v.cart == FindCart(db.carts, user)
            && (forall x :: x in v.items <==> x in db.items && v.cart == Some(x.cart))
            && (v.expiresAt.None? <==> v.items == [])
            && (v.expiresAt.Some? ==> forall x :: x in v.items ==> v.expiresAt.value <= x.createdAt + Window)
            && (v.expiresAt.Some? ==> exists x :: x in v.items && v.expiresAt.value == x.createdAt + Window)
  {
  }

  /** The total the cart page shows after a sweep is the total that a checkout
      at the same moment charges. */
  lemma CheckoutChargesShownTotal(db: Db, user: UserId, isPost: bool, now: int)
    requires Priced(db)
    ensures Priced(Swept(db, now))
    ensures var t := CheckoutStep(db, user, isPost, now);
            (t.outcome.Placed? || t.outcome.Review?) ==>
              t.outcome.total == CartSnapshot(Swept(db, now), user).total
  {
  }
}
