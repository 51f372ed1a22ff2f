/** Cart items as reservations: the 15-minute window, the queries the views run
    over the cart item table, and the totals and expiry computed from a cart. */
module Reservations {
  import opened Models

  /** The reservation window: 15 minutes, in seconds. */
  const Window: int := 15 * 60

  /** A reservation is due once it was created strictly before `now - Window`. */
  predicate IsExpired(x: CartItem, now: int)
  {
    x.createdAt < now - Window
  }

  /** The rows of `s` that `keep` selects, in their original order (a query filter). */
  function Filter(s: seq<CartItem>, keep: CartItem -> bool): (r: seq<CartItem>)
    ensures |r| <= |s|
    ensures forall x {:trigger x in r} :: x in r <==> x in s && keep(x)
  {
    if s == [] then []
    else (if keep(s[0]) then [s[0]] else []) + Filter(s[1..], keep)
  }

  /** What is left of `items` once every item of cart `c` is deleted: the cascade
      when the cart itself is deleted, and checkout's emptying of the cart. */
  function DropCartItems(items: seq<CartItem>, c: CartId): (r: seq<CartItem>)
    ensures forall x :: x in r <==> x in items && x.cart != c
  {
    Filter(items, (x: CartItem) => x.cart != c)
  }

  /** The due reservations, across every cart. */
  function Expired(s: seq<CartItem>, now: int): seq<CartItem>
  {
    Filter(s, (x: CartItem) => IsExpired(x, now))
  }

  /** The reservations that are not due. */
  function Live(s: seq<CartItem>, now: int): seq<CartItem>
  {
    Filter(s, (x: CartItem) => !IsExpired(x, now))
  }

  /** The items left once the rows whose ids are in `gone` are deleted. */
  function Keep(s: seq<CartItem>, gone: set<ItemId>): seq<CartItem>
  {
    Filter(s, (x: CartItem) => x.id !in gone)
  }

  /** The items of cart `c`. */
  function ItemsOf(s: seq<CartItem>, c: CartId): seq<CartItem>
  {
    Filter(s, (x: CartItem) => x.cart == c)
  }

  function IdsOf(xs: seq<CartItem>): set<ItemId>
  {
    set x | x in xs :: x.id
  }

  /** Primary keys: no two rows share an id. */
  predicate DistinctIds(s: seq<CartItem>)
  {
    forall i, j :: 0 <= i < j < |s| ==> s[i].id != s[j].id
  }

  lemma {:induction false} FilterAppend(a: seq<CartItem>, b: seq<CartItem>, keep: CartItem -> bool)
    ensures Filter(a + b, keep) == Filter(a, keep) + Filter(b, keep)
  {
    if a == [] {
      assert a + b == b;
    } else {
      var head := if keep(a[0]) then [a[0]] else [];
      assert (a + b)[0] == a[0] && (a + b)[1..] == a[1..] + b;
      FilterAppend(a[1..], b, keep);
      calc {
        Filter(a + b, keep);
        head + Filter(a[1..] + b, keep);
        head + (Filter(a[1..], keep) + Filter(b, keep));
        (head + Filter(a[1..], keep)) + Filter(b, keep);
      }
    }
  }

  lemma {:induction false} FilterKeepsAll(s: seq<CartItem>, keep: CartItem -> bool)
    requires forall x :: x in s ==> keep(x)
    ensures Filter(s, keep) == s
  {
    if s != [] {
      assert s[0] in s;
      FilterKeepsAll(s[1..], keep);
    }
  }

  lemma FilterDropsAll(s: seq<CartItem>, keep: CartItem -> bool)
    requires forall x :: x in s ==> !keep(x)
    ensures Filter(s, keep) == []
  {
  }

  /** Deleting rows keeps the remaining ids distinct. */
  lemma {:induction false} FilterDistinct(s: seq<CartItem>, keep: CartItem -> bool)
    requires DistinctIds(s)
    ensures DistinctIds(Filter(s, keep))
  {
    if s != [] {
      var t := Filter(s[1..], keep);
      FilterDistinct(s[1..], keep);
      forall x | x in t ensures x.id != s[0].id {
        var j :| 0 <= j < |s[1..]| && s[1..][j] == x;
        assert s[j + 1] == x;
      }
      if keep(s[0]) {
        var r := [s[0]] + t;
        forall i, j | 0 <= i < j < |r| ensures r[i].id != r[j].id {
          assert r[j] == t[j - 1] && r[j] in t;
        }
      }
    }
  }

  lemma {:induction false} KeepNothing(s: seq<CartItem>)
    ensures Keep(s, {}) == s
  {
    if s != [] {
      KeepNothing(s[1..]);
    }
  }

  /** Deleting the rows of `a` and then those of `b` is deleting those of `a + b`. */
  lemma {:induction false} KeepTwice(s: seq<CartItem>, a: set<ItemId>, b: set<ItemId>)
    ensures Keep(Keep(s, a), b) == Keep(s, a + b)
  {
    if s != [] {
      var head := if s[0].id !in a then [s[0]] else [];
      FilterAppend(head, Keep(s[1..], a), (x: CartItem) => x.id !in b);
      KeepTwice(s[1..], a, b);
    }
  }

  /** Deleting by id exactly the due rows leaves exactly the live rows. */
  lemma {:induction false} KeepMatchesLive(s: seq<CartItem>, gone: set<ItemId>, now: int)
    requires forall x :: x in s ==> (x.id in gone <==> IsExpired(x, now))
    ensures Keep(s, gone) == Live(s, now)
  {
    if s != [] {
      assert s[0] in s;
      KeepMatchesLive(s[1..], gone, now);
    }
  }

  /** Deleting, one by one, the rows that the due-query returned leaves the live rows. */
  lemma DeletingExpiredLeavesLive(s: seq<CartItem>, now: int)
    requires DistinctIds(s)
    ensures Keep(s, IdsOf(Expired(s, now))) == Live(s, now)
  {
    var e := Expired(s, now);
    forall x | x in s ensures x.id in IdsOf(e) <==> IsExpired(x, now) {
      if x.id in IdsOf(e) {
        var y :| y in e && y.id == x.id;
        var i :| 0 <= i < |s| && s[i] == x;
        var j :| 0 <= j < |s| && s[j] == y;
        assert i == j;
      }
    }
    KeepMatchesLive(s, IdsOf(e), now);
  }

  /** Nothing that survived a sweep at `now` is due at `now`, and a second
      filter for live items keeps them all. */
  lemma LiveIsStable(s: seq<CartItem>, now: int)
    ensures Expired(Live(s, now), now) == []
    ensures Live(Live(s, now), now) == Live(s, now)
  {
    FilterDropsAll(Live(s, now), (x: CartItem) => IsExpired(x, now));
    FilterKeepsAll(Live(s, now), (x: CartItem) => !IsExpired(x, now));
  }

  /** The items live at `later` among those live at the earlier `now` are the
      items live at `later`. */
  lemma {:induction false} LiveLater(s: seq<CartItem>, now: int, later: int)
    requires now <= later
    ensures Live(Live(s, now), later) == Live(s, later)
  {
    if s != [] {
      var head := if IsExpired(s[0], now) then [] else [s[0]];
      assert Live(s, now) == head + Live(s[1..], now);
      FilterAppend(head, Live(s[1..], now), (x: CartItem) => !IsExpired(x, later));
      if head != [] {
        assert head[1..] == [];
      }
      LiveLater(s[1..], now, later);
    }
  }

  lemma ExpiredAppend(a: seq<CartItem>, b: seq<CartItem>, now: int)
    ensures Expired(a + b, now) == Expired(a, now) + Expired(b, now)
    ensures Live(a + b, now) == Live(a, now) + Live(b, now)
  {
    FilterAppend(a, b, (x: CartItem) => IsExpired(x, now));
    FilterAppend(a, b, (x: CartItem) => !IsExpired(x, now));
  }

  /** The sum of quantity times live price over `s`. */
  function CartTotal(s: seq<CartItem>, products: map<ProductId, Product>): int
    requires forall x :: x in s ==> x.product in products
  {
    if s == [] then 0
    else CartTotal(s[..|s| - 1], products) + CartItemTotal(s[|s| - 1], products)
  }

  /** The creation time of the oldest item of a non-empty cart. */
  function OldestCreatedAt(s: seq<CartItem>): (t: int)
    requires s != []
    ensures forall x :: x in s ==> t <= x.createdAt
    ensures exists x :: x in s && x.createdAt == t
  {
    if |s| == 1 then s[0].createdAt
    else
      var rest := OldestCreatedAt(s[..|s| - 1]);
      assert forall x :: x in s ==> x in s[..|s| - 1] || x == s[|s| - 1];
      if s[|s| - 1].createdAt < rest then s[|s| - 1].createdAt else rest
  }

  /** When the cart's countdown ends: the oldest reservation's deadline, or none
      for an empty cart. */
  function ExpiresAt(s: seq<CartItem>): (r: Option<int>)
    ensures r.None? <==> s == []
    ensures r.Some? ==> forall x :: x in s ==> r.value <= x.createdAt + Window
    ensures r.Some? ==> exists x :: x in s && r.value == x.createdAt + Window
  {
    if s == [] then None else Some(OldestCreatedAt(s) + Window)
  }

  /** The order line that checkout makes from cart item `x`: product, unit and
      quantity copied, the price captured from the catalog now. */
  function Captured(x: CartItem, products: map<ProductId, Product>, o: OrderId): OrderItem
    requires x.product in products
  {
    OrderItem(o, x.product, x.stockItem, x.quantity, products[x.product].price)
  }

  /** The order lines for the items `s`, in order. */
  function Promote(s: seq<CartItem>, products: map<ProductId, Product>, o: OrderId): (r: seq<OrderItem>)
    requires forall x :: x in s ==> x.product in products
    ensures |r| == |s|
  {
    if s == [] then []
    else Promote(s[..|s| - 1], products, o) + [Captured(s[|s| - 1], products, o)]
  }

  /** Line `i` of the order copies item `i` of the cart, at its current price. */
  lemma {:induction false} PromoteCopies(s: seq<CartItem>, products: map<ProductId, Product>, o: OrderId, i: nat)
    requires forall x :: x in s ==> x.product in products
    requires i < |s|
    ensures Promote(s, products, o)[i] == Captured(s[i], products, o)
  {
    if i < |s| - 1 {
      PromoteCopies(s[..|s| - 1], products, o, i);
    }
  }

  /** The sum of quantity times captured price over `lines`. */
  function LinesTotal(lines: seq<OrderItem>): int
  {
    if lines == [] then 0
    else LinesTotal(lines[..|lines| - 1]) + OrderItemTotal(lines[|lines| - 1])
  }

  /** The cart total at checkout equals the sum of the totals of the order lines
      made from it. */
  lemma {:induction false} PromotedTotal(s: seq<CartItem>, products: map<ProductId, Product>, o: OrderId)
    requires forall x :: x in s ==> x.product in products
    ensures LinesTotal(Promote(s, products, o)) == CartTotal(s, products)
  {
    if s != [] {
      var init := s[..|s| - 1];
      var p := Promote(s, products, o);
      assert p[..|p| - 1] == Promote(init, products, o);
      PromotedTotal(init, products, o);
    }
  }
}
