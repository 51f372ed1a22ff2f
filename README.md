# Stock reservations of the clothing storefront

This project models the storefront's stock-reservation lifecycle and proves
what it promises. Putting a size of a product in the cart reserves one unit.
The reservation is taken from that stock unit's count at once. A reservation
older than 15 minutes is released by a sweep that every cart view runs
first: the quantity goes back on the unit and the cart item is deleted.
Checkout turns the remaining cart items into an order pending bank transfer,
with the prices of that moment, and empties the cart. The units stay debited.

Modules:

- `Models` holds the records: stock units (`ProductInventory`, at most one
  per product and size), carts, cart items, orders with their three statuses,
  and order lines. Cart items are priced at the live product price. Order
  lines are priced at the price captured at checkout.
- `Ledger` holds the inventory as a map from unit id to unit, with the
  one-unit debit (`TakeOne`) and the credit of a released quantity
  (`Credit`, `CreditAll`).
- `Reservations` holds the 15-minute window, the queries over the cart item
  table (due items, live items, deletion by id, items of a cart, the items
  left once a cart's items are deleted), the cart total, the countdown end
  and the promotion of cart items to order lines.
- `Views` holds the tables as one `Db` value. Each view is specified by a
  function from the database before to the database after, together with
  what the view answers: `Swept`, `AddToCartStep`, `CheckoutStep` and
  `CartSnapshot`. The class `Store` holds the same tables as fields. Its
  methods update them in place and are proved equal to those functions.
  The sweep is a loop over the due items, as in `release_expired_stock`.
- `Properties` holds the lemmas that state the lifecycle's promises over
  the spec functions.

Representation:

- Time is integer seconds and the window is 900 seconds.
- An item is due when `createdAt < now - 900`. The boundary is strict, so an
  item exactly 15 minutes old is kept.
- Money is integer cents.
- Carts and orders are never deleted by these views, so their ids are their
  positions in their tables. Cart item ids come from a counter.
- The current time, the request method, the posted `inventory_id` and the
  logged-in user are parameters of the operations.

Behaviour of the views that the model keeps:

- The add-to-cart view checks `stock <= 0` and always reserves a quantity
  of 1. It checks the stock before it looks up or creates the cart and the
  item, and debits the stock afterwards.
- Looking up the user's cart with `get_or_create` fails when the user owns
  several carts. This is the `MultipleCarts` outcome. It happens after the
  sweep and before any item is created, so the database is only swept.
- A GET of the checkout view on a non-empty cart shows a review with the
  total. It records nothing. This is `Review(total)`.
- The sweep returns nothing.

The database's integrity, `Views.Wf`, is an invariant of the views rather
than a constraint of the tables:
- one cart per user;
- every foreign key resolves;
- a cart item's stock unit belongs to the item's own product;
- item ids are distinct and below the next id.

`Store`'s constructor sets it up on empty tables, and every `Store` method
keeps it. Checkout and the cart page need only that every cart item's
product is in the catalog (`Views.Priced`).

## Model

| member | source | states |
|---|---|---|
| Models.ParseStatus | store/models.py:93-96 | a stored status value reads back only as the status that is stored as that value; anything else is refused |
| Models.StatusRoundTrip | store/models.py:93-96 | each of the three statuses is stored as a distinct value that reads back as itself |
| Models.PriceChangeMovesCartNotOrder | store/models.py:87-89 | a cart item's total is quantity times the product's live price and moves with a price change; the order line made from it keeps the captured total |
| Reservations.Filter | store/views.py:14 | a query keeps exactly the rows its condition selects, and never more rows than it was given |
| Reservations.DropCartItems | store/models.py:76 | deleting a cart's items (the cascade of a cart deletion) leaves exactly the items of other carts |
| Models.DetachUser | store/models.py:98-104 | deleting a user keeps every order with its total and status, and clears the owner of that user's orders |
| Ledger.SameUnitsKeepUnique | store/models.py:51-52 | changing only stock counts keeps at most one unit per product and size |
| Ledger.Credit | store/views.py:17-19 | crediting a released quantity raises that unit's count by exactly the quantity; no other unit changes and no unit appears |
| Ledger.TakeOne | store/views.py:107-108 | reserving lowers the chosen unit's count by exactly one, only when it is above 0, and changes no other unit |
| Ledger.CreditReversesTakeOne | store/views.py:107-108 | a credit of one undoes a debit of one, and a debit of one undoes a credit of one |
| Ledger.HeldNothing | store/views.py:16-19 | a unit that none of the released items refers to is credited nothing |
| Ledger.HeldAppend | store/views.py:16-19 | what two batches of released items hold on a unit adds up |
| Ledger.CreditAllCancelsTakeOne | store/views.py:16-19 | a one-unit debit followed by crediting a batch that ends with the item holding that unit is crediting the batch without it |
| Ledger.CreditAll | store/views.py:16-19 | crediting every released item raises each unit by exactly the quantity the items held on it, and keeps every unit's identity |
| Reservations.FilterDistinct | store/views.py:20 | deleting rows keeps the remaining item ids distinct |
| Reservations.KeepTwice | store/views.py:20 | deleting one batch of ids and then another is the same as deleting both batches |
| Reservations.DeletingExpiredLeavesLive | store/views.py:14-20 | deleting, by id, every item that the due-query returned leaves exactly the items that are not due |
| Reservations.LiveLater | store/views.py:13-14 | the items live at a later time among those live now are the items live at that later time |
| Reservations.LiveIsStable | store/views.py:12-20 | after a sweep at `now`, nothing is due at `now` and a second filter keeps every item |
| Reservations.ExpiredAppend | store/views.py:14 | the due-query and the live-query distribute over appending items |
| Reservations.OldestCreatedAt | store/views.py:64 | the oldest creation time is at most every item's creation time and is some item's creation time |
| Reservations.ExpiresAt | store/views.py:58-65 | the countdown ends 15 minutes after the oldest item; it is absent exactly when the cart is empty |
| Reservations.PromoteCopies | store/views.py:134-141 | the i-th order line copies the i-th cart item's product, unit and quantity and captures its product's current price |
| Reservations.PromotedTotal | store/views.py:125-141 | the lines made at checkout add up to the cart total that the order records |
| Views.FindCart | store/views.py:55 | the cart found is the user's first cart; none is found only when the user owns no cart |
| Views.SweptWf | store/views.py:12-20 | the sweep keeps the database's integrity: units, foreign keys, distinct item ids, one cart per user |
| Views.AddToCartWf | store/views.py:78-112 | adding to the cart keeps the database's integrity, including one cart per user |
| Views.ReserveWf | store/views.py:82-110 | the work of adding to the cart after the sweep keeps the database's integrity |
| Views.CheckoutWf | store/views.py:115-165 | checkout keeps the database's integrity |
| Views.PlaceOrderWf | store/views.py:118-165 | the work of checkout after the sweep keeps the database's integrity |
| Views.Store.constructor | store/models.py:44-57 | a new store holds the given catalog and units, with no carts, items or orders |
| Views.Store.ReleaseExpiredStock | store/views.py:12-20 | the loop over the due items credits each one's quantity back to its unit and deletes it, ending in the swept database and keeping its integrity |
| Views.Store.AddToCart | store/views.py:78-112 | the view sweeps, then takes exactly the step `AddToCartStep` specifies and answers its outcome; the store's integrity rules out finding several carts |
| Views.Store.CartDetail | store/views.py:52-75 | the view sweeps, then shows the snapshot of the user's cart after the sweep |
| Views.Store.CreateLines | store/views.py:134-141 | the loop appends one order line per cart item, in order, and nothing else |
| Views.Store.Checkout | store/views.py:115-165 | the view sweeps, then takes exactly the step `CheckoutStep` specifies and answers its outcome |
| Properties.SweepKeepsExactlyLive | store/views.py:13-14 | a sweep keeps an item exactly when it was created at or after `now - 15 minutes` |
| Properties.ExpiryBoundary | store/views.py:13-14 | an item survives a sweep exactly 15 minutes after its creation and is released one second later |
| Properties.SweepCreditsHeldStock | store/views.py:16-19 | each unit gains exactly what the released items held on it and keeps its product and size |
| Properties.SweepSparesUnheldUnits | store/views.py:16-19 | a unit that no released item refers to keeps its count |
| Properties.SweepDropsUnitlessItem | store/views.py:17-20 | an expired item without a unit, wherever it sits in the item table, is deleted and credits nothing: the sweep ends as it would without that item |
| Properties.SweepIdempotent | store/views.py:12-20 | sweeping twice at the same time is sweeping once |
| Properties.HeldLaterSweep | store/views.py:13-19 | a later sweep releases what an earlier one released plus what it releases from the earlier one's survivors |
| Properties.SweepsCompose | store/views.py:12-20 | a sweep followed by a later sweep is the later sweep alone |
| Properties.AddToCartSucceedsOnlyWithStock | store/views.py:82-98 | a reservation is made exactly on a POST naming an existing unit with stock above 0, by a user owning at most one cart; otherwise the database is only swept, and a GET, a missing selection or several carts are reported as such |
| Properties.AddToCartNeverFindsSeveralCarts | store/views.py:98 | while the database keeps its integrity, the user owns at most one cart and adding to the cart never fails on finding several |
| Properties.AddToCartReservesOne | store/views.py:98-108 | a reservation appends one item of quantity 1 on the chosen unit, created now, to the user's only cart (made when missing), and takes exactly one unit from that unit alone |
| Properties.ExpiredReservationRestoresStock | store/views.py:12-20 | a reservation that expires before checkout gives back exactly the stock it took: reserving and sweeping more than 15 minutes later leaves every unit as that later sweep alone does |
| Properties.CheckoutRefusesEmptyCart | store/views.py:117-122 | checkout is refused exactly when the user has no cart or an empty one after the sweep; a refusal and a GET record nothing |
| Properties.CheckoutPlacesOrder | store/views.py:127-141 | a POST checkout records one pending order for the user followed by one line per cart item, and the lines add up to the order's total |
| Properties.CheckoutCopiesItems | store/views.py:134-141 | the i-th new line copies the i-th cart item's product, unit and quantity at its product's current price |
| Properties.CheckoutEmptiesCart | store/views.py:143-144 | the same checkout deletes every item of the user's cart and no other, and leaves stock counts and carts alone |
| Properties.CartSnapshotShowsOwnItems | store/views.py:55-66 | the cart page lists exactly the user's items; its countdown ends at the oldest item's deadline, and there is none for an empty cart |
| Properties.CheckoutChargesShownTotal | store/views.py:62 | the total the cart page shows after a sweep is what a checkout at the same moment charges or shows for review |

## Left out

- Rendering, flash messages, redirects and the payment alias shown on the checkout pages are left out. Each view's outcome is a value instead.
- `login_required` is left out: the logged-in user is a parameter, so an anonymous request is not modelled.
- The catalog views `home` and `product_detail`, the account views and the URL routing are not part of this model.
- The redirect back to the product page looks the product up by the URL's `product_id`. An unknown id would raise there; the model does not capture this, and it ignores `product_id`.
- A posted `inventory_id` that does not name a unit answers `UnitNotFound` (the 404). A value that is not an integer is not modelled.
- Concurrent requests are left out. Each view runs alone, so the lost updates that two overlapping requests could cause are not captured.
- Prices and totals are integer cents, not decimals. The `max_digits` limit and the database's upper bound on stock and quantity counts are not modelled.
- The countdown end is in the model's seconds. Its conversion to milliseconds for the page is left out.
- The automatic timestamps of carts and orders are left out. A cart item's `created_at` is the `now` of the request that creates it.
- Deleting products, stock units or users is left out: the reservation views never do it. `Reservations.DropCartItems` models the cascade from a cart to its items, and `Models.DetachUser` models what deleting a user does to orders.
- Status changes after checkout are made outside these views and are not modelled.
- `Views.Store.AddToCart` never reaches the several-carts failure, because the store keeps one cart per user. A second cart made by other code or by concurrent requests is covered only by `Views.AddToCartStep`, which answers `MultipleCarts`.
- The field defaults, a cart item's quantity of 1 (store/models.py:81) and an order's status `pending_transfer` (store/models.py:109), are not modelled as defaults: the views always pass both values explicitly (store/views.py:104 and 131), and the model does the same.
