# AgriGrow backend: carts, wishlists, orders and saved addresses

This project is a Dafny model of the order and list logic of the AgriGrow e-commerce backend. That logic is:

- the cart and wishlist **toggles**, which treat a user's list as a set. The cart and wishlist routers have only toggle and fetch, and an emptied cart or wishlist stays stored as an empty list;
- **order placement**, which validates the order and may save the delivery address;
- the **address book**, where setting a default address un-defaults the user's other addresses;
- the **payment-status lifecycle** of an order, with three terminal statuses;
- the **order-history display**, which falls back from the order's snapshot to the live product and then to a placeholder.

Each HTTP handler is modelled as one atomic, pure transition over an in-memory store:

- carts and wishlists are `map<UserId, seq<…>>`;
- saved addresses are a `seq<Address>`;
- orders are a `map<OrderId, Order>`.

A handler returns a `Result`, or a `Step` (the new store together with the answer) when it can change the store and still fail. Four things the handlers get from their environment are parameters of the model:

- the current time `now`;
- freshly generated document ids;
- the driver's ObjectId check (`validId`);
- the authenticated user id.

Modules, one per source file or component:

- `Base`: ids, `Option`, the error taxonomy (`MissingFields`, `InvalidInput`, `NotFound`, `InvalidTransition`, `ValidationFailed`), `Result`, `Step`, and JavaScript string truthiness.
- `Lists`: `findIndex`, `splice(i, 1)` and duplicate-freedom on sequences.
- `OrderModel`: the order document (`models/Order.js`), with the status enum, its defaults and its schema validation.
- `AddressModel`: the address document (`models/Address.js`), with its defaults and validation.
- `AddressBook`: `POST /addresses`, `PUT /addresses/:id` and `GET /addresses`.
- `Orders`: `POST /place`, `PUT /update-status/:id`, `GET /history` and `GET /all`.
- `Cart` and `Wishlist`: `POST /toggle` and `GET /:userId` of each router.

## Model

| member | source | states |
|---|---|---|
| `OrderModel.Parse` | models/Order.js:28-33 | The enum validator accepts a string exactly when it is the spelling of one of the six statuses; for any other string, no status has that spelling |
| `OrderModel.ParseName` | models/Order.js:30 | Every stored status passes the enum validator under its own spelling |
| `OrderModel.NewItem` | models/Order.js:10-14 | An item is accepted exactly when it has a non-empty name, a price, and either no product reference or one that casts to an ObjectId. Its quantity defaults to 1, and the other snapshot fields are kept as given |
| `OrderModel.NewItems` | models/Order.js:9-15 | The item array is accepted exactly when every item is valid (name, price, castable product reference), and then each item is cast in place, with the length unchanged |
| `OrderModel.NewOrder` | models/Order.js:3-44 | An order is accepted exactly when: every item has a name, a price and a castable product reference; the delivery name, phone, address, city and pincode are non-empty; txnId and utrId are non-empty; any given status is in the enum. A new order has status 'Pending Verification' unless the request names one, and shippedAt and cancelledAt are both null |
| `AddressModel.NewAddress` | models/Address.js:3-19 | An address is accepted exactly when name, address, city and pincode are non-empty (phone is optional). The label defaults to 'Home', isDefault defaults to false, and the creation time is recorded |
| `AddressBook.Add` | routes/orders.js:96-123 | Fails with MissingFields exactly when name, phone, address, city or pincode is empty. Otherwise it appends the new address with label `city, pincode` when none is given. With isDefault it first un-defaults every other address of the user and no one else's, and the user then has exactly one default |
| `AddressBook.AddKeepsInvariants` | routes/orders.js:118-123 | Adding keeps address ids unique and keeps every user at no more than one default |
| `AddressBook.Update` | routes/orders.js:137-172 | A malformed id gives InvalidInput, and an address the caller does not own gives NotFound; both leave the book unchanged. Blanking a required field fails validation. An accepted edit overwrites exactly the given fields. The owner is forced to the caller whatever the body says. The label becomes the given one, else, whenever a non-empty city or pincode is given (even one equal to the stored value), `city, pincode` built from the given values with the stored ones as fallback, else the old label. With `isDefault === true` every other address of the caller is un-defaulted, even when validation then fails. Other users' addresses never change |
| `AddressBook.UpdateSetsSingleDefault` | routes/orders.js:153-157 | After an accepted edit with `isDefault === true`, the user has exactly one default address |
| `AddressBook.UpdateKeepsInvariants` | routes/orders.js:147-172 | Every edit, accepted or failed, keeps ids unique and every user at no more than one default |
| `AddressBook.ClearDefaults` | routes/orders.js:119-121 | The `updateMany` un-defaulting changes nothing but the isDefault flag, and clears it on exactly the user's addresses other than the one being edited |
| `AddressBook.Replace` | routes/orders.js:168-172 | The write of an edit keeps the book's length. When the new version keeps its id, it keeps every position's id; when no address has the id, nothing changes |
| `AddressBook.OwnedBy` | routes/orders.js:85 | `find({userId})` keeps each of the user's addresses as often as it is stored, and no one else's |
| `AddressBook.List` | routes/orders.js:85 | Returns exactly the user's addresses (as a multiset), default-flagged first, then oldest first |
| `Orders.SaveDelivery` | routes/orders.js:46-62 | The saved-address step adds at most one address. It adds one exactly when saveAddress is set, the address and pincode are non-empty, and the user has no address with that (address, pincode) pair. The added address is labelled `city (pincode)` and is not the default. It always succeeds for delivery details that passed order validation |
| `Orders.Place` | routes/orders.js:26-67 | If items, deliveryDetails, totalAmount or payment is missing, the result is MissingFields and nothing is stored; a totalAmount of 0 counts as missing. If schema validation fails, for example on an item whose product reference is not an ObjectId, the result is ValidationFailed and nothing is stored. Otherwise exactly one order is added under the new id, and the address book changes only through the saved-address step |
| `Orders.PlacedOrderFresh` | models/Order.js:28-42 | A placed order belongs to the caller and is stamped with its creation time. Its status is the requested one, or 'Pending Verification' when none is requested. It has no shipping or cancellation stamp, and every item has a name and either no product reference or a valid ObjectId |
| `Orders.PlaceSavesPairOnce` | routes/orders.js:47-61 | Placing never duplicates a saved (address, pincode) pair. With saveAddress, the user ends with exactly one such address if they had none; otherwise the count is unchanged. At most one address is added |
| `Orders.PlaceKeepsAddressInvariants` | routes/orders.js:54-60 | Placing an order keeps address ids unique and every user at no more than one default |
| `Orders.UpdateStatus` | routes/orders.js:245-279 | An empty status gives MissingFields, an unknown order gives NotFound, a Delivered, Failed or Cancelled order gives InvalidTransition, and a status outside the enum fails validation; each of these leaves the store unchanged. An accepted change sets the status. It stamps cancelledAt when the new status is Cancelled, and shippedAt only when the new status is Shipped and shippedAt is unset. Nothing else in the order changes |
| `Orders.AnyStatusFromOpen` | routes/orders.js:259-265 | From any non-terminal status every one of the six statuses, 'Pending Verification' included, is accepted: no stricter ordering exists |
| `Orders.ShipTwiceThenCancel` | routes/orders.js:267-273 | Shipping twice keeps the first shippedAt; cancelling stamps cancelledAt; a cancelled order then refuses Paid |
| `Orders.TerminalIsFinal` | routes/orders.js:259-263 | Once Delivered, Failed or Cancelled, no sequence of status requests changes the store |
| `Orders.ShippedStampKept` | routes/orders.js:271-273 | Once shippedAt is set, no sequence of status requests changes it |
| `Orders.ReplayTouchesOnlyOne` | routes/orders.js:275-279 | Status requests for one order never remove it and never change any other order |
| `Orders.DisplayItem` | routes/orders.js:205-210 | A history line shows the snapshot name or photo when present, else the live product's, else 'Product Not Found' or the placeholder URL. The product reference reads as null when the product is gone. Price and quantity are untouched |
| `Orders.DisplayNeverBlank` | routes/orders.js:207-209 | A displayed name or photo is never empty |
| `Orders.SnapshotInsulated` | routes/orders.js:202-209 | An item whose snapshot has a name and a photo displays the same whatever the catalog later holds |
| `Orders.DisplayOrder` | routes/orders.js:203-211 | Display processing changes only the items of an order, each by the item fallback |
| `Orders.SortNewestFirst` | routes/orders.js:199 | Lists each wanted order exactly once, as stored, newest first |
| `Orders.History` | routes/orders.js:190-211 | Returns exactly the caller's orders, each once, newest first, each with the display fallbacks applied |
| `Orders.PopulateOrder` | routes/orders.js:227-231 | Populating the product references changes only each item's reference, which reads as null exactly when the product is gone |
| `Orders.DisplayExtendsPopulate` | routes/orders.js:194-210 | The history view and the populated order differ only in each item's name and photo: the display fallbacks sit on top of the populate |
| `Orders.AllOrders` | routes/orders.js:223-233 | Returns every order exactly once, newest first, each with its item product references populated (null when the product is gone) and nothing else changed |
| `Lists.RemoveAt` | routes/cartRoutes.js:25 | `splice(i, 1)` drops exactly position i: the list is one shorter, and the elements before and after it keep their order |
| `Lists.IndexOf` | routes/cartRoutes.js:21 | `findIndex` gives -1 exactly when the product is absent, and otherwise the position of its first occurrence |
| `Cart.ToggleIn` | routes/cartRoutes.js:21-32 | On an existing cart: a present product's first line is removed whatever its quantity, with the other lines keeping their order and values. An absent product gets a line of quantity 1 appended. The answer is Added exactly when the product was absent |
| `Cart.ToggleInFlips` | routes/cartRoutes.js:21-32 | On a duplicate-free cart a toggle flips membership and keeps the cart duplicate-free |
| `Cart.ToggleInTwiceAbsent` | routes/cartRoutes.js:24-31 | Toggling an absent product twice gives back the same line list |
| `Cart.Toggle` | routes/cartRoutes.js:7-32 | A user without a cart gets one holding exactly the line (product, 1). Otherwise the cart is toggled, and no other user's cart changes. An emptied cart stays stored. The answer is Added exactly when the product was not in the cart |
| `Cart.ToggleFlips` | routes/cartRoutes.js:11-32 | On a duplicate-free cart a toggle flips whether the product is in the cart |
| `Cart.ToggleKeepsNoDuplicates` | routes/cartRoutes.js:21-32 | If no cart has duplicate productIds before a toggle, none has after |
| `Cart.ToggleTwiceRestoresMembership` | routes/cartRoutes.js:11-32 | Two toggles of one product restore its membership, and the two answers differ |
| `Cart.ToggleTwiceAbsent` | routes/cartRoutes.js:11-32 | Two toggles of an absent product restore the carts exactly; a user who had no cart is left with an empty stored cart rather than none |
| `Cart.Fetch` | routes/cartRoutes.js:41-44 | A user without a cart gets `{userId, items: []}`. Otherwise each line in order has its quantity and its product joined from the catalog, or null when the product is gone |
| `Cart.EmptiedCartFetchesEmpty` | routes/cartRoutes.js:11-44 | A toggle empties a cart exactly when the cart held a single line, for that product. The emptied cart stays stored, yet fetches exactly like a missing cart |
| `Wishlist.ToggleIn` | routes/wishlistRoutes.js:20-29 | On an existing wishlist: a present product's first entry is removed ("Removed"), with the others keeping their order. An absent product is appended ("Added"). The answer is Added exactly when the product was absent |
| `Wishlist.ToggleInFlips` | routes/wishlistRoutes.js:20-29 | On a duplicate-free wishlist a toggle flips membership and keeps it duplicate-free |
| `Wishlist.ToggleInTwiceAbsent` | routes/wishlistRoutes.js:22-28 | Toggling an absent product twice gives back the same entry list |
| `Wishlist.Toggle` | routes/wishlistRoutes.js:7-29 | A user without a wishlist gets one holding exactly the product, answered "Added". Otherwise the wishlist is toggled, and no other user's wishlist changes. An emptied wishlist stays stored. The answer is Added exactly when the product was absent beforehand |
| `Wishlist.ToggleFlips` | routes/wishlistRoutes.js:11-29 | On a duplicate-free wishlist a toggle flips whether the product is wished for |
| `Wishlist.ToggleKeepsNoDuplicates` | routes/wishlistRoutes.js:20-29 | If no wishlist names a product twice before a toggle, none does after |
| `Wishlist.ToggleTwiceRestoresMembership` | routes/wishlistRoutes.js:11-29 | Two toggles restore membership and answer Added and Removed in some order: the toggle oscillates rather than being idempotent |
| `Wishlist.ToggleTwiceAbsent` | routes/wishlistRoutes.js:11-29 | Two toggles of an absent product restore the wishlists exactly; a user who had none is left with an empty stored wishlist |
| `Wishlist.Fetch` | routes/wishlistRoutes.js:38-41 | A user without a wishlist gets `{userId, items: []}`. Otherwise each entry in order is joined to its catalog product, or null when the product is gone |
| `Wishlist.EmptiedWishlistFetchesEmpty` | routes/wishlistRoutes.js:11-41 | A toggle empties a wishlist exactly when it held a single entry, for that product. The emptied wishlist stays stored, yet fetches exactly like a missing one |

## Left out

- Process bootstrap, CORS, static files and the database connection (`server.js`) are not part of this model. Nor are authentication (`routes/auth.js`), product CRUD (`routes/products.js`, `models/Product.js`) and the payment ledger (`routes/paymentRoutes.js`, `models/Payment.js`): they are pass-through CRUD or foreign calls.
- The fixed-identity auth middleware (routes/orders.js:14-21) is not modelled: the user id is a parameter. ObjectId validity is the parameter `validId`, used for the address id of an edit and for each order item's product reference.
- `Date.now()` is the parameter `now`. Generated ids are parameters, required to be fresh (`id !in orders`, `AddressBook.Fresh`), as the store guarantees.
- Each handler is one atomic step. The separate store calls inside a handler, and the races between concurrent requests, are not modelled.
- HTTP status codes and message texts are collapsed into the `Error` datatype. The catch-all 500 paths are not modelled. These include driver failures and the cast error of a toggle whose productId is not an ObjectId. An order item's product reference is checked, as a ValidationFailed answer.
- Numbers are unbounded integers: fractional prices and totals, NaN, and Mongoose's casting of numeric strings are not modelled.
- Request values of the wrong JSON type are not modelled. Examples: a non-boolean `isDefault` in an address edit (Mongoose would cast "true" to true without the un-defaulting step), a non-string productId, or `items` that is not an array.
- Extra keys in request bodies are not modelled. Examples: an `isDefault` or `_id` inside `deliveryDetails` that would be spread into the saved address, or `_id` in an edit body.
- The `updatedAt` timestamps are not modelled.
- Orders.AllOrders: the populate of `userId` with the user's name and email is not modelled, because the user collection is not part of this model; the order keeps the bare user id.
- Orders.PopulateOrder: a populated product reference is modelled only as present or null. The joined product's name, photo and price, selected at routes/orders.js:229, are not attached.
- Cart.ToggleIn: request product ids are assumed to be in the canonical form of a stored ObjectId, lowercase hexadecimal. The source compares `item.productId.toString()` with the raw request string, so an uppercase-hex id would never match its own line: a second toggle would add a duplicate line instead of removing it.
- Wishlist.ToggleIn: request product ids are assumed to be canonical lowercase hexadecimal, for the same reason as in the cart. A non-canonical id would be appended again on every toggle.
- AddressBook.Update: the address id in the path is assumed to be canonical lowercase 24-digit hexadecimal. The source's queries cast it to an ObjectId, so an upper-case spelling of an owned id would find and update the address, where the model compares strings and answers NotFound.
- Orders.UpdateStatus: the order id is assumed to be canonical lowercase 24-digit hexadecimal. `findById` casts it, so an upper-case spelling finds the order where the model answers NotFound. A malformed id makes the cast throw, which the source answers with a 500 (routes/orders.js:296); the model answers NotFound.
- OrderModel.NewItem: the product reference is stored as the request string, while the schema stores the cast ObjectId. The two agree only for canonical lowercase hexadecimal, which is assumed; a later catalog lookup of a non-canonical spelling would miss in the model.
- Wishlist.Toggle: the user id is assumed to be canonical lowercase hexadecimal. The wishlist schema casts `userId` to an ObjectId (models/Wishlist.js:4-8), so two spellings of one user share a wishlist in the source but key two wishlists in the model.
- Wishlist.Fetch: the same canonical user-id assumption; a non-canonical spelling of an existing user's id would fetch that user's wishlist in the source but the empty view in the model.
- Cart.Toggle and Cart.Fetch key carts by the user-id string as given. The Cart schema is not part of this model, so whether it casts `userId` to an ObjectId is not modelled; canonical ids are assumed as for the wishlist.
- Orders or addresses with equal creation times come back in an order the store does not specify. `SortNewestFirst` and `AddressBook.List` promise only the ordering by time, not an order among ties.
- `models/Wishlist.js` declares a `products` array, while the route reads and writes `items`. The model follows the route. The Cart schema file is not part of this model, so the line shape `(productId, quantity)` comes from the route.
- `AddressBook.Update` assumes that Mongoose's update validators reject a required string field set to "". The model treats blanking name, address, city or pincode as a validation failure.
