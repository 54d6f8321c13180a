/** The order handlers: place an order (and maybe save its address), change its payment status,
    and list orders newest first with the display fallbacks. */
module Orders {
  import opened Base
  import opened OrderModel
  import opened AddressModel
  import AddressBook
  import Lists

  type OrderStore = map<OrderId, Order>

  /** The two collections `/place` writes to. */
  datatype Shop = Shop(orders: OrderStore, addresses: AddressBook.Book)

  // ---------------------------------------------------------------------------
  // Placing an order
  // ---------------------------------------------------------------------------

  /** The body of `POST /place`; None marks a field the body leaves out. */
  datatype PlaceRequest = PlaceRequest(
    items: Option<seq<ItemInput>>,
    delivery: Option<DeliveryDetails>,
    totalAmount: Option<int>,
    payment: Option<PaymentInput>,
    saveAddress: bool)

  /** `!items || !deliveryDetails || !totalAmount || !payment`: a total of 0 is falsy too. */
  predicate Missing(req: PlaceRequest) {
    req.items.None? || req.delivery.None? || req.totalAmount.None? || req.totalAmount == Some(0) || req.payment.None?
  }

  /** How many of the user's addresses have this street address and pincode. */
  function PairCount(book: AddressBook.Book, user: UserId, address: string, pincode: string): nat {
    if |book| == 0 then 0
    else
      PairCount(book[..|book| - 1], user, address, pincode)
      + (var a := book[|book| - 1]; if a.userId == user && a.address == address && a.pincode == pincode then 1 else 0)
  }

  lemma PairCountAppend(book: AddressBook.Book, a: Address, user: UserId, address: string, pincode: string)
    ensures PairCount(book + [a], user, address, pincode) ==
      PairCount(book, user, address, pincode) + (if a.userId == user && a.address == address && a.pincode == pincode then 1 else 0)
  {
    assert (book + [a])[..|book|] == book;
  }

  /** `Address.findOne({userId, address, pincode})` finds something. */
  predicate HasPair(book: AddressBook.Book, user: UserId, address: string, pincode: string) {
    exists k :: 0 <= k < |book| && book[k].userId == user && book[k].address == address && book[k].pincode == pincode
  }

  lemma {:induction false} PairCountPositive(book: AddressBook.Book, user: UserId, address: string, pincode: string)
    ensures PairCount(book, user, address, pincode) > 0 <==> HasPair(book, user, address, pincode)
  {
    if |book| > 0 {
      var init := book[..|book| - 1];
      PairCountPositive(init, user, address, pincode);
      if HasPair(book, user, address, pincode) {
        var k :| 0 <= k < |book| && book[k].userId == user && book[k].address == address && book[k].pincode == pincode;
        if k < |book| - 1 { assert init[k] == book[k]; }
      }
      if HasPair(init, user, address, pincode) {
        var k :| 0 <= k < |init| && init[k].userId == user && init[k].address == address && init[k].pincode == pincode;
        assert book[k] == init[k];
      }
    }
  }

  /** The address `/place` saves from the delivery details: labelled "city (pincode)", not default. */
  function DeliveryFields(d: DeliveryDetails): AddressFields {
    AddressFields(d.name, d.phone, d.address, d.city, d.pincode, Some(d.city + " (" + d.pincode + ")"), None)
  }

  /** Step 2 of `/place`: with `saveAddress` and a truthy address and pincode, save the delivery
      address unless the user already has one with the same address and pincode. */
  function SaveDelivery(book: AddressBook.Book, user: UserId, save: bool, d: DeliveryDetails, id: AddressId, now: Time)
    : (r: Result<AddressBook.Book>)
    requires AddressBook.Fresh(book, id)
    ensures r.Err? ==> r.error == ValidationFailed
    ensures r.Ok? ==> |book| <= |r.value| && r.value[..|book|] == book
    ensures r.Ok? && r.value != book ==>
      && |r.value| == |book| + 1
      && save && !HasPair(book, user, d.address, d.pincode)
      && var a := r.value[|book|];
         a.id == id && a.userId == user && !a.isDefault && a.createdAt == now
         && a.labelText == d.city + " (" + d.pincode + ")"
         && a.name == d.name && a.phone == d.phone && a.address == d.address && a.city == d.city && a.pincode == d.pincode
    ensures DeliveryValid(d) ==> r.Ok?
    ensures r.Ok? ==>
      (r.value != book <==> save && Truthy(d.address) && Truthy(d.pincode) && !HasPair(book, user, d.address, d.pincode))
  {
    if save && Truthy(d.address) && Truthy(d.pincode) && !HasPair(book, user, d.address, d.pincode) then
      match NewAddress(id, user, DeliveryFields(d), now)
      case Err(e) => Err(e)
      case Ok(a) =>
        assert (book + [a])[..|book|] == book;
        assert |book + [a]| != |book|;
        Ok(book + [a])
    else Ok(book)
  }

  /** `POST /place`: refuse missing fields; validate and store the order; then maybe save the
      delivery address. A failure of that last step still leaves the order stored. */
  function Place(shop: Shop, user: UserId, req: PlaceRequest, orderId: OrderId, addressId: AddressId, now: Time,
      validId: ProductId -> bool)
    : (r: Step<Shop, OrderId>)
    requires orderId !in shop.orders
    requires AddressBook.Fresh(shop.addresses, addressId)
    ensures Missing(req) ==> r == Step(shop, Err(MissingFields))
    ensures !Missing(req) && NewOrder(user, req.items.value, req.delivery.value, req.totalAmount.value,
                                      req.payment.value, now, validId).Err? ==>
      r == Step(shop, Err(ValidationFailed))
    ensures r.result.Ok? ==> r.result.value == orderId
    ensures r.result.Ok? <==> !Missing(req) && NewOrder(user, req.items.value, req.delivery.value,
                                                       req.totalAmount.value, req.payment.value, now, validId).Ok?
    ensures r.result.Ok? ==>
      && orderId in r.store.orders
      && r.store.orders == shop.orders[orderId := r.store.orders[orderId]]
      && r.store.orders[orderId] == NewOrder(user, req.items.value, req.delivery.value, req.totalAmount.value,
                                             req.payment.value, now, validId).value
    ensures r.result.Ok? ==>
      r.store.addresses == SaveDelivery(shop.addresses, user, req.saveAddress, req.delivery.value, addressId, now).value
    ensures r.result.Err? ==> r.store.addresses == shop.addresses
  {
    if Missing(req) then Step(shop, Err(MissingFields))
    else
      var d := req.delivery.value;
      match NewOrder(user, req.items.value, d, req.totalAmount.value, req.payment.value, now, validId)
      case Err(e) => Step(shop, Err(e))
      case Ok(order) =>
        var orders := shop.orders[orderId := order];
        match SaveDelivery(shop.addresses, user, req.saveAddress, d, addressId, now)
        case Err(e) => Step(Shop(orders, shop.addresses), Err(e))
        case Ok(book) => Step(Shop(orders, book), Ok(orderId))
  }

  /** A placed order carries the requested status, or 'Pending Verification' when none was
      requested, and no shipping or cancellation stamp. */
  lemma PlacedOrderFresh(shop: Shop, user: UserId, req: PlaceRequest, orderId: OrderId, addressId: AddressId, now: Time,
      validId: ProductId -> bool)
    requires orderId !in shop.orders
    requires AddressBook.Fresh(shop.addresses, addressId)
    requires Place(shop, user, req, orderId, addressId, now, validId).result.Ok?
    ensures var o := Place(shop, user, req, orderId, addressId, now, validId).store.orders[orderId];
      && o.userId == user && o.createdAt == now
      && o.shippedAt == None && o.cancelledAt == None
      && (req.payment.value.status.None? ==> o.payment.status == PendingVerification)
      && (req.payment.value.status.Some? ==> Name(o.payment.status) == req.payment.value.status.value)
      && forall k :: 0 <= k < |o.items| ==>
           Truthy(o.items[k].name) && (o.items[k].productId.None? || validId(o.items[k].productId.value))
  {
  }

  /** `/place` never duplicates a saved (address, pincode) pair: afterwards the user has exactly
      one such address if they had none and asked to save it, and otherwise as many as before. */
  lemma PlaceSavesPairOnce(shop: Shop, user: UserId, req: PlaceRequest, orderId: OrderId, addressId: AddressId, now: Time,
      validId: ProductId -> bool)
    requires orderId !in shop.orders
    requires AddressBook.Fresh(shop.addresses, addressId)
    requires Place(shop, user, req, orderId, addressId, now, validId).result.Ok?
    ensures var d := req.delivery.value;
      var before := PairCount(shop.addresses, user, d.address, d.pincode);
      PairCount(Place(shop, user, req, orderId, addressId, now, validId).store.addresses, user, d.address, d.pincode) ==
        if req.saveAddress && before == 0 then 1 else before
    ensures |Place(shop, user, req, orderId, addressId, now, validId).store.addresses| <= |shop.addresses| + 1
  {
    var d := req.delivery.value;
    var book := shop.addresses;
    var after := Place(shop, user, req, orderId, addressId, now, validId).store.addresses;
    PairCountPositive(book, user, d.address, d.pincode);
    if after != book {
      assert after == book + [after[|book|]];
      PairCountAppend(book, after[|book|], user, d.address, d.pincode);
    }
  }

  /** Saving the delivery address keeps ids unique and every user at no more than one default. */
  lemma PlaceKeepsAddressInvariants(shop: Shop, user: UserId, req: PlaceRequest, orderId: OrderId, addressId: AddressId, now: Time,
      validId: ProductId -> bool)
    requires orderId !in shop.orders
    requires AddressBook.Fresh(shop.addresses, addressId)
    requires AddressBook.UniqueIds(shop.addresses) && AddressBook.AtMostOneDefault(shop.addresses)
    ensures AddressBook.UniqueIds(Place(shop, user, req, orderId, addressId, now, validId).store.addresses)
    ensures AddressBook.AtMostOneDefault(Place(shop, user, req, orderId, addressId, now, validId).store.addresses)
  {
    var book := shop.addresses;
    var after := Place(shop, user, req, orderId, addressId, now, validId).store.addresses;
    if after != book {
      var a := after[|book|];
      assert after == book + [a];
      forall u
        ensures AddressBook.DefaultCount(after, u) <= 1
      {
        AddressBook.CountAppend(book, a, u);
      }
    }
  }

  // ---------------------------------------------------------------------------
  // Changing the payment status
  // ---------------------------------------------------------------------------

  /** The stamps and status an accepted change writes. */
  function Advance(o: Order, s: Status, now: Time): Order {
    o.(payment := o.payment.(status := s),
       cancelledAt := if s == Cancelled then Some(now) else o.cancelledAt,
       shippedAt := if s == Shipped && o.shippedAt.None? then Some(now) else o.shippedAt)
  }

  /** `PUT /update-status/:id`: refuse an empty status, an unknown order and a terminal order;
      the enum validator refuses an unknown status; otherwise set the status, stamp `cancelledAt`
      on Cancelled and `shippedAt` on the first Shipped. Any non-terminal status may be entered. */
  function UpdateStatus(orders: OrderStore, id: OrderId, newStatus: string, now: Time): (r: Step<OrderStore, Order>)
    ensures !Truthy(newStatus) ==> r.result == Err(MissingFields)
    ensures Truthy(newStatus) && id !in orders ==> r.result == Err(NotFound)
    ensures Truthy(newStatus) && id in orders && Terminal(orders[id].payment.status) ==>
      r.result == Err(InvalidTransition)
    ensures r.result.Ok? <==>
      Truthy(newStatus) && id in orders && !Terminal(orders[id].payment.status) && Parse(newStatus).Some?
    ensures r.result.Err? ==> r.store == orders
    ensures r.result.Ok? ==>
      var o := orders[id];
      var o' := r.result.value;
      && r.store == orders[id := o']
      && Name(o'.payment.status) == newStatus
      && o'.cancelledAt == (if newStatus == "Cancelled" then Some(now) else o.cancelledAt)
      && o'.shippedAt == (if newStatus == "Shipped" && o.shippedAt.None? then Some(now) else o.shippedAt)
      && o'.userId == o.userId && o'.items == o.items && o'.delivery == o.delivery
      && o'.totalAmount == o.totalAmount && o'.createdAt == o.createdAt
      && o'.payment.txnId == o.payment.txnId && o'.payment.utrId == o.payment.utrId
  {
    if !Truthy(newStatus) then Step(orders, Err(MissingFields))
    else if id !in orders then Step(orders, Err(NotFound))
    else if Terminal(orders[id].payment.status) then Step(orders, Err(InvalidTransition))
    else
      match Parse(newStatus)
      case None => Step(orders, Err(ValidationFailed))
      case Some(s) =>
        var o' := Advance(orders[id], s, now);
        Step(orders[id := o'], Ok(o'))
  }

  /** No ordering is imposed outside the terminal statuses: every status, 'Pending Verification'
      included, can be entered from every non-terminal status. */
  lemma AnyStatusFromOpen(orders: OrderStore, id: OrderId, s: Status, now: Time)
    requires id in orders && !Terminal(orders[id].payment.status)
    ensures UpdateStatus(orders, id, Name(s), now).result.Ok?
    ensures UpdateStatus(orders, id, Name(s), now).result.value.payment.status == s
  {
    ParseName(s);
  }

  /** Shipping twice keeps the first stamp, cancelling stamps `cancelledAt`, and a cancelled
      order refuses to become Paid. */
  lemma ShipTwiceThenCancel(orders: OrderStore, id: OrderId, t1: Time, t2: Time, t3: Time, t4: Time)
    requires id in orders && orders[id].payment.status == PendingVerification && orders[id].shippedAt.None?
    ensures var s1 := UpdateStatus(orders, id, "Shipped", t1).store;
      var s2 := UpdateStatus(s1, id, "Shipped", t2).store;
      var s3 := UpdateStatus(s2, id, "Cancelled", t3).store;
      && s1[id].shippedAt == Some(t1) && s2[id].shippedAt == Some(t1)
      && s3[id].cancelledAt == Some(t3) && s3[id].shippedAt == Some(t1)
      && UpdateStatus(s3, id, "Paid", t4) == Step(s3, Err(InvalidTransition))
  {
  }

  /** One request to the status handler. */
  datatype StatusRequest = StatusRequest(status: string, now: Time)

  /** The store after a series of status requests for one order. */
  function Replay(orders: OrderStore, id: OrderId, reqs: seq<StatusRequest>): OrderStore {
    if |reqs| == 0 then orders
    else Replay(UpdateStatus(orders, id, reqs[0].status, reqs[0].now).store, id, reqs[1..])
  }

  /** Once Delivered, Failed or Cancelled, no series of requests changes the order. */
  lemma {:induction false} TerminalIsFinal(orders: OrderStore, id: OrderId, reqs: seq<StatusRequest>)
    requires id in orders && Terminal(orders[id].payment.status)
    ensures Replay(orders, id, reqs) == orders
  {
    if |reqs| > 0 {
      TerminalIsFinal(orders, id, reqs[1..]);
    }
  }

  /** The first shipping stamp survives every later request, repeated Shipped included. */
  lemma {:induction false} ShippedStampKept(orders: OrderStore, id: OrderId, reqs: seq<StatusRequest>, t: Time)
    requires id in orders && orders[id].shippedAt == Some(t)
    ensures id in Replay(orders, id, reqs) && Replay(orders, id, reqs)[id].shippedAt == Some(t)
  {
    if |reqs| > 0 {
      ShippedStampKept(UpdateStatus(orders, id, reqs[0].status, reqs[0].now).store, id, reqs[1..], t);
    }
  }

  /** The order being updated is never removed, and no other order is touched. */
  lemma {:induction false} ReplayTouchesOnlyOne(orders: OrderStore, id: OrderId, reqs: seq<StatusRequest>)
    requires id in orders
    ensures Replay(orders, id, reqs).Keys == orders.Keys
    ensures forall other :: other in orders && other != id ==> Replay(orders, id, reqs)[other] == orders[other]
  {
    if |reqs| > 0 {
      ReplayTouchesOnlyOne(UpdateStatus(orders, id, reqs[0].status, reqs[0].now).store, id, reqs[1..]);
    }
  }

  // ---------------------------------------------------------------------------
  // Listing orders
  // ---------------------------------------------------------------------------

  const ProductNotFound: string := "Product Not Found"
  const PlaceholderPhoto: string := "https://via.placeholder.com/100"

  /** The live product an item refers to, when it still exists. */
  function Live(item: OrderItem, catalog: Catalog): Option<Product> {
    if item.productId.Some? && item.productId.value in catalog then Some(catalog[item.productId.value]) else None
  }

  /** One history line: snapshot value first, then the live product's, then a placeholder; the
      product reference reads as absent when the product is gone. */
  function DisplayItem(item: OrderItem, catalog: Catalog): (v: OrderItem)
    ensures Truthy(item.name) ==> v.name == item.name
    ensures !Truthy(item.name) && Live(item, catalog).Some? && Truthy(Live(item, catalog).value.name) ==>
      v.name == Live(item, catalog).value.name
    ensures !Truthy(item.name) && (Live(item, catalog).None? || !Truthy(Live(item, catalog).value.name)) ==>
      v.name == ProductNotFound
    ensures Truthy(item.photo) ==> v.photo == item.photo
    ensures !Truthy(item.photo) && Live(item, catalog).Some? && Truthy(Live(item, catalog).value.photo) ==>
      v.photo == Live(item, catalog).value.photo
    ensures !Truthy(item.photo) && (Live(item, catalog).None? || !Truthy(Live(item, catalog).value.photo)) ==>
      v.photo == PlaceholderPhoto
    ensures v.productId == if Live(item, catalog).Some? then item.productId else None
    ensures v.price == item.price && v.quantity == item.quantity
  {
    var live := Live(item, catalog);
    item.(photo := Or(item.photo, Or(if live.Some? then live.value.photo else "", PlaceholderPhoto)),
          productId := if live.Some? then item.productId else None,
          name := Or(item.name, Or(if live.Some? then live.value.name else "", ProductNotFound)))
  }

  /** A displayed name or photo is never empty. */
  lemma DisplayNeverBlank(item: OrderItem, catalog: Catalog)
    ensures Truthy(DisplayItem(item, catalog).name) && Truthy(DisplayItem(item, catalog).photo)
  {
  }

  /** A snapshot with a name and photo displays the same whatever happens to the catalog later. */
  lemma SnapshotInsulated(item: OrderItem, before: Catalog, after: Catalog)
    requires Truthy(item.name) && Truthy(item.photo)
    ensures DisplayItem(item, before).name == DisplayItem(item, after).name
    ensures DisplayItem(item, before).photo == DisplayItem(item, after).photo
  {
  }

  /** `populate('items.productId')` on its own: a reference to a product that is gone reads as
      null, and nothing else in the order changes. */
  function PopulateOrder(o: Order, catalog: Catalog): (v: Order)
    ensures |v.items| == |o.items|
    ensures forall k :: 0 <= k < |o.items| ==>
      (v.items[k].productId.Some? <==> Live(o.items[k], catalog).Some?)
      && v.items[k].(productId := o.items[k].productId) == o.items[k]
    ensures v.(items := o.items) == o
  {
    o.(items := seq(|o.items|, k requires 0 <= k < |o.items| =>
      o.items[k].(productId := if Live(o.items[k], catalog).Some? then o.items[k].productId else None)))
  }

  /** The history view is the populated order with the name and photo fallbacks on top: the
      two views agree on everything but an item's name and photo. */
  lemma DisplayExtendsPopulate(o: Order, catalog: Catalog)
    ensures var d := DisplayOrder(o, catalog);
      var p := PopulateOrder(o, catalog);
      && d.(items := p.items) == p
      && |d.items| == |p.items|
      && forall k :: 0 <= k < |p.items| ==>
           d.items[k].(name := p.items[k].name, photo := p.items[k].photo) == p.items[k]
  {
  }

  /** Display processing changes only the items of an order, each by the item fallback. */
  function DisplayOrder(o: Order, catalog: Catalog): (v: Order)
    ensures |v.items| == |o.items|
    ensures forall k :: 0 <= k < |o.items| ==> v.items[k] == DisplayItem(o.items[k], catalog)
    ensures v.(items := o.items) == o
  {
    o.(items := seq(|o.items|, k requires 0 <= k < |o.items| => DisplayItem(o.items[k], catalog)))
  }

  /** A listed order: its id and the document as the handler returns it. */
  type Entry = (OrderId, Order)

  function EntryIds(s: seq<Entry>): (r: seq<OrderId>)
    ensures |r| == |s|
    ensures forall k :: 0 <= k < |s| ==> r[k] == s[k].0
  {
    seq(|s|, k requires 0 <= k < |s| => s[k].0)
  }

  /** Ordered newest first. */
  ghost predicate NewestFirst(s: seq<Entry>) {
    forall i, j :: 0 <= i < j < |s| ==> s[i].1.createdAt >= s[j].1.createdAt
  }

  /** Where `e` goes in a newest-first list: after every strictly newer order. */
  function Position(s: seq<Entry>, e: Entry): (k: nat)
    ensures k <= |s|
    ensures forall i :: 0 <= i < k ==> s[i].1.createdAt > e.1.createdAt
    ensures k < |s| ==> s[k].1.createdAt <= e.1.createdAt
  {
    if |s| == 0 || s[0].1.createdAt <= e.1.createdAt then 0 else 1 + Position(s[1..], e)
  }

  function InsertNewest(s: seq<Entry>, e: Entry): (r: seq<Entry>)
    requires NewestFirst(s)
    ensures NewestFirst(r)
    ensures r == s[..Position(s, e)] + [e] + s[Position(s, e)..]
  {
    var k := Position(s, e);
    var r := s[..k] + [e] + s[k..];
    assert forall i :: 0 <= i < |r| ==> r[i] == if i < k then s[i] else if i == k then e else s[i - 1];
    r
  }

  /** `r` lists the orders of `done`, each once, as stored, newest first. */
  ghost predicate Listed(orders: OrderStore, r: seq<Entry>, done: set<OrderId>) {
    && (forall x :: x in EntryIds(r) <==> x in done)
    && Lists.Distinct(EntryIds(r))
    && (forall k :: 0 <= k < |r| ==> r[k].0 in orders && r[k].1 == orders[r[k].0])
    && NewestFirst(r)
  }

  /** Inserting one more stored order keeps the listing exact. */
  lemma InsertListed(orders: OrderStore, r: seq<Entry>, done: set<OrderId>, id: OrderId)
    requires Listed(orders, r, done)
    requires id in orders && id !in done
    ensures Listed(orders, InsertNewest(r, (id, orders[id])), done + {id})
  {
    var e := (id, orders[id]);
    var k := Position(r, e);
    var r' := InsertNewest(r, e);
    Lists.InsertDistinct(EntryIds(r), k, id);
    assert EntryIds(r') == EntryIds(r)[..k] + [id] + EntryIds(r)[k..];
    assert forall j :: 0 <= j < |r'| ==> r'[j] == if j < k then r[j] else if j == k then e else r[j - 1];
  }

  /** The entries of `wanted`, each once, newest first (the `.sort({createdAt: -1})` of the queries). */
  method SortNewestFirst(orders: OrderStore, wanted: set<OrderId>) returns (r: seq<Entry>)
    requires wanted <= orders.Keys
    ensures forall x :: x in EntryIds(r) <==> x in wanted
    ensures Lists.Distinct(EntryIds(r))
    ensures forall k :: 0 <= k < |r| ==> r[k].0 in orders && r[k].1 == orders[r[k].0]
    ensures NewestFirst(r)
  {
    r := [];
    var left := wanted;
    while left != {}
      invariant left <= wanted
      invariant Listed(orders, r, wanted - left)
      decreases |left|
    {
      var id :| id in left;
      InsertListed(orders, r, wanted - left, id);
      assert wanted - left + {id} == wanted - (left - {id});
      r := InsertNewest(r, (id, orders[id]));
      left := left - {id};
    }
  }

  /** `GET /history`: the user's orders, each exactly once, newest first, with display fallbacks. */
  method History(orders: OrderStore, catalog: Catalog, user: UserId) returns (r: seq<Entry>)
    ensures forall id :: id in orders && orders[id].userId == user <==> id in EntryIds(r)
    ensures Lists.Distinct(EntryIds(r))
    ensures forall k :: 0 <= k < |r| ==> r[k].0 in orders && r[k].1 == DisplayOrder(orders[r[k].0], catalog)
    ensures NewestFirst(r)
  {
    var wanted := set id | id in orders && orders[id].userId == user;
    var sorted := SortNewestFirst(orders, wanted);
    r := seq(|sorted|, k requires 0 <= k < |sorted| => (sorted[k].0, DisplayOrder(sorted[k].1, catalog)));
    assert EntryIds(r) == EntryIds(sorted);
  }

  /** `GET /all`: every order, each exactly once, newest first, with each item's product
      reference populated but no display fallbacks. */
  method AllOrders(orders: OrderStore, catalog: Catalog) returns (r: seq<Entry>)
    ensures forall id :: id in orders <==> id in EntryIds(r)
    ensures Lists.Distinct(EntryIds(r))
    ensures forall k :: 0 <= k < |r| ==> r[k].0 in orders && r[k].1 == PopulateOrder(orders[r[k].0], catalog)
    ensures NewestFirst(r)
  {
    var sorted := SortNewestFirst(orders, orders.Keys);
    r := seq(|sorted|, k requires 0 <= k < |sorted| => (sorted[k].0, PopulateOrder(sorted[k].1, catalog)));
    assert EntryIds(r) == EntryIds(sorted);
  }
}
