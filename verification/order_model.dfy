/** The order document: its payment-status enum, its defaults and its schema validation. */
module OrderModel {
  import opened Base

  /** The six values the `payment.status` enum admits. */
  datatype Status = PendingVerification | Paid | Shipped | Delivered | Failed | Cancelled

  /** The spelling of a status in the store and in requests. */
  function Name(s: Status): string {
    match s
    case PendingVerification => "Pending Verification"
    case Paid => "Paid"
    case Shipped => "Shipped"
    case Delivered => "Delivered"
    case Failed => "Failed"
    case Cancelled => "Cancelled"
  }

  /** The enum validator: a string is accepted exactly when it spells one of the six statuses. */
  function Parse(name: string): (r: Option<Status>)
    ensures r.Some? ==> Name(r.value) == name
    ensures r.None? ==> forall s :: Name(s) != name
  {
    if name == "Pending Verification" then Some(PendingVerification)
    else if name == "Paid" then Some(Paid)
    else if name == "Shipped" then Some(Shipped)
    else if name == "Delivered" then Some(Delivered)
    else if name == "Failed" then Some(Failed)
    else if name == "Cancelled" then Some(Cancelled)
    else None
  }

  /** Every status reads back as itself, so the enum validator accepts every stored status. */
  lemma ParseName(s: Status)
    ensures Parse(Name(s)) == Some(s)
  {
  }

  /** The statuses out of which the status handler refuses any change. */
  predicate Terminal(s: Status) {
    s == Delivered || s == Failed || s == Cancelled
  }

  /** A line of an order: a snapshot of the product taken when the order was placed. */
  datatype OrderItem = OrderItem(productId: Option<ProductId>, name: string, price: int, quantity: int, photo: string)

  /** Where the order goes; "" stands for an absent field. */
  datatype DeliveryDetails = DeliveryDetails(name: string, phone: string, address: string, city: string, pincode: string, email: string)

  datatype Payment = Payment(txnId: string, utrId: string, status: Status)

  datatype Order = Order(
    userId: UserId,
    items: seq<OrderItem>,
    delivery: DeliveryDetails,
    totalAmount: int,
    payment: Payment,
    shippedAt: Option<Time>,
    cancelledAt: Option<Time>,
    createdAt: Time)

  /** An item as the request body supplies it; absent numbers are None, absent strings "". */
  datatype ItemInput = ItemInput(productId: Option<ProductId>, name: string, price: Option<int>, quantity: Option<int>, photo: string)

  /** The payment object of the request; the client may or may not name a status. */
  datatype PaymentInput = PaymentInput(txnId: string, utrId: string, status: Option<string>)

  /** The schema's demands on one item: a name, a price, and a product reference (if given)
      that casts to an ObjectId; `validId` is the driver's ObjectId check. */
  predicate ItemValid(i: ItemInput, validId: ProductId -> bool) {
    Truthy(i.name) && i.price.Some? && (i.productId.None? || validId(i.productId.value))
  }

  /** The schema's demands on the delivery details: all but the email are required. */
  predicate DeliveryValid(d: DeliveryDetails) {
    Truthy(d.name) && Truthy(d.phone) && Truthy(d.address) && Truthy(d.city) && Truthy(d.pincode)
  }

  /** The schema's demands on the payment: both ids, and a status (if given) from the enum. */
  predicate PaymentValid(p: PaymentInput) {
    Truthy(p.txnId) && Truthy(p.utrId) && (p.status.None? || Parse(p.status.value).Some?)
  }

  /** Casting one item into the schema: quantity defaults to 1. */
  function NewItem(i: ItemInput, validId: ProductId -> bool): (r: Result<OrderItem>)
    ensures r.Ok? <==> ItemValid(i, validId)
    ensures r.Err? ==> r.error == ValidationFailed
    ensures r.Ok? ==> r.value.name == i.name && Truthy(r.value.name) && r.value.price == i.price.value
    ensures r.Ok? ==> r.value.productId == i.productId && r.value.photo == i.photo
    ensures r.Ok? ==> r.value.quantity == (if i.quantity.Some? then i.quantity.value else 1)
  {
    if !Truthy(i.name) || i.price.None? || (i.productId.Some? && !validId(i.productId.value)) then
      Err(ValidationFailed)
    else Ok(OrderItem(i.productId, i.name, i.price.value, if i.quantity.Some? then i.quantity.value else 1, i.photo))
  }

  /** Casting the item array: one invalid item rejects them all, otherwise each is cast in place. */
  function NewItems(inputs: seq<ItemInput>, validId: ProductId -> bool): (r: Result<seq<OrderItem>>)
    ensures r.Ok? <==> forall k :: 0 <= k < |inputs| ==> ItemValid(inputs[k], validId)
    ensures r.Err? ==> r.error == ValidationFailed
    ensures r.Ok? ==> |r.value| == |inputs|
    ensures r.Ok? ==> forall k :: 0 <= k < |inputs| ==> r.value[k] == NewItem(inputs[k], validId).value
  {
    if |inputs| == 0 then Ok([])
    else
      match NewItem(inputs[0], validId)
      case Err(e) => Err(e)
      case Ok(first) =>
        match NewItems(inputs[1..], validId)
        case Err(e) => Err(e)
        case Ok(rest) =>
          assert forall k :: 1 <= k < |inputs| ==> inputs[k] == inputs[1..][k - 1];
          Ok([first] + rest)
  }

  /** `new Order({...}).save()`: validate against the schema and fill in the defaults. */
  function NewOrder(user: UserId, items: seq<ItemInput>, delivery: DeliveryDetails, total: int,
                    payment: PaymentInput, now: Time, validId: ProductId -> bool): (r: Result<Order>)
    ensures r.Ok? <==> (
      (forall k :: 0 <= k < |items| ==> ItemValid(items[k], validId)) && DeliveryValid(delivery) && PaymentValid(payment))
    ensures r.Err? ==> r.error == ValidationFailed
    ensures r.Ok? ==>
      r.value.payment.status == (if payment.status.None? then PendingVerification else Parse(payment.status.value).value)
    ensures r.Ok? ==> r.value.shippedAt.None? && r.value.cancelledAt.None?
    ensures r.Ok? ==> r.value.userId == user && r.value.delivery == delivery && r.value.totalAmount == total
    ensures r.Ok? ==> r.value.payment.txnId == payment.txnId && r.value.payment.utrId == payment.utrId
    ensures r.Ok? ==> r.value.createdAt == now && |r.value.items| == |items|
    ensures r.Ok? ==> forall k :: 0 <= k < |items| ==> r.value.items[k] == NewItem(items[k], validId).value
  {
    match NewItems(items, validId)
    case Err(e) => Err(e)
    case Ok(cast) =>
      if !DeliveryValid(delivery) || !PaymentValid(payment) then Err(ValidationFailed)
      else
        var status := if payment.status.None? then PendingVerification else Parse(payment.status.value).value;
        Ok(Order(user, cast, delivery, total, Payment(payment.txnId, payment.utrId, status), None, None, now))
  }
}
