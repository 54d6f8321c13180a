/** Identifiers, optional values and the error taxonomy shared by every handler. */
module Base {

  /** Document identifiers are opaque strings (Mongo ObjectIds in the store). */
  type UserId = string
  type ProductId = string
  type OrderId = string
  type AddressId = string

  /** A point in time, in milliseconds (the value `Date.now()` would give). */
  type Time = int

  datatype Option<+T> = None | Some(value: T)

  /** The failures a handler can answer with; HTTP codes and messages are collapsed into these. */
  datatype Error =
    | MissingFields     // a field the handler checks by hand is absent or falsy (400)
    | InvalidInput      // an identifier the driver would not accept (400)
    | NotFound          // the document is absent or belongs to another user (404)
    | InvalidTransition // a status change out of a terminal status (400)
    | ValidationFailed  // the schema validator rejected the document (400)

  datatype Result<+T> = Ok(value: T) | Err(error: Error)

  /** A live catalog record, as `populate` joins it into carts, wishlists and order history. */
  datatype Product = Product(name: string, photo: string, price: int)

  /** Product lookup by id; an id that is absent reads as a deleted product (`populate` yields null). */
  type Catalog = map<ProductId, Product>

  /** How a toggle handler classifies its effect ("Added to …" / "Removed from …"). */
  datatype Change = Added | Removed

  /** What a handler leaves behind in the store, together with its answer. */
  datatype Step<+S, +T> = Step(store: S, result: Result<T>)

  /** JavaScript truthiness of a string: only the empty string is falsy. */
  predicate Truthy(s: string) {
    s != ""
  }

  /** `a || b` on strings. */
  function Or(a: string, b: string): (r: string)
    ensures Truthy(a) ==> r == a
    ensures !Truthy(a) ==> r == b
  {
    if Truthy(a) then a else b
  }

  /** The value of an optional string field, absent reading as "" (falsy). */
  function OrEmpty(o: Option<string>): (r: string)
    ensures o.Some? ==> r == o.value
    ensures o.None? ==> !Truthy(r)
  {
    if o.Some? then o.value else ""
  }
}
