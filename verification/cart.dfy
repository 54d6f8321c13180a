/** The cart handlers: toggle a product in or out of the user's cart, and fetch the cart. */
module Cart {
  import opened Base
  import Lists

  /** A cart line; the product reference is joined to the catalog when the cart is fetched. */
  datatype Line = Line(productId: ProductId, quantity: int)

  /** One cart per user. */
  type Carts = map<UserId, seq<Line>>

  datatype Toggled = Toggled(carts: Carts, change: Change)

  function Ids(items: seq<Line>): (r: seq<ProductId>)
    ensures |r| == |items|
    ensures forall k :: 0 <= k < |items| ==> r[k] == items[k].productId
  {
    seq(|items|, k requires 0 <= k < |items| => items[k].productId)
  }

  /** The product has a line in the user's cart. */
  predicate InCart(carts: Carts, user: UserId, product: ProductId) {
    user in carts && product in Ids(carts[user])
  }

  /** No cart holds two lines for one product. */
  ghost predicate NoDuplicates(carts: Carts) {
    forall user :: user in carts ==> Lists.Distinct(Ids(carts[user]))
  }

  /** The list-level toggle on an existing cart: drop the product's first entry, or append it. */
  function ToggleIn(items: seq<Line>, product: ProductId): (r: (seq<Line>, Change))
    ensures r.1 == Added <==> product !in Ids(items)
    ensures product in Ids(items) ==>
      var i := Lists.IndexOf(Ids(items), product);
      items[i].productId == product && r.0 == items[..i] + items[i + 1..]
    ensures product !in Ids(items) ==> r.0 == items + [Line(product, 1)]
  {
    var i := Lists.IndexOf(Ids(items), product);
    if i >= 0 then
      (Lists.RemoveAt(items, i), Removed)
    else (items + [Line(product, 1)], Added)
  }

  /** On a duplicate-free list the toggle flips membership and keeps the list duplicate-free. */
  lemma ToggleInFlips(items: seq<Line>, product: ProductId)
    requires Lists.Distinct(Ids(items))
    ensures product in Ids(ToggleIn(items, product).0) <==> product !in Ids(items)
    ensures Lists.Distinct(Ids(ToggleIn(items, product).0))
  {
    var after := ToggleIn(items, product).0;
    var i := Lists.IndexOf(Ids(items), product);
    if i >= 0 {
      Lists.RemoveAtMembership(Ids(items), i, product);
      assert Ids(after) == Lists.RemoveAt(Ids(items), i);
    } else {
      Lists.AppendDistinct(Ids(items), product);
      assert Ids(after) == Ids(items) + [product];
    }
  }

  /** Toggling an absent product twice gives the list back unchanged. */
  lemma ToggleInTwiceAbsent(items: seq<Line>, product: ProductId)
    requires product !in Ids(items)
    ensures ToggleIn(ToggleIn(items, product).0, product).0 == items
  {
    var once := ToggleIn(items, product).0;
    assert Ids(once) == Ids(items) + [product];
    assert Lists.IndexOf(Ids(once), product) == |items| by {
      assert Ids(once)[|items|] == product;
    }
    assert once[..|items|] == items;
  }

  /** `POST /toggle`: create a one-line cart, or drop the product's (first) line whatever its
      quantity, or append a line of quantity 1. An emptied cart stays stored. */
  function Toggle(carts: Carts, user: UserId, product: ProductId): (r: Toggled)
    ensures r.carts.Keys == carts.Keys + {user}
    ensures forall u :: u in carts && u != user ==> r.carts[u] == carts[u]
    ensures user !in carts ==> r.carts[user] == [Line(product, 1)] && r.change == Added
    ensures r.change == Added <==> !InCart(carts, user, product)
    ensures user in carts ==> (r.carts[user], r.change) == ToggleIn(carts[user], product)
  {
    if user !in carts then Toggled(carts[user := [Line(product, 1)]], Added)
    else
      var (items, change) := ToggleIn(carts[user], product);
      Toggled(carts[user := items], change)
  }

  /** A toggle flips whether the product is in the cart, when the cart had no duplicate lines. */
  lemma ToggleFlips(carts: Carts, user: UserId, product: ProductId)
    requires user in carts ==> Lists.Distinct(Ids(carts[user]))
    ensures InCart(Toggle(carts, user, product).carts, user, product) <==> !InCart(carts, user, product)
  {
    if user in carts {
      ToggleInFlips(carts[user], product);
    } else {
      assert Ids([Line(product, 1)]) == [product];
    }
  }

  /** A toggle keeps every cart free of duplicates. */
  lemma ToggleKeepsNoDuplicates(carts: Carts, user: UserId, product: ProductId)
    requires NoDuplicates(carts)
    ensures NoDuplicates(Toggle(carts, user, product).carts)
  {
    if user in carts {
      ToggleInFlips(carts[user], product);
    } else {
      assert Ids([Line(product, 1)]) == [product];
    }
  }

  /** Two toggles of one product restore whether it is in the cart, and answer Added and Removed
      in some order: the toggle oscillates rather than being idempotent. */
  lemma ToggleTwiceRestoresMembership(carts: Carts, user: UserId, product: ProductId)
    requires NoDuplicates(carts)
    ensures var once := Toggle(carts, user, product);
      var twice := Toggle(once.carts, user, product);
      && (InCart(twice.carts, user, product) <==> InCart(carts, user, product))
      && once.change != twice.change
  {
    var once := Toggle(carts, user, product).carts;
    ToggleFlips(carts, user, product);
    ToggleKeepsNoDuplicates(carts, user, product);
    ToggleFlips(once, user, product);
  }

  /** Toggling an absent product twice gives back the very same carts, except that a user who had
      no cart is left with an empty one rather than none. */
  lemma ToggleTwiceAbsent(carts: Carts, user: UserId, product: ProductId)
    requires !InCart(carts, user, product)
    ensures Toggle(Toggle(carts, user, product).carts, user, product).carts ==
      if user in carts then carts else carts[user := []]
  {
    var once := Toggle(carts, user, product).carts;
    if user in carts {
      var items := carts[user];
      ToggleInTwiceAbsent(items, product);
      assert once == carts[user := ToggleIn(items, product).0];
      assert Toggle(once, user, product).carts == once[user := ToggleIn(once[user], product).0];
    } else {
      var none: seq<Line> := [];
      ToggleInTwiceAbsent(none, product);
      assert once == carts[user := ToggleIn(none, product).0];
      assert Toggle(once, user, product).carts == once[user := ToggleIn(once[user], product).0];
    }
  }

  /** A cart line with its product reference joined to the live catalog record (null when gone). */
  datatype ResolvedLine = ResolvedLine(product: Option<Product>, quantity: int)

  datatype CartView = CartView(userId: UserId, items: seq<ResolvedLine>)

  /** `GET /:userId`: the populated cart, or `{userId, items: []}` when the user has none. */
  function Fetch(carts: Carts, catalog: Catalog, user: UserId): (v: CartView)
    ensures v.userId == user
    ensures user !in carts ==> v.items == []
    ensures user in carts ==> |v.items| == |carts[user]|
    ensures user in carts ==> forall k :: 0 <= k < |carts[user]| ==>
      var line := carts[user][k];
      v.items[k].quantity == line.quantity
      && v.items[k].product == if line.productId in catalog then Some(catalog[line.productId]) else None
  {
    if user !in carts then CartView(user, [])
    else
      var items := carts[user];
      CartView(user, seq(|items|, k requires 0 <= k < |items| =>
        ResolvedLine(if items[k].productId in catalog then Some(catalog[items[k].productId]) else None, items[k].quantity)))
  }

  /** A toggle empties a cart exactly when it held a single line, for that product. The
      emptied cart stays stored, yet fetches exactly like a missing one. */
  lemma EmptiedCartFetchesEmpty(carts: Carts, catalog: Catalog, user: UserId, product: ProductId)
    ensures var after := Toggle(carts, user, product).carts;
      after[user] == [] <==> user in carts && |carts[user]| == 1 && carts[user][0].productId == product
    ensures var after := Toggle(carts, user, product).carts;
      after[user] == [] ==> user in after && Fetch(after, catalog, user) == Fetch(after - {user}, catalog, user)
  {
    if user in carts {
      var items := carts[user];
      if product in Ids(items) {
        var i := Lists.IndexOf(Ids(items), product);
        assert |ToggleIn(items, product).0| == |items| - 1;
        if |items| == 1 { assert i == 0; }
      } else if |items| == 1 {
        assert Ids(items)[0] == items[0].productId;
      }
    }
  }
}
