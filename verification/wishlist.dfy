/** The wishlist handlers: toggle a product in or out of the user's wishlist, and fetch it. */
module Wishlist {
  import opened Base
  import Lists

  /** A wishlist entry `{productId}`. */
  datatype Item = Item(productId: ProductId)

  /** One wishlist per user. */
  type Wishlists = map<UserId, seq<Item>>

  datatype Toggled = Toggled(wishlists: Wishlists, change: Change)

  function Ids(items: seq<Item>): (r: seq<ProductId>)
    ensures |r| == |items|
    ensures forall k :: 0 <= k < |items| ==> r[k] == items[k].productId
  {
    seq(|items|, k requires 0 <= k < |items| => items[k].productId)
  }

  /** The product is on the user's wishlist. */
  predicate Wished(lists: Wishlists, user: UserId, product: ProductId) {
    user in lists && product in Ids(lists[user])
  }

  /** No wishlist names a product twice. */
  ghost predicate NoDuplicates(lists: Wishlists) {
    forall user :: user in lists ==> Lists.Distinct(Ids(lists[user]))
  }

  /** The list-level toggle on an existing wishlist: drop the product's first entry, or append it. */
  function ToggleIn(items: seq<Item>, product: ProductId): (r: (seq<Item>, Change))
    ensures r.1 == Added <==> product !in Ids(items)
    ensures product in Ids(items) ==>
      var i := Lists.IndexOf(Ids(items), product);
      items[i].productId == product && r.0 == items[..i] + items[i + 1..]
    ensures product !in Ids(items) ==> r.0 == items + [Item(product)]
  {
    var i := Lists.IndexOf(Ids(items), product);
    if i >= 0 then
      (Lists.RemoveAt(items, i), Removed)
    else (items + [Item(product)], Added)
  }

  /** On a duplicate-free list the toggle flips membership and keeps the list duplicate-free. */
  lemma ToggleInFlips(items: seq<Item>, product: ProductId)
    requires Lists.Distinct(Ids(items))
    ensures product in Ids(ToggleIn(items, product).0) <==> product !in Ids(items)
    ensures Lists.Distinct(Ids(ToggleIn(items, product).0))
  {
    var after := ToggleIn(items, product).0;
    var i := Lists.IndexOf(Ids(items), product);
    if i >= 0 {
      Lists.RemoveAtMembership(Ids(items), i, product);
      assert Ids(after) == Lists.RemoveAt(Ids(items), i);
    } else {
      Lists.AppendDistinct(Ids(items), product);
      assert Ids(after) == Ids(items) + [product];
    }
  }

  /** Toggling an absent product twice gives the list back unchanged. */
  lemma ToggleInTwiceAbsent(items: seq<Item>, product: ProductId)
    requires product !in Ids(items)
    ensures ToggleIn(ToggleIn(items, product).0, product).0 == items
  {
    var once := ToggleIn(items, product).0;
    assert Ids(once) == Ids(items) + [product];
    assert Lists.IndexOf(Ids(once), product) == |items| by {
      assert Ids(once)[|items|] == product;
    }
    assert once[..|items|] == items;
  }

  /** `POST /toggle`: create a one-item wishlist ("Added"), or remove the product's (first) entry
      ("Removed"), or append it ("Added"). An emptied wishlist stays stored. */
  function Toggle(lists: Wishlists, user: UserId, product: ProductId): (r: Toggled)
    ensures r.wishlists.Keys == lists.Keys + {user}
    ensures forall u :: u in lists && u != user ==> r.wishlists[u] == lists[u]
    ensures user !in lists ==> r.wishlists[user] == [Item(product)] && r.change == Added
    ensures r.change == Added <==> !Wished(lists, user, product)
    ensures user in lists ==> (r.wishlists[user], r.change) == ToggleIn(lists[user], product)
  {
    if user !in lists then Toggled(lists[user := [Item(product)]], Added)
    else
      var (items, change) := ToggleIn(lists[user], product);
      Toggled(lists[user := items], change)
  }

  /** A toggle flips whether the product is wished for, when the list had no duplicates. */
  lemma ToggleFlips(lists: Wishlists, user: UserId, product: ProductId)
    requires user in lists ==> Lists.Distinct(Ids(lists[user]))
    ensures Wished(Toggle(lists, user, product).wishlists, user, product) <==> !Wished(lists, user, product)
  {
    if user in lists {
      ToggleInFlips(lists[user], product);
    } else {
      assert Ids([Item(product)]) == [product];
    }
  }

  /** A toggle keeps every wishlist free of duplicates. */
  lemma ToggleKeepsNoDuplicates(lists: Wishlists, user: UserId, product: ProductId)
    requires NoDuplicates(lists)
    ensures NoDuplicates(Toggle(lists, user, product).wishlists)
  {
    if user in lists {
      ToggleInFlips(lists[user], product);
    } else {
      assert Ids([Item(product)]) == [product];
    }
  }

  /** Two toggles restore whether the product is wished for, and answer Added and Removed in some
      order: the toggle oscillates rather than being idempotent. */
  lemma ToggleTwiceRestoresMembership(lists: Wishlists, user: UserId, product: ProductId)
    requires NoDuplicates(lists)
    ensures var once := Toggle(lists, user, product);
      var twice := Toggle(once.wishlists, user, product);
      && (Wished(twice.wishlists, user, product) <==> Wished(lists, user, product))
      && once.change != twice.change
  {
    var once := Toggle(lists, user, product).wishlists;
    ToggleFlips(lists, user, product);
    ToggleKeepsNoDuplicates(lists, user, product);
    ToggleFlips(once, user, product);
  }

  /** Toggling an absent product twice gives back the same wishlists, except that a user who had
      none is left with an empty one rather than none. */
  lemma ToggleTwiceAbsent(lists: Wishlists, user: UserId, product: ProductId)
    requires !Wished(lists, user, product)
    ensures Toggle(Toggle(lists, user, product).wishlists, user, product).wishlists ==
      if user in lists then lists else lists[user := []]
  {
    var once := Toggle(lists, user, product).wishlists;
    if user in lists {
      var items := lists[user];
      ToggleInTwiceAbsent(items, product);
      assert once == lists[user := ToggleIn(items, product).0];
      assert Toggle(once, user, product).wishlists == once[user := ToggleIn(once[user], product).0];
    } else {
      var none: seq<Item> := [];
      ToggleInTwiceAbsent(none, product);
      assert once == lists[user := ToggleIn(none, product).0];
      assert Toggle(once, user, product).wishlists == once[user := ToggleIn(once[user], product).0];
    }
  }

  datatype WishlistView = WishlistView(userId: UserId, items: seq<Option<Product>>)

  /** `GET /:userId`: the populated wishlist, or `{userId, items: []}` when the user has none. */
  function Fetch(lists: Wishlists, catalog: Catalog, user: UserId): (v: WishlistView)
    ensures v.userId == user
    ensures user !in lists ==> v.items == []
    ensures user in lists ==> |v.items| == |lists[user]|
    ensures user in lists ==> forall k :: 0 <= k < |lists[user]| ==>
      v.items[k] == if lists[user][k].productId in catalog then Some(catalog[lists[user][k].productId]) else None
  {
    if user !in lists then WishlistView(user, [])
    else
      var items := lists[user];
      WishlistView(user, seq(|items|, k requires 0 <= k < |items| =>
        if items[k].productId in catalog then Some(catalog[items[k].productId]) else None))
  }

  /** A toggle empties a wishlist exactly when it held a single entry, for that product. The
      emptied wishlist stays stored, yet fetches exactly like a missing one. */
  lemma EmptiedWishlistFetchesEmpty(lists: Wishlists, catalog: Catalog, user: UserId, product: ProductId)
    ensures var after := Toggle(lists, user, product).wishlists;
      after[user] == [] <==> user in lists && |lists[user]| == 1 && lists[user][0].productId == product
    ensures var after := Toggle(lists, user, product).wishlists;
      after[user] == [] ==> user in after && Fetch(after, catalog, user) == Fetch(after - {user}, catalog, user)
  {
    if user in lists {
      var items := lists[user];
      if product in Ids(items) {
        var i := Lists.IndexOf(Ids(items), product);
        assert |ToggleIn(items, product).0| == |items| - 1;
        if |items| == 1 { assert i == 0; }
      } else if |items| == 1 {
        assert Ids(items)[0] == items[0].productId;
      }
    }
  }
}
